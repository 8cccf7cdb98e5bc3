/** The in-place minimum-redundancy calculation of the JPEG encoder. */
module MinimumRedundancy {
  import opened MachineNumbers
  import opened Powers
  import opened CodeLengths
  import opened HuffmanMerge
  import opened HuffmanDepth
  import opened SymbolFrequencies

  /** par[k] is the step of run r that took node k. */
  ghost predicate Parents(r: Run, par: seq<nat>)
    requires r.Shape()
  {
    forall k :: 0 <= k < |par| ==> par[k] < |r.v| && r.first[par[k]] <= k < r.first[par[k]] + r.Taken(par[k])
  }

  /** The array during the first pass: parents of the merged nodes, weights of the unmerged nodes, and
      the leaves still in the forest. */
  ghost predicate Layout(k: seq<nat>, r: Run, par: seq<nat>)
    requires r.Shape()
  {
    var s := |r.v|;
    && |k| == |r.w| && |par| == r.first[s] <= s && Parents(r, par)
    && (forall i :: 0 <= i < r.first[s] ==> k[i] == par[i])
    && (forall i :: r.first[s] <= i < s ==> k[i] == r.v[i])
    && (forall i :: r.Leaf(s) <= i < |k| ==> k[i] == r.w[i])
  }

  /** Writing the sum x into cell |r.v| and the parent into the t cells of the nodes taken moves the
      array to the layout of the extended run. */
  lemma {:induction false} LayoutStep(k: seq<nat>, k': seq<nat>, r: Run, r': Run, par: seq<nat>, x: nat, t: nat)
    requires r.Greedy() && Layout(k, r, par) && 0 < |r.v| && |r.v| + 1 < |r.w|
    requires r' == Run(r.w, r.v + [x], r.first + [r.first[|r.v|] + t]) && r'.Greedy() && r'.Taken(|r.v|) == t
    requires |k'| == |k| && k'[|r.v|] == x
    requires forall i :: 0 <= i < |k| && i != |r.v| ==>
      k'[i] == if r.first[|r.v|] <= i < r.first[|r.v|] + t then |r.v| else k[i]
    ensures Layout(k', r', par + seq(t, _ => |r.v|))
  {
    var s, par' := |r.v|, par + seq(t, _ => |r.v|);
    assert r'.Leaf(s + 1) >= s + 2 && r.Leaf(s) == 2 * s - r.first[s] && r'.first[s] + t <= s;
    forall i | 0 <= i < |par'|
      ensures par'[i] < |r'.v| && r'.first[par'[i]] <= i < r'.first[par'[i]] + r'.Taken(par'[i])
    {
      if i < |par| {
        assert r.first[par[i]] + r.Taken(par[i]) == r.first[par[i] + 1];
      }
    }
  }

  /** Whether the node queue (front root, end next) rather than the leaf queue (front leaf) is taken from. */
  predicate TakesNode(k: seq<nat>, root: nat, leaf: nat, next: nat)
    requires root <= next < |k|
  {
    leaf >= |k| || (root < next && k[root] < k[leaf])
  }

  /** The keys after one item has been moved into (or added to) cell next. */
  ghost function AfterTake(k: seq<nat>, root: nat, leaf: nat, next: nat, add: bool): (k': seq<nat>)
    requires root <= next < leaf <= |k| && (leaf >= |k| ==> root < next)
    ensures |k'| == |k|
  {
    var node := TakesNode(k, root, leaf, next);
    var item := if node then k[root] else k[leaf];
    var k1 := k[next := if add then Add32(k[next], item) else item];
    if node then k1[root := next] else k1
  }

  /** Moves the lighter of the two queue fronts a[root] and a[leaf] into node next: its weight is
      stored there, or added to what is there, and a merged node records next as its parent. */
  method TakeLighter(a: array<SymFreq>, n: nat, root: nat, leaf: nat, next: nat, add: bool)
    returns (root': nat, leaf': nat)
    requires root <= next < leaf <= n <= a.Length && (leaf >= n ==> root < next)
    modifies a
    ensures Keys(a[..n]) == AfterTake(old(Keys(a[..n])), root, leaf, next, add)
    ensures SameSymbols(old(a[..]), a[..]) && a[n..] == old(a[n..])
    ensures var node := TakesNode(old(Keys(a[..n])), root, leaf, next);
      root' == (if node then root + 1 else root) && leaf' == (if node then leaf else leaf + 1)
  {
    root', leaf' := root, leaf;
    if leaf >= n || (root < next && a[root].key < a[leaf].key) {
      a[next] := a[next].(key := if add then Add32(a[next].key, a[root].key) else a[root].key);
      a[root] := a[root].(key := next);
      root' := root + 1;
    } else {
      a[next] := a[next].(key := if add then Add32(a[next].key, a[leaf].key) else a[leaf].key);
      leaf' := leaf + 1;
    }
  }

  /** The fronts of the two queues, read off the array. */
  lemma {:induction false} Fronts(k: seq<nat>, r: Run, par: seq<nat>, f: nat, e: nat)
    requires r.Greedy() && 0 < |r.v| && Layout(k, r, par) && f == r.first[|r.v|] && e == r.Leaf(|r.v|)
    ensures forall i :: f <= i < |r.v| ==> k[i] == r.v[i]
    ensures forall i :: e <= i < |k| ==> k[i] == r.w[i]
  {
  }

  /** Taking twice is the greedy step of the run that the array lays out. */
  lemma {:induction false} TakeTwice(k: seq<nat>, k1: seq<nat>, k2: seq<nat>, r: Run, par: seq<nat>, f: nat, e: nat,
          f1: nat, e1: nat, f2: nat, e2: nat)
    returns (r': Run, par': seq<nat>)
    requires r.Greedy() && r.LeavesFirst() && 0 < |r.v| && |r.v| + 1 < |k| == |r.w|
    requires Ascending(r.w) && Sum(r.w) < UINT32_RANGE && Layout(k, r, par)
    requires f == r.first[|r.v|] && e == r.Leaf(|r.v|)
    requires f < |r.v| < e <= |k| && e1 <= |k| && f1 <= |r.v| && (e1 >= |k| ==> f1 < |r.v|)
    requires k1 == AfterTake(k, f, e, |r.v|, false)
    requires f1 == (if TakesNode(k, f, e, |r.v|) then f + 1 else f) && f1 + e1 == f + e + 1
    requires k2 == AfterTake(k1, f1, e1, |r.v|, true)
    requires f2 == (if TakesNode(k1, f1, e1, |r.v|) then f1 + 1 else f1) && f2 + e2 == f1 + e1 + 1
    ensures r'.Greedy() && r'.LeavesFirst() && r'.w == r.w && |r'.v| == |r.v| + 1
    ensures r'.first[|r.v| + 1] == f2 && r'.Leaf(|r.v| + 1) == e2
    ensures Layout(k2, r', par')
  {
    hide *;
    Fronts(k, r, par, f, e);
    var x, y, t;
    x, y, t, r' := GreedyChoice(r, f, e);
    TiesGoToLeaves(r, r', f, e, t);
    par' := par + seq(t, _ => |r.v|);
    PickTwice(k, k1, k2, r, f, e, f1, e1, f2, e2, x, y, t);
    LayoutStep(k, k2, r, r', par, x + y, t);
  }

  /** The two moves of keys pick what the greedy choice picks. */
  lemma {:induction false} PickTwice(k: seq<nat>, k1: seq<nat>, k2: seq<nat>, r: Run, f: nat, e: nat, f1: nat, e1: nat,
          f2: nat, e2: nat, x: nat, y: nat, t: nat)
    requires 0 < |r.v| && |r.v| + 1 < |k| == |r.w|
    requires forall i :: f <= i < |r.v| ==> k[i] == r.v[i]
    requires forall i :: e <= i < |k| ==> k[i] == r.w[i]
    requires f < |r.v| < e <= |k| && e1 <= |k| && f1 <= |r.v| && (e1 >= |k| ==> f1 < |r.v|)
    requires k1 == AfterTake(k, f, e, |r.v|, false)
    requires f1 == (if TakesNode(k, f, e, |r.v|) then f + 1 else f) && f1 + e1 == f + e + 1
    requires k2 == AfterTake(k1, f1, e1, |r.v|, true)
    requires f2 == (if TakesNode(k1, f1, e1, |r.v|) then f1 + 1 else f1) && f2 + e2 == f1 + e1 + 1
    requires t <= 2 && x + y < UINT32_RANGE
    requires var one := FromNodes(r, f, e);
      var g, h := if one then f + 1 else f, if one then e else e + 1;
      var two := FromNodes(r, g, h);
      && x == (if one then r.v[f] else r.w[e])
      && (two ==> g < |r.v|) && y == (if two then r.v[g] else r.w[h])
      && f + t == (if two then g + 1 else g)
    ensures f2 == f + t && e2 == e + 2 - t && |k2| == |k| && k2[|r.v|] == x + y
    ensures forall i :: 0 <= i < |k| && i != |r.v| ==> k2[i] == if f <= i < f + t then |r.v| else k[i]
  {
    assert TakesNode(k, f, e, |r.v|) == FromNodes(r, f, e);
    assert k1[|r.v|] == x;
    assert TakesNode(k1, f1, e1, |r.v|) == FromNodes(r, f1, e1);
    NoWrap(x, y);
  }

  /** One step of the first pass. */
  method MergeStep(a: array<SymFreq>, n: nat, root: nat, leaf: nat, next: nat, ghost r: Run, ghost par: seq<nat>)
    returns (root': nat, leaf': nat, ghost r': Run, ghost par': seq<nat>)
    requires r.Greedy() && r.LeavesFirst() && 0 < next == |r.v| && next + 1 < n == |r.w| <= a.Length
    requires root == r.first[next] && leaf == r.Leaf(next) && Ascending(r.w) && Sum(r.w) < UINT32_RANGE
    requires Layout(Keys(a[..n]), r, par)
    modifies a
    ensures r'.Greedy() && r'.LeavesFirst() && r'.w == r.w && |r'.v| == next + 1
    ensures root' == r'.first[next + 1] && leaf' == r'.Leaf(next + 1)
    ensures Layout(Keys(a[..n]), r', par')
    ensures SameSymbols(old(a[..]), a[..]) && a[n..] == old(a[n..])
  {
    assert root + leaf == 2 * next && root < next;
    hide *;
    ghost var s, k := a[..], Keys(a[..n]);
    root', leaf' := TakeLighter(a, n, root, leaf, next, false);
    ghost var s1, k1, f1, e1 := a[..], Keys(a[..n]), root', leaf';
    root', leaf' := TakeLighter(a, n, root', leaf', next, true);
    r', par' := TakeTwice(k, k1, Keys(a[..n]), r, par, root, leaf, f1, e1, root', leaf');
    SymbolsTransitive(s, s1, a[..]);
  }

  /** First pass: merge the two lightest items until one is left, keeping weights of unmerged nodes,
      then parents of merged ones, in the cells the consumed leaves have freed. */
  method MergeWeights(a: array<SymFreq>, n: nat) returns (ghost r: Run, ghost par: seq<nat>)
    requires 2 <= n <= a.Length
    requires Ascending(Keys(a[..n])) && Sum(Keys(a[..n])) < UINT32_RANGE
    modifies a
    ensures r.Complete() && r.LeavesFirst() && r.w == old(Keys(a[..n])) && Layout(Keys(a[..n]), r, par)
    ensures SameSymbols(old(a[..]), a[..]) && a[n..] == old(a[n..])
  {
    hide Run.GreedyStep, Sum;
    ghost var w := Keys(a[..n]);
    r := Run(w, [w[0] + w[1]], [0, 0]);
    ExtendRun(Run(w, [], [0]), r, w[0], w[1], 0);
    NodeBelowTotal(r);
    NoWrap(w[0], w[1]);
    a[0] := a[0].(key := Add32(a[0].key, a[1].key));
    var root, leaf, next := 0, 2, 1;
    par := [];
    assert Layout(Keys(a[..n]), r, par);
    assert r.Taken(0) == 0 && r.LeavesFirst();
    hide Run.LeavesFirst, Run.Greedy, Run.Shape, Run.Taken, Run.Leaf, Layout, Parents, Keys, Ascending;
    while next < n - 1
      invariant 1 <= next <= n - 1
      invariant r.Greedy() && r.LeavesFirst() && r.w == w && |r.v| == next && root == r.first[next]
        && leaf == r.Leaf(next)
      invariant Layout(Keys(a[..n]), r, par)
      invariant SameSymbols(old(a[..]), a[..]) && a[n..] == old(a[n..])
    {
      root, leaf, r, par := MergeStep(a, n, root, leaf, next, r, par);
      next := next + 1;
    }
  }

  lemma {:induction false} CompleteLayout(k: seq<nat>, r: Run, par: seq<nat>)
    requires r.Complete() && Layout(k, r, par)
    ensures |par| == |k| - 2 && forall i :: 0 <= i < |par| ==> k[i] == par[i] && i < par[i] <= |par|
  {
    assert r.Leaf(|r.v|) <= |r.w|;
    forall i | 0 <= i < |par|
      ensures i < par[i] <= |par|
    {
      assert r.Leaf(par[i] + 1) >= 0 && r.first[par[i]] + r.Taken(par[i]) <= par[i];
    }
  }

  /** Second pass: replace every parent by the node's own depth, from the root down. */
  method NodeDepthsFromParents(a: array<SymFreq>, n: nat, ghost par: seq<nat>) returns (ghost d: seq<nat>)
    requires 2 <= n <= a.Length && |par| == n - 2
    requires forall i :: 0 <= i < n - 2 ==> a[i].key == par[i] && i < par[i] <= n - 2
    modifies a
    ensures DepthsFrom(par, d, 0) && |d| == n - 1 && forall i :: 0 <= i < n - 1 ==> a[i].key == d[i]
    ensures SameSymbols(old(a[..]), a[..]) && a[n..] == old(a[n..])
  {
    a[n - 2] := a[n - 2].(key := 0);
    d := [0];
    var next := n - 3;
    assert DepthsFrom(par, d, n - 2);
    hide DepthsFrom;
    while next >= 0
      invariant -1 <= next <= n - 3 && |d| == n - 2 - next && DepthsFrom(par, d, next + 1)
      invariant forall i :: next < i < n - 1 ==> a[i].key == d[i - next - 1]
      invariant forall i :: 0 <= i <= next ==> a[i].key == par[i]
      invariant SameSymbols(old(a[..]), a[..]) && a[n..] == old(a[n..])
    {
      a[next] := a[next].(key := a[a[next].key].key + 1);
      DepthsExtend(par, d, next);
      d := [a[next].key] + d;
      next := next - 1;
    }
  }

  lemma {:induction false} DepthsExtend(par: seq<nat>, d: seq<nat>, s: nat)
    requires DepthsFrom(par, d, s + 1) && s < par[s] <= |par|
    ensures DepthsFrom(par, [d[par[s] - s - 1] + 1] + d, s)
  {
  }

  /** d holds the depths of the nodes from s on. */
  ghost predicate DepthsFrom(par: seq<nat>, d: seq<nat>, s: nat) {
    && |d| + s == |par| + 1 && s <= |par| && d[|par| - s] == 0
    && forall i :: s <= i < |par| ==> i < par[i] <= |par| && d[i - s] == d[par[i] - s] + 1
  }

  ghost predicate LeavesBelow(k: seq<nat>, r: Run, d: seq<nat>, s: nat)
    requires r.Shape() && s < |r.v| == |d| && |k| == |r.w|
  {
    forall i :: r.Leaf(s) <= i < r.Leaf(s + 1) ==> k[i] == d[s] + 1
  }

  /** The third pass before it handles level depth: nodes lo..hi-1 are the level above, nodes before lo
      are deeper and still hold their depths, and the leaves above this level are done, at the end. */
  ghost predicate AtLevel(k: seq<nat>, r: Run, d: seq<nat>, depth: nat, lo: nat, hi: nat)
    requires r.Complete() && |d| == |r.v| && |k| == |r.w|
  {
    && 1 <= depth && lo <= hi <= |r.v| && r.first[hi] == lo
    && (forall i :: 0 <= i < lo ==> d[i] >= depth && k[i] == d[i])
    && (forall i :: lo <= i < hi ==> d[i] == depth - 1)
    && (forall s :: hi <= s < |r.v| ==> LeavesBelow(k, r, d, s))
    && (forall i :: r.Leaf(hi) <= i < |k| ==> k[i] < depth)
    && (forall i, j :: r.Leaf(hi) <= i <= j < |k| ==> k[j] <= k[i])
  }

  lemma {:induction false} FindStep(r: Run, k: nat, lo: nat, hi: nat) returns (p: nat)
    requires r.Shape() && lo <= hi <= |r.v| && r.first[lo] <= k < r.first[hi]
    ensures lo <= p < hi && r.first[p] <= k < r.first[p] + r.Taken(p)
  {
    p := lo;
    while r.first[p] + r.Taken(p) <= k
      invariant lo <= p < hi && r.first[p] <= k
      decreases hi - p
    {
      p := p + 1;
    }
  }

  ghost predicate NodesBelow(r: Run, d: seq<nat>)
    requires r.Shape() && |d| == |r.v|
  {
    forall s, k :: 0 <= s < |d| && r.first[s] <= k < r.first[s] + r.Taken(s) ==> d[k] == d[s] + 1
  }

  /** The nodes of the next level are exactly those that the nodes of this level have taken. */
  lemma {:induction false} NextLevel(r: Run, d: seq<nat>, depth: nat, lo: nat, hi: nat)
    requires r.Complete() && |d| == |r.v| && NodesBelow(r, d)
    requires lo <= hi <= |r.v| && r.first[hi] == lo
    requires forall i :: 0 <= i < lo ==> d[i] >= depth
    requires forall i :: lo <= i < hi ==> d[i] + 1 == depth
    ensures r.first[lo] <= lo
    ensures forall i :: r.first[lo] <= i < lo ==> d[i] == depth
    ensures forall i :: 0 <= i < r.first[lo] ==> d[i] > depth
  {
    assert r.Leaf(lo) >= 0;
    forall i | 0 <= i < lo
      ensures if i < r.first[lo] then d[i] > depth else d[i] == depth
    {
      if i < r.first[lo] {
        var p := FindStep(r, i, 0, lo);
      } else {
        var p := FindStep(r, i, lo, hi);
      }
    }
  }

  /** Filling the leaf cells of one level leads to the next level. */
  lemma {:induction false} LevelDone(k: seq<nat>, k': seq<nat>, r: Run, d: seq<nat>, depth: nat, lo: nat, hi: nat)
    requires r.Complete() && |d| == |r.v| && NodesBelow(r, d) && |k| == |k'| == |r.w|
    requires AtLevel(k, r, d, depth, lo, hi)
    requires r.Leaf(lo) <= r.Leaf(hi)
    requires forall i :: 0 <= i < |k| ==> k'[i] == if r.Leaf(lo) <= i < r.Leaf(hi) then depth else k[i]
    ensures AtLevel(k', r, d, depth + 1, r.first[lo], lo)
  {
    NextLevel(r, d, depth, lo, hi);
    forall s | lo <= s < |r.v|
      ensures LeavesBelow(k', r, d, s)
    {
      if s < hi {
        QueuesAdvance(r, lo, s);
        QueuesAdvance(r, s + 1, hi);
      } else {
        QueuesAdvance(r, hi, s);
        assert LeavesBelow(k, r, d, s);
      }
    }
    assert r.Leaf(lo) == 2 * lo - r.first[lo];
  }

  lemma {:induction false} LevelNumbers(k: seq<nat>, r: Run, d: seq<nat>, depth: nat, lo: nat, hi: nat)
    requires r.Complete() && |d| == |r.v| && NodesBelow(r, d) && |k| == |r.w| && AtLevel(k, r, d, depth, lo, hi)
    ensures r.first[lo] <= lo && r.Leaf(lo) == 2 * lo - r.first[lo] && r.Leaf(hi) == 2 * hi - lo <= |k|
    ensures forall i :: r.first[lo] <= i < lo ==> k[i] == depth
    ensures forall i :: 0 <= i < r.first[lo] ==> k[i] > depth
    ensures forall i :: 0 <= i < lo ==> k[i] == d[i]
    ensures r.Leaf(lo) <= r.Leaf(hi) && (lo < hi ==> r.first[lo] < hi && lo < r.Leaf(hi))
  {
    NextLevel(r, d, depth, lo, hi);
    QueuesAdvance(r, lo, hi);
    assert r.Leaf(lo) == 2 * lo - r.first[lo] && r.Leaf(hi) == 2 * hi - lo;
  }

  lemma {:induction false} FirstLevel(k: seq<nat>, r: Run, par: seq<nat>, d: seq<nat>)
    requires r.Complete() && |k| == |r.w| && |d| == |r.v|
    requires DepthsFrom(par, d, 0) && forall i :: 0 <= i < |d| ==> k[i] == d[i]
    ensures AtLevel(k, r, d, 1, |d| - 1, |d|)
  {
    assert r.Leaf(|r.v|) == 2 * |r.v| - r.first[|r.v|];
    forall i | 0 <= i < |par|
      ensures d[i] >= 1
    {
      assert par[i] > i;
    }
  }

  /** One level of the third pass: the nodes in cells f..lo-1 have depth dpth; the level's remaining
      avbl - (lo - f) slots go to the leaves in the cells up to next. */
  method ScanLevel(a: array<SymFreq>, n: nat, dpth: nat, avbl: nat, root: int, next: int, ghost f: nat)
    returns (used: nat, root': int, next': int)
    requires f - 1 <= root < next < n <= a.Length && root + 1 - f <= avbl && root <= next - (avbl - (root + 1 - f))
    requires forall i :: f <= i <= root ==> Keys(a[..n])[i] == dpth
    requires forall i :: 0 <= i < f ==> Keys(a[..n])[i] > dpth
    modifies a
    ensures used == root + 1 - f && root' == f - 1 && next' == next - (avbl - used)
    ensures forall i :: 0 <= i < n ==> Keys(a[..n])[i] == if next' < i <= next then dpth else old(Keys(a[..n]))[i]
    ensures SameSymbols(old(a[..]), a[..]) && a[n..] == old(a[n..])
  {
    used, root', next' := 0, root, next;
    assert forall i :: 0 <= i < n ==> a[i].key == Keys(a[..n])[i];
    while root' >= 0 && a[root'].key == dpth
      invariant f - 1 <= root' <= root && used == root - root'
    {
      used := used + 1;
      root' := root' - 1;
    }
    assert root' == f - 1;
    var left := avbl;
    while left > used
      invariant used <= left <= avbl && next' == next - (avbl - left)
      invariant forall i :: 0 <= i < n ==> a[i].key == if next' < i <= next then dpth else old(a[i].key)
      invariant SameSymbols(old(a[..]), a[..]) && a[n..] == old(a[n..])
    {
      a[next'] := a[next'].(key := dpth);
      next' := next' - 1;
      left := left - 1;
    }
  }

  /** The state of the third pass between levels; at level 0 the root alone is still to come. */
  ghost predicate BetweenLevels(k: seq<nat>, r: Run, d: seq<nat>, depth: nat, lo: nat, hi: nat, next: int, avbl: nat)
    requires r.Complete() && |d| == |r.v| && |k| == |r.w|
  {
    if depth == 0 then
      && lo == |d| && hi == |d| + 1 && next == |d| && avbl == 1 && k[|d| - 1] == 0
      && AtLevel(k, r, d, 1, |d| - 1, |d|)
    else
      AtLevel(k, r, d, depth, lo, hi) && next == r.Leaf(hi) - 1 && avbl == 2 * (hi - lo)
  }

  /** Where the nodes of the current level begin. */
  ghost function LevelStart(r: Run, depth: nat, lo: nat): (f: nat)
    requires r.Complete() && lo <= |r.v|
    ensures depth > 0 || lo == |r.v| ==> f <= lo
  {
    assert r.Leaf(lo) >= 0;
    if depth == 0 then |r.v| - 1 else r.first[lo]
  }

  lemma {:induction false} LevelReady(k: seq<nat>, r: Run, d: seq<nat>, depth: nat, lo: nat, hi: nat, next: int,
          avbl: nat)
    requires r.Complete() && |d| == |r.v| && NodesBelow(r, d) && |k| == |r.w|
    requires BetweenLevels(k, r, d, depth, lo, hi, next, avbl) && avbl > 0
    ensures lo <= |d| && lo <= next < |k|
    ensures var f := LevelStart(r, depth, lo);
      && f <= lo && lo - f <= avbl && lo - 1 <= next - (avbl - (lo - f)) && f < hi
      && (forall i :: f <= i < lo ==> k[i] == depth) && (forall i :: 0 <= i < f ==> k[i] > depth)
  {
    if depth > 0 {
      LevelNumbers(k, r, d, depth, lo, hi);
    }
  }

  lemma {:induction false} LevelFilled(k: seq<nat>, k': seq<nat>, r: Run, d: seq<nat>, depth: nat, lo: nat, hi: nat,
          next: int, avbl: nat, next': int)
    requires r.Complete() && |d| == |r.v| && NodesBelow(r, d) && |k| == |k'| == |r.w|
    requires BetweenLevels(k, r, d, depth, lo, hi, next, avbl) && avbl > 0 && lo <= |d|
    requires next' == next - (avbl - (lo - LevelStart(r, depth, lo)))
    requires forall i :: 0 <= i < |k| ==> k'[i] == if next' < i <= next then depth else k[i]
    ensures BetweenLevels(k', r, d, depth + 1, LevelStart(r, depth, lo), lo, next', 2 * (lo - LevelStart(r, depth, lo)))
  {
    if depth > 0 {
      LevelNumbers(k, r, d, depth, lo, hi);
      LevelDone(k, k', r, d, depth, lo, hi);
    } else {
      assert r.Leaf(|d|) == |k|;
      assert k == k';
    }
  }

  /** Third pass: count the nodes of each level and give the other slots of the level to leaves. */
  method LeafDepthsFromNodes(a: array<SymFreq>, n: nat, ghost r: Run, ghost par: seq<nat>, ghost d: seq<nat>)
    requires r.Complete() && 2 <= n == |r.w| <= a.Length && |d| == |r.v|
    requires DepthsFrom(par, d, 0) && NodesBelow(r, d) && forall i :: 0 <= i < n - 1 ==> a[i].key == d[i]
    modifies a
    ensures forall s :: 0 <= s < |r.v| ==> LeavesBelow(Keys(a[..n]), r, d, s)
    ensures forall i, j :: 0 <= i <= j < n ==> Keys(a[..n])[j] <= Keys(a[..n])[i]
    ensures SameSymbols(old(a[..]), a[..]) && a[n..] == old(a[n..])
  {
    FirstLevel(Keys(a[..n]), r, par, d);
    ghost var lo: nat, hi: nat := n - 1, n;
    var avbl, used, dpth, root, next := 1, 0, 0, n - 2, n - 1;
    assert BetweenLevels(Keys(a[..n]), r, d, dpth, lo, hi, next, avbl);
    hide *;
    while avbl > 0
      invariant root == lo - 1 && BetweenLevels(Keys(a[..n]), r, d, dpth, lo, hi, next, avbl)
      invariant SameSymbols(old(a[..]), a[..]) && a[n..] == old(a[n..])
      decreases lo + hi
    {
      ghost var k, s := Keys(a[..n]), a[..];
      LevelReady(k, r, d, dpth, lo, hi, next, avbl);
      ghost var f, next0 := LevelStart(r, dpth, lo), next;
      used, root, next := ScanLevel(a, n, dpth, avbl, root, next, f);
      LevelFilled(k, Keys(a[..n]), r, d, dpth, lo, hi, next0, avbl, next);
      SymbolsTransitive(old(a[..]), s, a[..]);
      lo, hi := f, lo;
      avbl := 2 * used;
      dpth := dpth + 1;
    }
    AllLevelsDone(Keys(a[..n]), r, d, dpth, lo, hi, next);
  }

  lemma {:induction false} AllLevelsDone(k: seq<nat>, r: Run, d: seq<nat>, depth: nat, lo: nat, hi: nat, next: int)
    requires r.Complete() && |d| == |r.v| && |k| == |r.w| && BetweenLevels(k, r, d, depth, lo, hi, next, 0)
    ensures forall s :: 0 <= s < |r.v| ==> LeavesBelow(k, r, d, s)
    ensures forall i, j :: 0 <= i <= j < |k| ==> k[j] <= k[i]
  {
    assert r.Leaf(hi) == 2 * hi - lo;
    assert hi == 0;
  }

  lemma {:induction false} ParentsGiveDepths(r: Run, par: seq<nat>, d: seq<nat>)
    requires r.Complete() && |d| == |r.v| && |par| == |d| - 1 && Parents(r, par) && DepthsFrom(par, d, 0)
    ensures NodesBelow(r, d)
  {
    assert r.Leaf(|r.v|) <= |r.w|;
    forall s, k | 0 <= s < |d| && r.first[s] <= k < r.first[s] + r.Taken(s)
      ensures d[k] == d[s] + 1
    {
      QueuesAdvance(r, s + 1, |r.v|);
      var p := par[k];
      if p < s {
        QueuesAdvance(r, p + 1, s);
      } else if s < p {
        QueuesAdvance(r, s + 1, p);
      }
    }
  }

  ghost predicate NonIncreasing(l: seq<nat>) {
    forall i, j :: 0 <= i <= j < |l| ==> l[j] <= l[i]
  }

  /** What the calculation promises for weights w: complete, cheapest code lengths, shortest for the
      heaviest; they are those of the merge, and the longest one needs its least total. */
  ghost predicate OptimalLengths(w: seq<nat>, l: seq<nat>) {
    && |l| == |w| >= 2 && NonIncreasing(l)
    && AtMost(l, |w| - 1) && Kraft(l, |w| - 1) == Pow2(|w| - 1)
    && Cheapest(w, l) && MergeLengths(w, l) && LeastTotal(l[0]) <= Sum(w)
  }

  lemma {:induction false} DepthsAreOptimal(r: Run, par: seq<nat>, d: seq<nat>, l: seq<nat>)
    requires r.Complete() && r.LeavesFirst() && |d| == |r.v| && |l| == |r.w| && |par| == |d| - 1
    requires DepthsFrom(par, d, 0) && NodesBelow(r, d) && NonIncreasing(l) && AtLeast(r.w, 1)
    requires forall s :: 0 <= s < |r.v| ==> LeavesBelow(l, r, d, s)
    ensures OptimalLengths(r.w, l)
  {
    forall s | 0 <= s < |r.v|
      ensures r.DepthStep(d, l, s)
    {
      assert LeavesBelow(l, r, d, s);
    }
    GreedyIsOptimal(r, d, l);
    DepthNeedsWeight(r, d, l);
  }

  /**
   * Replaces the sorted frequencies in the keys of a[..n] by the lengths of a minimum-redundancy code.
   * A single symbol gets length 1.
   */
  method CalculateMinimumRedundancy(a: array<SymFreq>, n: nat)
    requires n <= a.Length
    requires Ascending(Keys(a[..n])) && AtLeast(Keys(a[..n]), 1) && Sum(Keys(a[..n])) < UINT32_RANGE
    modifies a
    ensures n == 1 ==> a[0].key == 1
    ensures n >= 2 ==> OptimalLengths(old(Keys(a[..n])), Keys(a[..n]))
    ensures SameSymbols(old(a[..]), a[..]) && a[n..] == old(a[n..])
  {
    if n == 0 {
      return;
    } else if n == 1 {
      a[0] := a[0].(key := 1);
      return;
    }
    ghost var r, par := MergeWeights(a, n);
    CompleteLayout(Keys(a[..n]), r, par);
    assert forall i :: 0 <= i < n ==> a[i].key == Keys(a[..n])[i];
    ghost var s1 := a[..];
    ghost var d := NodeDepthsFromParents(a, n, par);
    ParentsGiveDepths(r, par, d);
    ghost var s2 := a[..];
    LeafDepthsFromNodes(a, n, r, par, d);
    DepthsAreOptimal(r, par, d, Keys(a[..n]));
    SymbolsTransitive(old(a[..]), s1, s2);
    SymbolsTransitive(old(a[..]), s2, a[..]);
  }
}
