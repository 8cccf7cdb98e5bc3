/** How long the codes of the two-queue merge can get, exactly: how much weight a given depth needs. */
module HuffmanDepth {
  import opened CodeLengths
  import opened HuffmanMerge

  function Fib(n: nat): nat {
    if n < 2 then n else Fib(n - 1) + Fib(n - 2)
  }

  /** The least total weight of a code of depth d. */
  function LeastTotal(d: nat): (t: nat)
    ensures t > 0
  {
    if d < 2 then d + 1 else
      assert Fib(d + 1) > 0 by { FibPositive(d); }
      2 * Fib(d + 1) - 1
  }

  lemma {:induction false} FibPositive(n: nat)
    ensures Fib(n + 1) > 0
  {
    if n > 0 {
      FibPositive(n - 1);
    }
  }

  lemma {:induction false} FibMonotone(a: nat, b: nat)
    requires a <= b
    ensures Fib(a) <= Fib(b)
  {
    if a < b {
      FibMonotone(a, b - 1);
    }
  }

  lemma {:induction false} LeastTotalMonotone(a: nat, b: nat)
    requires a <= b
    ensures LeastTotal(a) <= LeastTotal(b)
  {
    assert Fib(3) == 2;
    if a < 2 <= b {
      FibMonotone(3, b + 1);
    } else if a >= 2 {
      FibMonotone(a + 1, b + 1);
    }
  }

  /** From depth 3 on, each least total is one more than the sum of the two before. */
  lemma {:induction false} NextLeastTotal(h: nat)
    requires h >= 3
    ensures LeastTotal(h + 1) == LeastTotal(h) + LeastTotal(h - 1) + 1
  {
    assert Fib(h + 2) == Fib(h + 1) + Fib(h);
  }

  lemma {:induction false} FewLeastTotals()
    ensures LeastTotal(0) == 1 && LeastTotal(1) == 2 && LeastTotal(2) == 3 && LeastTotal(3) == 5 && LeastTotal(4) == 9
  {
    assert Fib(3) == 2 && Fib(4) == 3 && Fib(5) == 5;
  }

  /** What a node at height h + 1 must weigh: more than the items below it, or much more than those below them. */
  lemma {:induction false} TotalAbove(h: nat, v: nat, x: nat, y: nat, z: nat)
    requires h >= 2 && LeastTotal(h) <= v && LeastTotal(h - 1) <= x && LeastTotal(h - 2) <= y && x + y <= v
    requires z >= x && (z == x ==> x == 2 * y)
    ensures LeastTotal(h + 1) <= v + z
  {
    FewLeastTotals();
    if h >= 3 {
      NextLeastTotal(h);
      if z == x {
        FiveTimes(h - 2);
      }
    }
  }

  lemma {:induction false} FiveTimes(k: nat)
    ensures LeastTotal(k + 3) <= 5 * LeastTotal(k)
  {
    FewLeastTotals();
    if k == 1 {
      assert LeastTotal(4) == 9;
    } else if k >= 2 {
      assert Fib(k + 4) == 3 * Fib(k + 1) + 2 * Fib(k) by {
        assert Fib(k + 4) == Fib(k + 3) + Fib(k + 2);
        assert Fib(k + 3) == Fib(k + 2) + Fib(k + 1);
        assert Fib(k + 2) == Fib(k + 1) + Fib(k);
      }
      assert Fib(k + 1) == Fib(k) + Fib(k - 1);
      FibPositive(k - 2);
    }
  }

  /**
   * Step k has taken node j, step p takes node k: if the other item of step p is as light as j, j is a pair of
   * equals.
   */
  lemma {:induction false} SiblingTie(r: Run, j: nat, k: nat, p: nat)
    requires r.Complete() && r.LeavesFirst() && j < k < p < |r.v|
    requires r.first[k] <= j < r.first[k] + r.Taken(k) && r.first[p] <= k < r.first[p] + r.Taken(p)
    requires r.v[p] == r.v[k] + r.v[j]
    ensures r.v[j] == 2 * r.A(j) == 2 * r.B(j)
  {
    QueuesAdvance(r, k + 1, p);
    assert r.GreedyStep(p) && r.LeavesFirstStep(k);
    var m := if k == r.first[p] then r.first[p] + 1 else r.first[p];
    assert r.Leaf(p + 1) <= |r.w|;
    if r.Taken(p) == 2 {
      assert r.first[p + 1] <= p;
      assert j < m < p && r.v[m] == r.v[j];
      LaterIsHeavier(r, j, m, r.A(j));
      LaterIsHeavier(r, j, m, r.B(j));
      assert r.GreedyStep(j) && r.GreedyStep(m);
    } else {
      assert false;
    }
  }

  /** Going up from node k, at height h above a leaf: j is the node below it, y an item below that. */
  lemma {:induction false} WeightGrows(r: Run, d: seq<nat>, l: seq<nat>, j: nat, k: nat, h: nat, y: nat)
    requires r.Complete() && r.LeavesFirst() && r.Depths(d, l) && j < k < |r.v| && h >= 2
    requires r.first[k] <= j < r.first[k] + r.Taken(k) && (y == r.A(j) || y == r.B(j))
    requires LeastTotal(h) <= r.v[k] && LeastTotal(h - 1) <= r.v[j] && LeastTotal(h - 2) <= y && r.v[j] + y <= r.v[k]
    ensures LeastTotal(h + d[k]) <= r.v[|r.v| - 1]
    decreases |r.v| - k
  {
    hide LeastTotal;
    if k + 1 < |r.v| {
      var p := FindParent(r, k);
      assert r.DepthStep(d, l, p) && r.GreedyStep(p) && r.GreedyStep(k);
      var x := r.v[j];
      assert x == r.A(k) || x == r.B(k);
      LaterIsHeavier(r, k, p, x);
      assert r.v[k] == r.A(p) || r.v[k] == r.B(p);
      var z := r.v[p] - r.v[k];
      if z == x {
        SiblingTie(r, j, k, p);
      }
      TotalAbove(h, r.v[k], x, y, z);
      WeightGrows(r, d, l, k, p, h + 1, x);
      assert h + 1 + d[p] == h + d[k];
    }
  }

  /** A code of depth n needs a total weight of at least LeastTotal(n). */
  lemma {:induction false} DepthNeedsWeight(r: Run, d: seq<nat>, l: seq<nat>)
    requires r.Complete() && r.LeavesFirst() && r.Depths(d, l) && AtLeast(r.w, 1)
    ensures LeastTotal(l[0]) <= Sum(r.w)
  {
    assert r.Taken(0) == 0 && r.Leaf(0) == 0 && r.Leaf(1) == 2;
    assert r.GreedyStep(0) && r.DepthStep(d, l, 0);
    FewLeastTotals();
    if |r.v| > 1 {
      var p := FindParent(r, 0);
      assert r.DepthStep(d, l, p) && r.GreedyStep(p);
      LaterIsHeavier(r, 0, p, r.w[0]);
      WeightGrows(r, d, l, 0, p, 2, r.w[0]);
      assert 2 + d[p] == l[0];
    }
    WeightConserved(r, |r.v|);
    assert r.Leaf(|r.v|) == |r.w|;
    assert r.Nodes(|r.v|) == [r.v[|r.v| - 1]];
  }

  // The bound is met: for every depth there are weights that need no more.

  /** One more leaf, heavier than all that has been merged but the root, is merged with the root. */
  ghost function WithLeaf(r: Run, x: nat): (r': Run)
    requires r.Complete()
  {
    Run(r.w + [x], r.v + [r.v[|r.v| - 1] + x], r.first + [|r.v|])
  }

  lemma {:induction false} WithLeafShape(r: Run, x: nat)
    requires r.Complete()
    ensures var r' := WithLeaf(r, x);
      && r'.Shape() && r.first[|r.v|] + 1 == |r.v|
      && (forall s :: 0 <= s <= |r.v| ==> r'.Leaf(s) == r.Leaf(s))
      && (forall s :: 0 <= s < |r.v| ==> r'.Taken(s) == r.Taken(s) && r'.A(s) == r.A(s) && r'.B(s) == r.B(s))
      && r'.Taken(|r.v|) == 1 && r'.Leaf(|r.v|) == |r.w| && r'.A(|r.v|) == r.v[|r.v| - 1] && r'.B(|r.v|) == x
  {
    var n, r' := |r.v|, WithLeaf(r, x);
    assert r.Leaf(n) == 2 * n - r.first[n];
    assert r.StepShape(n - 1);
    forall s | 0 <= s < n + 1
      ensures r'.StepShape(s)
    {
      assert s < n ==> r.StepShape(s);
    }
    forall s | 0 <= s < n
      ensures r'.Taken(s) == r.Taken(s) && r'.Leaf(s) == r.Leaf(s) && r'.A(s) == r.A(s) && r'.B(s) == r.B(s)
    {
      assert r.Taken(s) <= 2 && r.first[s] + r.Taken(s) <= s && r.Leaf(s + 1) <= |r.w|;
    }
  }

  lemma {:induction false} WithLeafComplete(r: Run, x: nat)
    requires r.Complete() && r.LeavesFirst() && Ascending(r.w + [x])
    requires forall k :: 0 <= k < |r.v| - 1 ==> r.v[k] < x
    ensures WithLeaf(r, x).Complete() && WithLeaf(r, x).LeavesFirst()
  {
    var n, r' := |r.v|, WithLeaf(r, x);
    WithLeafShape(r, x);
    forall s | 0 <= s < n + 1
      ensures r'.GreedyStep(s)
    {
      if s < n {
        ItemsBelowLeaf(r, x, s);
      }
    }
    forall s | 0 <= s < n + 1
      ensures r'.LeavesFirstStep(s)
    {
      if s < n {
        assert r.LeavesFirstStep(s);
        assert r.StepShape(s);
      }
    }
  }

  lemma {:induction false} ItemsBelowLeaf(r: Run, x: nat, s: nat)
    requires r.Complete() && Ascending(r.w + [x]) && s < |r.v| && WithLeaf(r, x).Shape()
    requires forall k :: 0 <= k < |r.v| - 1 ==> r.v[k] < x
    requires var r' := WithLeaf(r, x);
      r'.Taken(s) == r.Taken(s) && r'.Leaf(s + 1) == r.Leaf(s + 1) && r'.A(s) == r.A(s) && r'.B(s) == r.B(s)
    ensures WithLeaf(r, x).GreedyStep(s)
  {
    assert r.GreedyStep(s) && r.StepShape(s) && r.Leaf(s + 1) <= |r.w|;
    assert forall i :: 0 <= i < |r.w| ==> (r.w + [x])[i] <= (r.w + [x])[|r.w|];
    assert r.A(s) <= x && r.B(s) <= x;
  }

  /** All leaves move down by one level, the new one is right below the root. */
  lemma {:induction false} WithLeafDepths(r: Run, x: nat, d: seq<nat>, l: seq<nat>) returns (d': seq<nat>, l': seq<nat>)
    requires r.Complete() && r.Depths(d, l) && WithLeaf(r, x).Complete()
    ensures WithLeaf(r, x).Depths(d', l') && l'[0] == l[0] + 1
  {
    var n, r' := |r.v|, WithLeaf(r, x);
    WithLeafShape(r, x);
    d' := seq(n + 1, k requires 0 <= k < n + 1 => if k < n then d[k] + 1 else 0);
    l' := seq(n + 2, i requires 0 <= i < n + 2 => if i < n + 1 then l[i] + 1 else 1);
    forall s | 0 <= s < n + 1
      ensures r'.DepthStep(d', l', s)
    {
      if s < n {
        assert r.DepthStep(d, l, s) && r.StepShape(s) && r.Leaf(s + 1) <= |r.w|;
      }
    }
  }

  /** A complete run of depth n whose root weighs v, next to the heaviest other node u. */
  ghost predicate Tower(r: Run, d: seq<nat>, l: seq<nat>, n: nat, v: nat, u: nat) {
    && r.Complete() && r.LeavesFirst() && r.Depths(d, l) && l[0] == n && |r.w| == n + 5
    && Ascending(r.w) && r.w[0] == 1 && r.w[|r.w| - 1] <= u && Sum(r.w) == v
    && r.v[|r.v| - 1] == v && forall k :: 0 <= k < |r.v| - 1 ==> r.v[k] <= u
  }

  /** The merge of nine equal weights. */
  function NineOnes(): Run {
    Run([1, 1, 1, 1, 1, 1, 1, 1, 1], [2, 2, 2, 2, 3, 4, 5, 9], [0, 0, 0, 0, 0, 1, 3, 5, 7])
  }

  lemma {:induction false} NineOnesSteps()
    ensures NineOnes().Shape()
    ensures forall s :: 0 <= s < 8 ==> NineOnes().Taken(s) == (if s < 4 then 0 else if s == 4 then 1 else 2)
    ensures forall s :: 0 <= s <= 8 ==> NineOnes().Leaf(s) == if s <= 4 then 2 * s else 9
  {
  }

  lemma {:induction false} NineOnesItems(s: nat)
    requires s < 8
    ensures NineOnes().Shape()
    ensures NineOnes().A(s) == (if s < 4 then 1 else if s < 6 then 2 else if s == 6 then 2 else 4)
    ensures NineOnes().B(s) == (if s <= 4 then 1 else if s == 5 then 2 else if s == 6 then 3 else 5)
  {
    NineOnesSteps();
  }

  lemma {:induction false} NineOnesStep(s: nat)
    requires s < 8
    ensures NineOnes().Shape() && NineOnes().GreedyStep(s)
  {
    NineOnesSteps();
    NineOnesItems(s);
    hide Run.A, Run.B, Run.Leaf, Run.Taken;
  }

  lemma {:induction false} NineOnesTies(s: nat)
    requires s < 8
    ensures NineOnes().Shape() && NineOnes().LeavesFirstStep(s)
  {
    NineOnesSteps();
    hide Run.Leaf, Run.Taken;
  }

  lemma {:induction false} NineOnesDepths(d: seq<nat>, l: seq<nat>)
    requires NineOnes().Complete() && d == [3, 2, 2, 2, 2, 1, 1, 0] && l == [4, 4, 3, 3, 3, 3, 3, 3, 3]
    ensures NineOnes().Depths(d, l)
  {
    NineOnesSteps();
    hide Run.Leaf, Run.Taken;
  }

  lemma {:induction false} SumOfOnes(w: seq<nat>)
    requires forall i :: 0 <= i < |w| ==> w[i] == 1
    ensures Sum(w) == |w|
  {
    if w != [] {
      SumOfOnes(w[1..]);
    }
  }

  lemma {:induction false} FirstTower() returns (r: Run, d: seq<nat>, l: seq<nat>)
    ensures Tower(r, d, l, 4, 9, 5)
  {
    r := NineOnes();
    d, l := [3, 2, 2, 2, 2, 1, 1, 0], [4, 4, 3, 3, 3, 3, 3, 3, 3];
    NineOnesSteps();
    hide Run.GreedyStep, Run.LeavesFirstStep, Run.DepthStep, Run.Leaf, Run.Taken, Run.StepShape, Sum;
    forall s | 0 <= s < 8
      ensures r.GreedyStep(s) && r.LeavesFirstStep(s)
    {
      NineOnesStep(s);
      NineOnesTies(s);
    }
    NineOnesDepths(d, l);
    SumOfOnes(r.w);
  }

  /** A leaf heavier than u makes the tower higher. */
  lemma {:induction false} HigherTower(r: Run, d: seq<nat>, l: seq<nat>, n: nat, v: nat, u: nat, x: nat)
      returns (r': Run, d': seq<nat>, l': seq<nat>)
    requires Tower(r, d, l, n, v, u) && u < x && u <= v
    ensures Tower(r', d', l', n + 1, v + x, if x <= v then v else x)
  {
    hide Run.GreedyStep, Run.LeavesFirstStep, Run.DepthStep, Sum;
    r' := WithLeaf(r, x);
    WithLeafComplete(r, x);
    d', l' := WithLeafDepths(r, x, d, l);
    SumConcat(r.w, [x]);
    assert Sum([x]) == x by { SumOfOne(x); }
  }

  lemma {:induction false} SumOfOne(x: nat)
    ensures Sum([x]) == x
  {
  }

  lemma {:induction false} LeastTower(n: nat) returns (r: Run, d: seq<nat>, l: seq<nat>)
    requires n >= 4
    ensures Tower(r, d, l, n, LeastTotal(n), LeastTotal(n - 1))
  {
    hide Tower;
    FewLeastTotals();
    if n == 4 {
      r, d, l := FirstTower();
    } else {
      NextLeastTotal(n - 1);
      NextLeastTotal(n - 2);
      r, d, l := LeastTower(n - 1);
      r, d, l := HigherTower(r, d, l, n - 1, LeastTotal(n - 1), LeastTotal(n - 2), LeastTotal(n - 2) + 1);
    }
  }

  // The lengths of a code depend on the weights only.

  /** l holds the lengths that the merge gives to leaves of weights w. */
  ghost predicate MergeLengths(w: seq<nat>, l: seq<nat>) {
    exists r: Run, d: seq<nat> :: r.w == w && r.Complete() && r.LeavesFirst() && r.Depths(d, l)
  }

  lemma {:induction false} LeafTaken(r: Run, s: nat, k: nat, i: nat)
    requires r.Complete() && s < |r.v| && r.first[s] + r.Taken(s) <= k < s && r.Leaf(s) <= i < r.Leaf(s + 1)
    ensures r.w[i] <= r.v[k]
  {
    assert r.GreedyStep(s);
  }

  lemma {:induction false} NodeTaken(r: Run, s: nat, k: nat, i: nat)
    requires r.LeavesFirst() && s < |r.v| && r.first[s] <= k < r.first[s] + r.Taken(s) && r.Leaf(s + 1) <= i < |r.w|
    ensures k < s && r.v[k] < r.w[i]
  {
    assert r.LeavesFirstStep(s) && r.StepShape(s);
  }

  /** Where two runs have made the same nodes, neither takes fewer nodes than the other. */
  lemma {:induction false} NotFewerNodes(r: Run, r': Run, s: nat)
    requires r.Complete() && r.LeavesFirst() && r'.Complete() && r'.LeavesFirst() && r.w == r'.w && s < |r.v|
    requires r.v[..s] == r'.v[..s] && r.first[s] == r'.first[s]
    ensures r'.Taken(s) <= r.Taken(s)
  {
    if r.Taken(s) < r'.Taken(s) {
      var k, i := r.first[s] + r.Taken(s), r.Leaf(s) + 1 - r.Taken(s);
      assert r'.StepShape(s) && r.Leaf(s + 1) <= |r.w|;
      assert r'.v[k] == r'.v[..s][k] == r.v[k];
      NodeTaken(r', s, k, i);
      LeafTaken(r, s, k, i);
      assert false;
    }
  }

  lemma {:induction false} SameRun(r: Run, r': Run, s: nat)
    requires r.Complete() && r.LeavesFirst() && r'.Complete() && r'.LeavesFirst() && r.w == r'.w && s <= |r.v|
    ensures r.v[..s] == r'.v[..s] && r.first[..s + 1] == r'.first[..s + 1]
  {
    if s > 0 {
      var t := s - 1;
      SameRun(r, r', t);
      assert r.first[t] == r.first[..t + 1][t] == r'.first[t];
      NotFewerNodes(r, r', t);
      NotFewerNodes(r', r, t);
      SameSum(r, r', t);
    }
  }

  lemma {:induction false} SameSum(r: Run, r': Run, s: nat)
    requires r.Complete() && r'.Complete() && r.w == r'.w && s < |r.v|
    requires r.v[..s] == r'.v[..s] && r.first[s] == r'.first[s] && r.Taken(s) == r'.Taken(s)
    ensures r.v[s] == r'.v[s] && r.first[s + 1] == r'.first[s + 1]
  {
    assert r.GreedyStep(s) && r'.GreedyStep(s) && r.StepShape(s);
    assert forall k :: 0 <= k < s ==> r.v[k] == r.v[..s][k] == r'.v[k];
  }

  lemma {:induction false} SameNodeDepth(r: Run, d: seq<nat>, l: seq<nat>, d': seq<nat>, l': seq<nat>, k: nat)
    requires r.Complete() && r.Depths(d, l) && r.Depths(d', l') && k < |r.v|
    ensures d[k] == d'[k]
    decreases |r.v| - k
  {
    if k + 1 < |r.v| {
      var p := FindParent(r, k);
      SameNodeDepth(r, d, l, d', l', p);
      assert r.DepthStep(d, l, p) && r.DepthStep(d', l', p);
    }
  }

  /** Whatever breaks ties within the rules of the merge, the lengths are the same. */
  lemma {:induction false} MergeLengthsUnique(w: seq<nat>, l: seq<nat>, l': seq<nat>)
    requires MergeLengths(w, l) && MergeLengths(w, l')
    ensures l == l'
  {
    var r: Run, d :| r.w == w && r.Complete() && r.LeavesFirst() && r.Depths(d, l);
    var r': Run, d' :| r'.w == w && r'.Complete() && r'.LeavesFirst() && r'.Depths(d', l');
    var n := |r.v|;
    SameRun(r, r', n);
    assert r.v == r.v[..n] == r'.v[..n] == r'.v && r.first == r.first[..n + 1] == r'.first[..n + 1] == r'.first;
    assert r == r';
    forall i | 0 <= i < |l|
      ensures l[i] == l'[i]
    {
      var p := FindLeafParent(r, i);
      SameNodeDepth(r, d, l, d', l', p);
      assert r.DepthStep(d, l, p) && r.DepthStep(d', l', p);
    }
  }

  // The exact condition.

  /** No more than size weights of total t get a code longer than m. */
  ghost predicate NeverLonger(t: nat, size: nat, m: nat) {
    forall w: seq<nat>, l: seq<nat> ::
      |w| <= size && Ascending(w) && AtLeast(w, 1) && Sum(w) == t && MergeLengths(w, l) ==> AtMost(l, m)
  }

  /** Lengths never exceed m exactly for totals below what depth m + 1 needs. */
  lemma {:induction false} NeverLongerIff(t: nat, size: nat, m: nat)
    requires 4 <= m && m + 6 <= size
    ensures NeverLonger(t, size, m) <==> t < LeastTotal(m + 1)
  {
    hide LeastTotal, MergeLengths, Sum;
    if t < LeastTotal(m + 1) {
      forall w: seq<nat>, l: seq<nat>
          | |w| <= size && Ascending(w) && AtLeast(w, 1) && Sum(w) == t && MergeLengths(w, l)
        ensures AtMost(l, m)
      {
        LengthsBounded(w, l, m);
      }
    } else {
      var w, l := LongCode(t, m + 1);
    }
  }

  lemma {:induction false} LengthsBounded(w: seq<nat>, l: seq<nat>, m: nat)
    requires Ascending(w) && AtLeast(w, 1) && MergeLengths(w, l) && Sum(w) < LeastTotal(m + 1)
    ensures AtMost(l, m)
  {
    hide LeastTotal, Sum;
    var r: Run, d :| r.w == w && r.Complete() && r.LeavesFirst() && r.Depths(d, l);
    DepthNeedsWeight(r, d, l);
    if l[0] > m {
      LeastTotalMonotone(m + 1, l[0]);
    }
    forall i | 0 <= i < |l|
      ensures l[i] <= l[0]
    {
      FirstIsLongest(r, d, l, i);
    }
  }

  /** The leaves merged first are the deepest. */
  lemma {:induction false} FirstIsLongest(r: Run, d: seq<nat>, l: seq<nat>, i: nat)
    requires r.Complete() && r.Depths(d, l) && i < |r.w|
    ensures l[i] <= l[0]
  {
    var p := FindLeafParent(r, i);
    assert r.Leaf(0) == 0 && r.Leaf(1) == 2;
    assert r.DepthStep(d, l, p) && r.DepthStep(d, l, 0);
    DepthsFall(r, d, l, 0, p);
  }

  lemma {:induction false} DepthsFall(r: Run, d: seq<nat>, l: seq<nat>, j: nat, k: nat)
    requires r.Complete() && r.Depths(d, l) && j <= k < |r.v|
    ensures d[k] <= d[j]
    decreases |r.v| - j
  {
    if j < k {
      var p := FindParent(r, j);
      assert r.DepthStep(d, l, p);
      if k + 1 < |r.v| {
        var q := FindParent(r, k);
        assert r.DepthStep(d, l, q);
        if q < p {
          QueuesAdvance(r, q + 1, p);
        }
        DepthsFall(r, d, l, p, q);
      }
    }
  }

  /** For every total that is not too small there are weights with a code of depth n. */
  lemma {:induction false} LongCode(t: nat, n: nat) returns (w: seq<nat>, l: seq<nat>)
    requires n >= 5 && LeastTotal(n) <= t
    ensures |w| == n + 5 && Ascending(w) && AtLeast(w, 1) && w[0] == 1 && Sum(w) == t
    ensures MergeLengths(w, l) && |l| > 0 && l[0] == n
  {
    hide LeastTotal, Sum;
    FewLeastTotals();
    NextLeastTotal(n - 1);
    LeastTotalMonotone(n - 2, n - 1);
    var r, d;
    r, d, l := LeastTower(n - 1);
    var x := t - LeastTotal(n - 1);
    r, d, l := HigherTower(r, d, l, n - 1, LeastTotal(n - 1), LeastTotal(n - 2), x);
    w := r.w;
  }
}
