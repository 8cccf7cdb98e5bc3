/** The two-queue Huffman merge and its optimality. */
module HuffmanMerge {
  import opened Powers
  import opened CodeLengths

  lemma {:induction false} MaxIndex(l: seq<nat>) returns (i: nat)
    requires l != []
    ensures i < |l| && AtMost(l, l[i])
  {
    i := 0;
    for j := 1 to |l|
      invariant i < j
      invariant forall k :: 0 <= k < j ==> l[k] <= l[i]
    {
      if l[j] > l[i] { i := j; }
    }
  }

  /** A smallest weight can be given a longest length without raising the cost. */
  lemma {:induction false} SwapInLongest(x: nat, lx: nat, q: seq<nat>, lq: seq<nat>, m: nat)
    returns (lx': nat, lq': seq<nat>)
    requires |q| == |lq| && lx <= m && AtMost(lq, m)
    requires AtLeast(q, x)
    ensures |lq'| == |lq| && lx' <= m && AtMost(lq', m) && AtMost(lq', lx')
    ensures lx' == lx || lx' in lq
    ensures forall k :: 0 <= k < |lq| ==> lq'[k] == lq[k] || lq'[k] == lx < lx'
    ensures Pow2(m - lx') + Kraft(lq', m) == Pow2(m - lx) + Kraft(lq, m)
    ensures Times(x, lx') + Cost(q, lq') <= Times(x, lx) + Cost(q, lq)
  {
    lx', lq' := lx, lq;
    if lq != [] {
      var i := MaxIndex(lq);
      if lq[i] > lx {
        lx', lq' := lq[i], lq[i := lx];
        ReplaceOne(q, lq, i, lx, m);
        Rearrange(x, q[i], lx, lq[i]);
      }
    }
  }

  lemma {:induction false} NextMultiple(g: nat, k: nat, n: nat, e: nat)
    requires g > 0 && e > 0 && e + g + g * k <= g * n
    ensures g + g + g * k <= g * n
  {
    Distribute(g, k, 1);
    Distribute(g, k, 2);
    if k + 1 >= n {
      ScaleMonotone(g, n, k + 1);
    } else {
      ScaleMonotone(g, k + 2, n);
    }
  }

  lemma {:induction false} ScaleMonotone(x: nat, a: nat, b: nat)
    requires a <= b
    ensures x * a <= x * b
  {
  }

  /** If one length exceeds all others, the code space has room to shorten it to the next one. */
  lemma {:induction false} ShortenLongest(a: nat, b: nat, lq: seq<nat>, m: nat)
    requires b < a <= m && AtMost(lq, b) && AtMost(lq, m)
    requires Pow2(m - a) + Pow2(m - b) + Kraft(lq, m) <= Pow2(m)
    ensures Pow2(m - b) + Pow2(m - b) + Kraft(lq, m) <= Pow2(m)
  {
    KraftRescale(lq, b, m);
    Pow2Add(m - b, b);
    NextMultiple(Pow2(m - b), Kraft(lq, b), Pow2(b), Pow2(m - a));
  }

  /** The exchange step: the two smallest weights of a forest can be made siblings of
      length d + 1 without raising the cost or overfilling the code space. */
  lemma {:induction false} MakeSiblings(x: nat, y: nat, lx: nat, ly: nat, q: seq<nat>, lq: seq<nat>, m: nat)
    returns (d: nat, lq': seq<nat>)
    requires |q| == |lq| && lx <= m && ly <= m && AtMost(lq, m)
    requires AtLeast(q, x) && AtLeast(q, y)
    requires Pow2(m - lx) + Pow2(m - ly) + Kraft(lq, m) <= Pow2(m)
    ensures |lq'| == |lq| && d <= m && AtMost(lq', m)
    ensures Pow2(m - d) + Kraft(lq', m) <= Pow2(m)
    ensures x + y + Times(x + y, d) + Cost(q, lq') <= Times(x, lx) + Times(y, ly) + Cost(q, lq)
  {
    var a, l1 := SwapInLongest(x, lx, q, lq, m);
    var b, l2 := SwapInLongest(y, ly, q, l1, m);
    lq' := l2;
    assert AtMost(l2, a);
    d := EqualizeSiblings(x, y, a, b, l2, m);
  }

  lemma {:induction false} EqualizeSiblings(x: nat, y: nat, a: nat, b: nat, lq: seq<nat>, m: nat) returns (d: nat)
    requires a <= m && b <= m && AtMost(lq, m) && AtMost(lq, a) && AtMost(lq, b)
    requires Pow2(m - a) + Pow2(m - b) + Kraft(lq, m) <= Pow2(m)
    ensures d <= m && Pow2(m - d) + Kraft(lq, m) <= Pow2(m)
    ensures x + y + Times(x + y, d) <= Times(x, a) + Times(y, b)
  {
    var c := if a <= b then a else b;
    if c < a { ShortenLongest(a, c, lq, m); }
    if c < b { ShortenLongest(b, c, lq, m); }
    d := c - 1;
    assert Pow2(m - d) == 2 * Pow2(m - c);
    TimesMonotone(x, c, a);
    TimesMonotone(y, c, b);
    TimesAdd(x, y, d);
  }

  // A forest is held as two queues: merged nodes vs and leaves ws. A step takes k items from the front
  // of vs and 2 - k from the front of ws, and appends their sum to vs.

  ghost function PickA(vs: seq<nat>, ws: seq<nat>, k: nat): nat
    requires k <= 2 && k <= |vs| && 2 - k <= |ws|
  {
    if k == 0 then ws[0] else vs[0]
  }

  ghost function PickB(vs: seq<nat>, ws: seq<nat>, k: nat): nat
    requires k <= 2 && k <= |vs| && 2 - k <= |ws|
  {
    if k == 0 then ws[1] else if k == 1 then ws[0] else vs[1]
  }

  ghost predicate Lightest(vs: seq<nat>, ws: seq<nat>, k: nat)
    requires k <= 2 && k <= |vs| && 2 - k <= |ws|
  {
    && AtLeast(vs[k..], PickA(vs, ws, k)) && AtLeast(vs[k..], PickB(vs, ws, k))
    && AtLeast(ws[2 - k..], PickA(vs, ws, k)) && AtLeast(ws[2 - k..], PickB(vs, ws, k))
  }

  lemma {:induction false} TakeTwo(w: seq<nat>, l: seq<nat>, m: nat)
    requires |w| == |l| >= 2 && AtMost(l, m)
    ensures Kraft(l, m) == Pow2(m - l[0]) + Pow2(m - l[1]) + Kraft(l[2..], m)
    ensures Cost(w, l) == Times(w[0], l[0]) + Times(w[1], l[1]) + Cost(w[2..], l[2..])
  {
    assert l[1..][1..] == l[2..] && w[1..][1..] == w[2..];
  }

  /** Taking the two items out of the forest splits their share off Kraft sum and cost. */
  lemma {:induction false} Consume(vs: seq<nat>, ws: seq<nat>, li: seq<nat>, ll: seq<nat>, k: nat, m: nat)
    returns (lx: nat, ly: nat)
    requires k <= 2 && k <= |vs| && 2 - k <= |ws|
    requires |li| == |vs| && |ll| == |ws| && AtMost(li, m) && AtMost(ll, m)
    ensures lx == PickA(li, ll, k) <= m && ly == PickB(li, ll, k) <= m
    ensures Pow2(m - lx) + Pow2(m - ly) + Kraft(li[k..], m) + Kraft(ll[2 - k..], m) == Kraft(li, m) + Kraft(ll, m)
    ensures Times(PickA(vs, ws, k), lx) + Times(PickB(vs, ws, k), ly) +
      Cost(vs[k..], li[k..]) + Cost(ws[2 - k..], ll[2 - k..])
         == Cost(vs, li) + Cost(ws, ll)
  {
    lx, ly := PickA(li, ll, k), PickB(li, ll, k);
    if k == 0 {
      TakeTwo(ws, ll, m);
    } else if k == 2 {
      TakeTwo(vs, li, m);
    }
  }

  lemma {:induction false} AppendNode(q: seq<nat>, lq: seq<nat>, x: nat, d: nat, m: nat)
    requires |q| == |lq| && AtMost(lq, m) && d <= m
    ensures AtMost(lq + [d], m)
    ensures Kraft(lq + [d], m) == Kraft(lq, m) + Pow2(m - d)
    ensures Cost(q + [x], lq + [d]) == Cost(q, lq) + Times(x, d)
  {
    KraftConcat(lq, [d], m);
    CostConcat(q, lq, [x], [d]);
    assert Kraft([d], m) == Pow2(m - d) + Kraft([], m);
    assert Cost([x], [d]) == Times(x, d) + Cost([], []);
  }

  lemma {:induction false} Regroup(qi: seq<nat>, ql: seq<nat>, x: nat, d: nat, lq: seq<nat>, m: nat)
    returns (li: seq<nat>, ll: seq<nat>)
    requires |lq| == |qi| + |ql| && AtMost(lq, m) && d <= m
    ensures |li| == |qi| + 1 && |ll| == |ql| && AtMost(li, m) && AtMost(ll, m)
    ensures Kraft(li, m) + Kraft(ll, m) == Pow2(m - d) + Kraft(lq, m)
    ensures Cost(qi + [x], li) + Cost(ql, ll) == Times(x, d) + Cost(qi + ql, lq)
  {
    var l1 := lq[..|qi|];
    li, ll := l1 + [d], lq[|qi|..];
    assert lq == l1 + ll;
    KraftConcat(l1, ll, m);
    CostConcat(qi, l1, ql, ll);
    AppendNode(qi, l1, x, d, m);
  }

  /** One step of the exchange argument: lengths for a forest yield lengths for the forest after the
      merge that cost less by at least the weight of the merged node. */
  lemma {:induction false} Exchange(vs: seq<nat>, ws: seq<nat>, li: seq<nat>, ll: seq<nat>, k: nat, m: nat)
    returns (li': seq<nat>, ll': seq<nat>)
    requires k <= 2 && k <= |vs| && 2 - k <= |ws| && Lightest(vs, ws, k)
    requires |li| == |vs| && |ll| == |ws| && AtMost(li, m) && AtMost(ll, m)
    requires Kraft(li, m) + Kraft(ll, m) <= Pow2(m)
    ensures |li'| == |vs| - k + 1 && |ll'| == |ws| - (2 - k) && AtMost(li', m) && AtMost(ll', m)
    ensures Kraft(li', m) + Kraft(ll', m) <= Pow2(m)
    ensures var x := PickA(vs, ws, k) + PickB(vs, ws, k);
      x + Cost(vs[k..] + [x], li') + Cost(ws[2 - k..], ll') <= Cost(vs, li) + Cost(ws, ll)
  {
    var lx, ly := Consume(vs, ws, li, ll, k, m);
    li', ll' := ExchangeRest(PickA(vs, ws, k), PickB(vs, ws, k), lx, ly, vs[k..], ws[2 - k..], li[k..], ll[2 - k..], m);
  }

  lemma {:induction false} ExchangeRest(x: nat, y: nat, lx: nat, ly: nat, qi: seq<nat>, ql: seq<nat>, li: seq<nat>,
          ll: seq<nat>, m: nat)
    returns (li': seq<nat>, ll': seq<nat>)
    requires |li| == |qi| && |ll| == |ql| && lx <= m && ly <= m && AtMost(li, m) && AtMost(ll, m)
    requires AtLeast(qi, x) && AtLeast(qi, y) && AtLeast(ql, x) && AtLeast(ql, y)
    requires Pow2(m - lx) + Pow2(m - ly) + Kraft(li, m) + Kraft(ll, m) <= Pow2(m)
    ensures |li'| == |qi| + 1 && |ll'| == |ql| && AtMost(li', m) && AtMost(ll', m)
    ensures Kraft(li', m) + Kraft(ll', m) <= Pow2(m)
    ensures x + y + Cost(qi + [x + y], li') + Cost(ql, ll') <= Times(x, lx) + Times(y, ly) + Cost(qi, li) + Cost(ql, ll)
  {
    KraftConcat(li, ll, m);
    CostConcat(qi, li, ql, ll);
    var d, lq := MakeSiblings(x, y, lx, ly, qi + ql, li + ll, m);
    li', ll' := Regroup(qi, ql, x + y, d, lq, m);
  }

  /**
   * The history of the two-queue merge: leaf weights w, the weight v[s] of the node made in step s,
   * and first[s], the oldest node still unmerged when step s begins. Each step merges two items, so
   * 2 * s - first[s] leaves are gone by then.
   */
  datatype Run = Run(w: seq<nat>, v: seq<nat>, first: seq<nat>) {
    ghost predicate StepShape(s: nat)
      requires s < |v| < |first|
    {
      first[s] <= first[s + 1] <= first[s] + 2 && first[s + 1] <= s && 2 * (s + 1) <= |w| + first[s + 1]
    }

    ghost predicate Shape() {
      && |w| >= 2 && |v| < |w| && |first| == |v| + 1 && first[0] == 0
      && forall s :: 0 <= s < |v| ==> StepShape(s)
    }

    /** The first leaf still unmerged when step s begins. */
    ghost function Leaf(s: nat): (i: nat)
      requires Shape() && s <= |v|
      ensures i == 2 * s - first[s] && i <= |w| && first[s] <= s && (s > 0 ==> first[s] < s)
    {
      assert s > 0 ==> StepShape(s - 1);
      2 * s - first[s]
    }

    /** How many merged nodes (rather than leaves) step s takes. */
    ghost function Taken(s: nat): (k: nat)
      requires Shape() && s < |v|
      ensures k <= 2 && first[s + 1] == first[s] + k && Leaf(s + 1) == Leaf(s) + 2 - k
    {
      assert StepShape(s);
      first[s + 1] - first[s]
    }

    /** The two items merged in step s. */
    ghost function A(s: nat): nat
      requires Shape() && s < |v|
    {
      if Taken(s) == 0 then w[Leaf(s)] else v[first[s]]
    }

    ghost function B(s: nat): nat
      requires Shape() && s < |v|
    {
      if Taken(s) == 0 then w[Leaf(s) + 1] else if Taken(s) == 1 then w[Leaf(s)] else v[first[s] + 1]
    }

    /** Step s merged two items that no item left in the forest is lighter than. */
    ghost predicate GreedyStep(s: nat)
      requires Shape() && s < |v|
    {
      && v[s] == A(s) + B(s)
      && (forall j :: first[s] + Taken(s) <= j < s ==> A(s) <= v[j] && B(s) <= v[j])
      && (forall i :: Leaf(s + 1) <= i < |w| ==> A(s) <= w[i] && B(s) <= w[i])
    }

    /** The merged nodes and the leaves in the forest when step s begins. */
    ghost function Nodes(s: nat): (q: seq<nat>)
      requires Shape() && s <= |v|
      ensures |q| == s - first[s]
    {
      assert Leaf(s) >= 0;
      v[first[s]..s]
    }

    ghost function Leaves(s: nat): (q: seq<nat>)
      requires Shape() && s <= |v|
      ensures |q| == |w| - Leaf(s)
    {
      w[Leaf(s)..]
    }

    ghost predicate Greedy() {
      Shape() && forall s :: 0 <= s < |v| ==> GreedyStep(s)
    }

    ghost predicate Complete() {
      Greedy() && |v| == |w| - 1
    }

    /** A node is taken in step s only if it is lighter than every leaf left over: ties go to the leaves. */
    ghost predicate LeavesFirstStep(s: nat)
      requires Shape() && s < |v|
    {
      forall k, i :: first[s] <= k < first[s] + Taken(s) && Leaf(s + 1) <= i < |w| ==> v[k] < w[i]
    }

    ghost predicate LeavesFirst() {
      Shape() && forall s :: 0 <= s < |v| ==> LeavesFirstStep(s)
    }

    ghost function NodeDepths(d: seq<nat>, s: nat): (q: seq<nat>)
      requires Shape() && s <= |v| == |d|
      ensures |q| == s - first[s]
    {
      assert Leaf(s) >= 0;
      d[first[s]..s]
    }

    ghost function LeafDepths(l: seq<nat>, s: nat): (q: seq<nat>)
      requires Shape() && s <= |v| && |l| == |w|
      ensures |q| == |w| - Leaf(s)
    {
      l[Leaf(s)..]
    }

    /** The items merged in step s are one level below the node they form. */
    ghost predicate DepthStep(d: seq<nat>, l: seq<nat>, s: nat)
      requires Shape() && s < |v| == |d| && |l| == |w|
    {
      && (forall k :: first[s] <= k < first[s] + Taken(s) ==> d[k] == d[s] + 1)
      && (forall i :: Leaf(s) <= i < Leaf(s + 1) ==> l[i] == d[s] + 1)
    }

    /** d and l hold the depth of every merged node and of every leaf. */
    ghost predicate Depths(d: seq<nat>, l: seq<nat>)
      requires Complete()
    {
      && |d| == |v| && |l| == |w| && d[|v| - 1] == 0
      && forall s :: 0 <= s < |v| ==> DepthStep(d, l, s)
    }
  }

  lemma {:induction false} ShiftWindow<T>(q: seq<T>, a: nat, b: nat, k: nat)
    requires a + k <= b < |q|
    ensures q[a + k..b + 1] == q[a..b][k..] + [q[b]]
  {
  }

  lemma {:induction false} DropTwice<T>(q: seq<T>, a: nat, b: nat)
    requires a + b <= |q|
    ensures q[a + b..] == q[a..][b..]
  {
  }

  lemma {:induction false} NextForest(r: Run, s: nat)
    requires r.Greedy() && s < |r.v|
    ensures var k, vs, ws := r.Taken(s), r.Nodes(s), r.Leaves(s);
      && k <= |vs| && 2 - k <= |ws| && Lightest(vs, ws, k)
      && PickA(vs, ws, k) == r.A(s) && PickB(vs, ws, k) == r.B(s) && r.v[s] == r.A(s) + r.B(s)
      && r.Nodes(s + 1) == vs[k..] + [r.v[s]] && r.Leaves(s + 1) == ws[2 - k..]
  {
    assert r.GreedyStep(s);
    assert r.Leaf(s + 1) <= |r.w| && r.first[s + 1] <= s;
    ShiftWindow(r.v, r.first[s], s, r.Taken(s));
    DropTwice(r.w, r.Leaf(s), 2 - r.Taken(s));
  }

  lemma {:induction false} ExchangeAt(r: Run, s: nat, li: seq<nat>, ll: seq<nat>, m: nat)
    returns (li': seq<nat>, ll': seq<nat>)
    requires r.Greedy() && s < |r.v|
    requires |li| == |r.Nodes(s)| && |ll| == |r.Leaves(s)| && AtMost(li, m) && AtMost(ll, m)
    requires Kraft(li, m) + Kraft(ll, m) <= Pow2(m)
    ensures |li'| == |r.Nodes(s + 1)| && |ll'| == |r.Leaves(s + 1)| && AtMost(li', m) && AtMost(ll', m)
    ensures Kraft(li', m) + Kraft(ll', m) <= Pow2(m)
    ensures r.v[s] + Cost(r.Nodes(s + 1), li') + Cost(r.Leaves(s + 1), ll') <=
      Cost(r.Nodes(s), li) + Cost(r.Leaves(s), ll)
  {
    hide Cost; hide Kraft;
    NextForest(r, s);
    li', ll' := Exchange(r.Nodes(s), r.Leaves(s), li, ll, r.Taken(s), m);
  }

  /** No assignment of lengths to the forest before step s costs less than the merges still to come. */
  lemma {:induction false} LowerBound(r: Run, s: nat, li: seq<nat>, ll: seq<nat>, m: nat)
    requires r.Greedy() && s <= |r.v|
    requires |li| == |r.Nodes(s)| && |ll| == |r.Leaves(s)| && AtMost(li, m) && AtMost(ll, m)
    requires Kraft(li, m) + Kraft(ll, m) <= Pow2(m)
    ensures Sum(r.v[s..]) <= Cost(r.Nodes(s), li) + Cost(r.Leaves(s), ll)
    decreases |r.v| - s
  {
    if s < |r.v| {
      var li', ll' := ExchangeAt(r, s, li, ll, m);
      LowerBound(r, s + 1, li', ll', m);
      assert r.v[s..][1..] == r.v[s + 1..];
    }
  }

  /** Giving both merged items one bit more than the merged node leaves the Kraft sum as it is and adds
      the weight of the merged node to the cost. */
  lemma {:induction false} SplitNode(vs: seq<nat>, ws: seq<nat>, li: seq<nat>, ll: seq<nat>, k: nat, d: nat, m: nat)
    requires k <= 2 && k <= |vs| && 2 - k <= |ws|
    requires |li| == |vs| && |ll| == |ws| && AtMost(li, m) && AtMost(ll, m) && d < m
    requires PickA(li, ll, k) == d + 1 && PickB(li, ll, k) == d + 1
    ensures AtMost(li[k..] + [d], m)
    ensures Kraft(li[k..] + [d], m) + Kraft(ll[2 - k..], m) == Kraft(li, m) + Kraft(ll, m)
    ensures var x := PickA(vs, ws, k) + PickB(vs, ws, k);
      x + Cost(vs[k..] + [x], li[k..] + [d]) + Cost(ws[2 - k..], ll[2 - k..]) == Cost(vs, li) + Cost(ws, ll)
  {
    var lx, ly := Consume(vs, ws, li, ll, k, m);
    ReplaceByNode(vs[k..], li[k..], PickA(vs, ws, k), PickB(vs, ws, k), lx, ly, d, m);
  }

  lemma {:induction false} ReplaceByNode(q: seq<nat>, lq: seq<nat>, x: nat, y: nat, lx: nat, ly: nat, d: nat, m: nat)
    requires |q| == |lq| && AtMost(lq, m) && d < m && lx == d + 1 && ly == d + 1
    ensures AtMost(lq + [d], m)
    ensures Kraft(lq + [d], m) == Kraft(lq, m) + Pow2(m - lx) + Pow2(m - ly)
    ensures x + y + Cost(q + [x + y], lq + [d]) == Times(x, lx) + Times(y, ly) + Cost(q, lq)
  {
    AppendNode(q, lq, x + y, d, m);
    TimesAdd(x, y, d);
    assert m - d == (m - lx) + 1;
  }

  lemma {:induction false} NextDepths(r: Run, s: nat, d: seq<nat>, l: seq<nat>, m: nat)
    requires r.Complete() && r.Depths(d, l) && s < |r.v| && AtMost(d, m) && AtMost(l, m)
    ensures var k, li, ll := r.Taken(s), r.NodeDepths(d, s), r.LeafDepths(l, s);
      && k <= |li| && 2 - k <= |ll| && d[s] < m
      && PickA(li, ll, k) == d[s] + 1 && PickB(li, ll, k) == d[s] + 1
      && r.NodeDepths(d, s + 1) == li[k..] + [d[s]]
      && r.LeafDepths(l, s + 1) == ll[2 - k..]
  {
    NextForest(r, s);
    ShiftWindow(d, r.first[s], s, r.Taken(s));
    DropTwice(l, r.Leaf(s), 2 - r.Taken(s));
    var k, f, e := r.Taken(s), r.first[s], r.Leaf(s);
    assert r.DepthStep(d, l, s);
    assert k > 0 ==> d[f] == d[s] + 1;
    assert k == 2 ==> d[f + 1] == d[s] + 1;
    assert k < 2 ==> l[e] == d[s] + 1;
    assert k == 0 ==> l[e + 1] == d[s] + 1;
  }

  lemma {:induction false} SplitAt(r: Run, s: nat, d: seq<nat>, l: seq<nat>, m: nat)
    requires r.Complete() && r.Depths(d, l) && s < |r.v| && AtMost(d, m) && AtMost(l, m)
    ensures Kraft(r.NodeDepths(d, s + 1), m) + Kraft(r.LeafDepths(l, s + 1), m) ==
      Kraft(r.NodeDepths(d, s), m) + Kraft(r.LeafDepths(l, s), m)
    ensures r.v[s] + Cost(r.Nodes(s + 1), r.NodeDepths(d, s + 1)) + Cost(r.Leaves(s + 1), r.LeafDepths(l, s + 1))
         == Cost(r.Nodes(s), r.NodeDepths(d, s)) + Cost(r.Leaves(s), r.LeafDepths(l, s))
  {
    hide Cost; hide Kraft;
    NextForest(r, s);
    NextDepths(r, s, d, l, m);
    SplitNode(r.Nodes(s), r.Leaves(s), r.NodeDepths(d, s), r.LeafDepths(l, s), r.Taken(s), d[s], m);
  }

  lemma {:induction false} RootAlone(r: Run, d: seq<nat>, l: seq<nat>, m: nat)
    requires r.Complete() && r.Depths(d, l) && AtMost(d, m) && AtMost(l, m)
    ensures var s := |r.v|;
      && r.NodeDepths(d, s) == [0] && r.LeafDepths(l, s) == []
      && Kraft([0], m) == Pow2(m) && Cost(r.Nodes(s), [0]) == 0
  {
    var s := |r.v|;
    assert r.Leaf(s) == |r.w|;
    assert Kraft([0], m) == Pow2(m) + Kraft([], m);
    assert Cost(r.Nodes(s), [0]) == Times(r.Nodes(s)[0], 0) + Cost(r.Nodes(s)[1..], []);
  }

  /** The depths of the merge tree fill the code space exactly and cost exactly the merges. */
  lemma {:induction false} DepthsMeetBound(r: Run, s: nat, d: seq<nat>, l: seq<nat>, m: nat)
    requires r.Complete() && r.Depths(d, l) && s <= |r.v|
    requires AtMost(d, m) && AtMost(l, m)
    ensures Kraft(r.NodeDepths(d, s), m) + Kraft(r.LeafDepths(l, s), m) == Pow2(m)
    ensures Sum(r.v[s..]) == Cost(r.Nodes(s), r.NodeDepths(d, s)) + Cost(r.Leaves(s), r.LeafDepths(l, s))
    decreases |r.v| - s
  {
    if s < |r.v| {
      SplitAt(r, s, d, l, m);
      DepthsMeetBound(r, s + 1, d, l, m);
      assert r.v[s..][1..] == r.v[s + 1..];
    } else {
      RootAlone(r, d, l, m);
    }
  }

  /** Every merged node but the last was taken in exactly the step that the queue pointer passes it. */
  lemma {:induction false} FindParent(r: Run, k: nat) returns (p: nat)
    requires r.Complete() && k + 1 < |r.v|
    ensures k < p < |r.v| && r.first[p] <= k < r.first[p] + r.Taken(p)
  {
    assert r.first[|r.v|] == |r.v| - 1 by { assert r.Leaf(|r.v|) <= |r.w|; }
    p := 0;
    while r.first[p] + r.Taken(p) <= k
      invariant p < |r.v| && r.first[p] <= k
      decreases |r.v| - p
    {
      p := p + 1;
    }
    assert r.Leaf(p + 1) >= 0;
  }

  lemma {:induction false} FindLeafParent(r: Run, i: nat) returns (p: nat)
    requires r.Complete() && i < |r.w|
    ensures p < |r.v| && r.Leaf(p) <= i < r.Leaf(p + 1)
  {
    assert r.Leaf(|r.v|) == |r.w| by { assert r.Leaf(|r.v|) <= |r.w|; }
    p := 0;
    while r.Leaf(p + 1) <= i
      invariant p < |r.v| && r.Leaf(p) <= i
      decreases |r.v| - p
    {
      p := p + 1;
    }
  }

  lemma {:induction false} NodeDepthBound(r: Run, d: seq<nat>, l: seq<nat>, k: nat)
    requires r.Complete() && r.Depths(d, l) && k < |r.v|
    ensures d[k] + k < |r.v|
    decreases |r.v| - k
  {
    if k + 1 < |r.v| {
      var p := FindParent(r, k);
      assert r.DepthStep(d, l, p);
      NodeDepthBound(r, d, l, p);
    }
  }

  lemma {:induction false} DepthsBounded(r: Run, d: seq<nat>, l: seq<nat>)
    requires r.Complete() && r.Depths(d, l)
    ensures AtMost(d, |r.v|) && AtMost(l, |r.v|)
  {
    forall k | 0 <= k < |d|
      ensures d[k] < |r.v|
    {
      NodeDepthBound(r, d, l, k);
    }
    forall i | 0 <= i < |l|
      ensures l[i] <= |r.v|
    {
      var p := FindLeafParent(r, i);
      assert r.DepthStep(d, l, p);
    }
  }

  /** No lengths that fit the code space cost less than l. */
  ghost predicate Cheapest(w: seq<nat>, l: seq<nat>)
    requires |w| == |l|
  {
    forall l': seq<nat>, m: nat ::
      |l'| == |w| && AtMost(l', m) && Kraft(l', m) <= Pow2(m) ==> Cost(w, l) <= Cost(w, l')
  }

  /** The leaf depths of a greedy merge are an optimal, complete set of code lengths. */
  lemma {:induction false} GreedyIsOptimal(r: Run, d: seq<nat>, l: seq<nat>)
    requires r.Complete() && r.Depths(d, l)
    ensures AtMost(l, |r.w| - 1) && Kraft(l, |r.w| - 1) == Pow2(|r.w| - 1)
    ensures Cheapest(r.w, l)
  {
    DepthsBounded(r, d, l);
    DepthsMeetBound(r, 0, d, l, |r.v|);
    assert r.LeafDepths(l, 0) == l && r.Leaves(0) == r.w;
    forall l': seq<nat>, m: nat | |l'| == |r.w| && AtMost(l', m) && Kraft(l', m) <= Pow2(m)
      ensures Cost(r.w, l) <= Cost(r.w, l')
    {
      LowerBound(r, 0, [], l', m);
    }
  }

  lemma {:induction false} QueuesAdvance(r: Run, s: nat, t: nat)
    requires r.Shape() && s <= t <= |r.v|
    ensures r.first[s] <= r.first[t] && r.Leaf(s) <= r.Leaf(t)
    decreases t
  {
    if s < t {
      QueuesAdvance(r, s, t - 1);
      assert r.Taken(t - 1) <= 2;
    }
  }

  /** What is merged after step k is at least as heavy as either item merged in step k. */
  lemma {:induction false} LaterIsHeavier(r: Run, k: nat, s: nat, x: nat)
    requires r.Greedy() && k < s < |r.v| && (x == r.A(k) || x == r.B(k))
    ensures x <= r.A(s) && x <= r.B(s)
    decreases s
  {
    QueuesAdvance(r, k + 1, s);
    assert r.GreedyStep(k) && r.GreedyStep(s) && r.Leaf(s + 1) <= |r.w| && r.first[s] + r.Taken(s) <= s;
    forall j | r.first[s] <= j < s
      ensures x <= r.v[j]
    {
      if j > k {
        LaterIsHeavier(r, k, j, x);
        assert r.GreedyStep(j);
      }
    }
  }

  /** The total weight of the forest never changes. */
  lemma {:induction false} WeightConserved(r: Run, s: nat)
    requires r.Greedy() && s <= |r.v|
    ensures Sum(r.Nodes(s)) + Sum(r.Leaves(s)) == Sum(r.w)
  {
    hide Sum;
    if s > 0 {
      WeightConserved(r, s - 1);
      NextForest(r, s - 1);
      SumAfterStep(r.Nodes(s - 1), r.Leaves(s - 1), r.Nodes(s), r.Leaves(s), r.Taken(s - 1), r.v[s - 1]);
    } else {
      assert r.Leaves(0) == r.w && r.Nodes(0) == [];
      assert Sum([]) == 0 by { SumEmpty(); }
    }
  }

  lemma {:induction false} SumEmpty()
    ensures Sum([]) == 0
  {
  }

  lemma {:induction false} SumAfterStep(vs: seq<nat>, ws: seq<nat>, vs': seq<nat>, ws': seq<nat>, k: nat, x: nat)
    requires k <= 2 && k <= |vs| && 2 - k <= |ws|
    requires x == PickA(vs, ws, k) + PickB(vs, ws, k) && vs' == vs[k..] + [x] && ws' == ws[2 - k..]
    ensures Sum(vs') + Sum(ws') == Sum(vs) + Sum(ws)
  {
    SumConcat(vs[k..], [x]);
    if k == 0 {
      assert ws[1..][1..] == ws';
    } else if k == 2 {
      assert vs[1..][1..] == vs[2..];
    }
  }

  /** Merged nodes are made in order of weight. */
  lemma {:induction false} NodesSorted(r: Run, i: nat, j: nat)
    requires r.Greedy() && i <= j < |r.v|
    ensures r.v[i] <= r.v[j]
  {
    if i < j {
      LaterIsHeavier(r, i, j, r.A(i));
      LaterIsHeavier(r, i, j, r.B(i));
      assert r.GreedyStep(i) && r.GreedyStep(j);
    }
  }

  lemma {:induction false} NodeBelowTotal(r: Run)
    requires r.Greedy() && r.v != []
    ensures r.v[|r.v| - 1] <= Sum(r.w)
  {
    var s := |r.v|;
    WeightConserved(r, s);
    assert r.Leaf(s) <= |r.w| && r.first[s] < s;
    var q := r.Nodes(s);
    assert q == q[..|q| - 1] + [r.v[s - 1]];
    SumConcat(q[..|q| - 1], [r.v[s - 1]]);
    assert Sum([r.v[s - 1]]) == r.v[s - 1] + Sum([]);
  }

  /** One more greedy step extends a run. */
  lemma {:induction false} ExtendRun(r: Run, r': Run, x: nat, y: nat, t: nat)
    requires r.Greedy() && |r.v| + 1 < |r.w| && t <= 2
    requires var s, f, e := |r.v|, r.first[|r.v|], r.Leaf(|r.v|);
      && f + t <= s && e + 2 - t <= |r.w|
      && x == (if t == 0 then r.w[e] else r.v[f])
      && y == (if t == 0 then r.w[e + 1] else if t == 1 then r.w[e] else r.v[f + 1])
      && (forall j :: f + t <= j < s ==> x <= r.v[j] && y <= r.v[j])
      && (forall i :: e + 2 - t <= i < |r.w| ==> x <= r.w[i] && y <= r.w[i])
      && r' == Run(r.w, r.v + [x + y], r.first + [f + t])
    ensures r'.Greedy() && r'.Taken(|r.v|) == t
  {
    var n := |r.v|;
    assert r.Leaf(n) == 2 * n - r.first[n];
    forall s | 0 <= s < n + 1
      ensures r'.StepShape(s)
    {
      assert s < n ==> r.StepShape(s);
    }
    assert r'.GreedyStep(n);
    forall s | 0 <= s < n
      ensures r'.GreedyStep(s)
    {
      SameGreedyStep(r, r', s);
    }
  }

  /** Later steps make no difference to whether a step was greedy. */
  lemma {:induction false} SameGreedyStep(r: Run, r': Run, s: nat)
    requires r.Greedy() && r'.Shape() && s < |r.v| < |r'.v| && r'.w == r.w
    requires r'.v[..|r.v|] == r.v && r'.first[..|r.v| + 1] == r.first
    ensures r'.GreedyStep(s)
  {
    assert r.GreedyStep(s);
    assert r'.first[s] == r.first[s] && r'.first[s + 1] == r.first[s + 1];
    assert forall k :: 0 <= k <= s ==> r'.v[k] == r'.v[..|r.v|][k] == r.v[k];
    assert r'.Taken(s) == r.Taken(s) && r'.Leaf(s) == r.Leaf(s) && r'.Leaf(s + 1) == r.Leaf(s + 1);
    assert r.first[s] + r.Taken(s) <= s && r.Leaf(s + 1) <= |r.w|;
  }

  /** Whether the next item is taken from the merged nodes: there is one, and it is lighter than the
      next leaf or no leaf is left. */
  ghost predicate FromNodes(r: Run, f: nat, e: nat) {
    e >= |r.w| || (f < |r.v| && r.v[f] < r.w[e])
  }

  /** Taking the lighter of the two queue fronts twice is a greedy step. */
  lemma {:induction false} GreedyChoice(r: Run, f: nat, e: nat) returns (x: nat, y: nat, t: nat, r': Run)
    requires r.Greedy() && 0 < |r.v| && |r.v| + 1 < |r.w| && Ascending(r.w)
    requires f == r.first[|r.v|] && e == r.Leaf(|r.v|)
    ensures f < |r.v| && t <= 2
    ensures var one := FromNodes(r, f, e);
      var f1, e1 := if one then f + 1 else f, if one then e else e + 1;
      var two := FromNodes(r, f1, e1);
      && x == (if one then r.v[f] else r.w[e])
      && (two ==> f1 < |r.v|)
      && y == (if two then r.v[f1] else r.w[e1])
      && f + t == (if two then f1 + 1 else f1) && e + 2 - t == (if two then e1 else e1 + 1)
    ensures r' == Run(r.w, r.v + [x + y], r.first + [f + t])
    ensures r'.Greedy() && r'.Taken(|r.v|) == t && r'.Leaf(|r.v| + 1) == e + 2 - t && x + y <= Sum(r.w)
  {
    var s := |r.v|;
    assert r.Leaf(s) == 2 * s - r.first[s];
    forall i, j | 0 <= i <= j < s
      ensures r.v[i] <= r.v[j]
    {
      NodesSorted(r, i, j);
    }
    var one := FromNodes(r, f, e);
    var f1, e1 := if one then f + 1 else f, if one then e else e + 1;
    var two := FromNodes(r, f1, e1);
    x, y := if one then r.v[f] else r.w[e], if two then r.v[f1] else r.w[e1];
    t := (if one then 1 else 0) + (if two then 1 else 0);
    r' := Run(r.w, r.v + [x + y], r.first + [f + t]);
    if one || !two {
      ExtendRun(r, r', x, y, t);
    } else {
      ExtendRun(r, r', y, x, t);
    }
    NodeBelowTotal(r');
  }

  /** Taking the lighter of the two queue fronts twice, and the leaf if they are equal, lets leaves go first. */
  lemma {:induction false} TiesGoToLeaves(r: Run, r': Run, f: nat, e: nat, t: nat)
    requires r.LeavesFirst() && 0 < |r.v| && |r.v| + 1 < |r.w| && Ascending(r.w) && r'.Greedy()
    requires f == r.first[|r.v|] && e == r.Leaf(|r.v|) && f < |r.v| && t <= 2
    requires var one := FromNodes(r, f, e);
      var f1, e1 := if one then f + 1 else f, if one then e else e + 1;
      var two := FromNodes(r, f1, e1);
      (two ==> f1 < |r.v|) && f + t == (if two then f1 + 1 else f1) && e + 2 - t == (if two then e1 else e1 + 1)
    requires r'.w == r.w && |r'.v| == |r.v| + 1 && r'.v[..|r.v|] == r.v && r'.first == r.first + [f + t]
    ensures r'.LeavesFirst()
  {
    var n := |r.v|;
    assert r'.Taken(n) == t && r'.Leaf(n + 1) == e + 2 - t;
    assert forall k :: 0 <= k < n ==> r'.v[k] == r.v[k];
    assert r'.LeavesFirstStep(n);
    hide FromNodes;
    forall s | 0 <= s < n
      ensures r'.LeavesFirstStep(s)
    {
      EarlierStep(r, r', s);
    }
  }

  /** Later steps make no difference to whether leaves went first. */
  lemma {:induction false} EarlierStep(r: Run, r': Run, s: nat)
    requires r.LeavesFirst() && r'.Shape() && s < |r.v| < |r'.v| && r'.w == r.w
    requires r'.v[..|r.v|] == r.v && r'.first[..|r.v| + 1] == r.first
    ensures r'.LeavesFirstStep(s)
  {
    assert r.LeavesFirstStep(s) && r.StepShape(s);
    assert r'.first[s] == r.first[s] && r'.first[s + 1] == r.first[s + 1];
    assert forall k :: 0 <= k < s ==> r'.v[k] == r'.v[..|r.v|][k] == r.v[k];
  }
}
