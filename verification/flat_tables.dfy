/** Tables in which a size has more codes than a byte can count, and the weights that lead to them. */
module FlatTables {
  import opened Powers
  import opened CodeLengths
  import opened HuffmanMerge
  import opened HuffmanDepth
  import opened CodeSizeLimit

  /** What 256 codes of one size leave room for: nothing, or one code of a single bit. */
  ghost predicate Flat(l: seq<nat>) {
    || (|l| == 256 && forall i :: 0 <= i < 256 ==> l[i] == 8)
    || (|l| == 257 && l[256] == 1 && forall i :: 0 <= i < 256 ==> l[i] == 9)
  }

  // The counts per size.

  /** Some size has more codes than a byte can count. */
  ghost predicate Crowded(c: seq<int>, m: nat)
    requires m < |c|
  {
    exists i :: 1 <= i <= m && c[i] >= 256
  }

  /** There are 256 codes of size i, and no others but perhaps one of a single bit. */
  ghost predicate FlatCounts(c: seq<int>, i: nat, m: nat)
    requires m < |c|
  {
    && 2 <= i <= m && c[i] == 256 && 0 <= c[1] <= 1
    && forall j :: 2 <= j <= m && j != i ==> c[j] == 0
  }

  lemma {:induction false} TakeCodes(c: seq<int>, i: nat, k: int, m: nat)
    requires 1 <= i < |c| && m < |c|
    ensures var d := c[i := c[i] - k];
      && CodeCount(d, 0, m) == CodeCount(c, 0, m) - (if i <= m then k else 0)
      && KraftTotal(d, m) == KraftTotal(c, m) - (if i <= m then k * Pow2(m - i) else 0)
  {
    if m > 0 {
      TakeCodes(c, i, k, m - 1);
      if i < m {
        DoubleShare(Pow2(m - 1 - i), k, 0);
      }
    }
  }

  lemma {:induction false} NoCodesLeft(c: seq<int>, m: nat)
    requires m < |c| && NonNegative(c) && CodeCount(c, 0, m) == 0
    ensures KraftTotal(c, m) == 0 && forall j :: 1 <= j <= m ==> c[j] == 0
  {
    if m > 0 {
      CountNonNegative(c, 0, m - 1);
      NoCodesLeft(c, m - 1);
    }
  }

  lemma {:induction false} OneCodeLeft(c: seq<int>, m: nat) returns (j: nat)
    requires m < |c| && NonNegative(c) && CodeCount(c, 0, m) == 1
    ensures 1 <= j <= m && c[j] == 1 && KraftTotal(c, m) == Pow2(m - j)
    ensures forall k :: 1 <= k <= m && k != j ==> c[k] == 0
  {
    CountNonNegative(c, 0, m - 1);
    if c[m] == 1 {
      NoCodesLeft(c, m - 1);
      j := m;
    } else {
      j := OneCodeLeft(c, m - 1);
    }
  }

  lemma {:induction false} StrictlyMore(a: nat, b: nat)
    requires a < b
    ensures 2 * Pow2(a) <= Pow2(b)
  {
    Pow2Monotone(a + 1, b);
  }

  lemma {:induction false} SamePower(a: nat, b: nat)
    requires Pow2(a) == Pow2(b)
    ensures a == b
  {
    if a < b {
      StrictlyMore(a, b);
    } else if b < a {
      StrictlyMore(b, a);
    }
  }

  lemma {:induction false} HalvesOfPower(a: nat, b: nat, m: nat)
    requires Pow2(a) + Pow2(b) == Pow2(m)
    ensures a == b == m - 1
  {
    hide Pow2;
    if a >= m {
      Pow2Monotone(m, a);
    } else if b >= m {
      Pow2Monotone(m, b);
    } else {
      StrictlyMore(a, m);
      StrictlyMore(b, m);
      assert 2 * Pow2(a) == Pow2(m) == 2 * Pow2(b);
      Pow2Step(m);
      SamePower(a, m - 1);
      SamePower(b, m - 1);
    }
  }

  lemma {:induction false} ByteShare(p: nat, n: nat)
    requires n == 8
    ensures 256 * Pow2(p) == Pow2(p + n)
  {
    assert Pow2(8) == 256;
    Pow2Add(n, p);
  }

  /** With at most 257 codes, only flat tables have a crowded size; none of their codes is longer than 9 bits. */
  lemma {:induction false} CrowdedIsFlat(c: seq<int>, n: int, m: nat)
    requires m == 16 < |c| && NonNegative(c) && CodeCount(c, 0, m) == n <= MAX_HUFF_SYMBOLS && FillsCodeSpace(c, m)
    requires Crowded(c, m)
    ensures FlatCounts(c, if n == 256 then 8 else 9, m) && c[1] == n - 256 && CodeCount(c, 9, m) == 0
  {
    hide KraftTotal, Pow2, CodeCount;
    var i :| 1 <= i <= m && c[i] >= 256;
    var d := c[i := c[i] - 256];
    TakeCodes(c, i, 256, m);
    ByteShare(m - i, 8);
    CountNonNegative(d, 0, m);
    if n == 256 {
      NoCodesLeft(d, m);
      SamePower(m - i + 8, m);
    } else {
      var j := OneCodeLeft(d, m);
      HalvesOfPower(m - i + 8, m - j, m);
    }
    assert forall k :: 0 <= k < |c| && k != i ==> c[k] == d[k];
    NoneCounted(c, 9, m);
  }

  lemma {:induction false} NoneCounted(c: seq<int>, lo: nat, hi: nat)
    requires lo <= hi < |c| && forall j :: lo < j <= hi ==> c[j] == 0
    ensures CodeCount(c, lo, hi) == 0
  {
    if lo < hi {
      NoneCounted(c, lo, hi - 1);
    }
  }

  // The weights that give 256 codes of 8 bits.

  /** While the last weight is no more than the sum of the first two, leaves are merged with leaves. */
  lemma {:induction false} PairsFirst(r: Run, h: nat, s: nat)
    requires r.Complete() && r.LeavesFirst() && |r.w| == 2 * h && s <= h && r.w[2 * h - 1] <= r.w[0] + r.w[1]
    ensures s <= |r.v| && r.first[s] == 0
  {
    if s > 0 {
      var t := s - 1;
      PairsFirst(r, h, t);
      assert r.StepShape(0) && r.GreedyStep(0) && r.Taken(0) == 0 && r.Leaf(0) == 0;
      LeafGoesFirst(r, t, 2 * h - 1);
    }
  }

  lemma {:induction false} LeafGoesFirst(r: Run, s: nat, i: nat)
    requires r.LeavesFirst() && s < |r.v| && r.first[s] == 0 && 2 * s < i < |r.w| && r.v[0] >= r.w[i]
    ensures r.Taken(s) == 0
  {
    assert r.StepShape(s) && r.Leaf(s) == 2 * s && r.LeavesFirstStep(s);
    assert r.Leaf(s + 1) == 2 * s + 2 - r.Taken(s);
  }

  /** Then nodes are merged with nodes. */
  lemma {:induction false} NodesThen(r: Run, h: nat, s: nat)
    requires r.Complete() && |r.w| == 2 * h && h <= s < |r.v| && r.first[h] == 0
    ensures r.first[s] == 2 * (s - h) && r.Taken(s) == 2
  {
    assert r.Leaf(h) == 2 * h && r.Leaf(s) <= |r.w| && r.Leaf(s + 1) <= |r.w|;
    QueuesAdvance(r, h, s);
    QueuesAdvance(r, h, s + 1);
  }

  /** The depth of node u of a binary tree without gaps, numbered from the root level by level. */
  function Level(u: nat): nat {
    if u == 0 then 0 else 1 + Level((u - 1) / 2)
  }

  lemma {:induction false} LevelIs(u: nat, j: nat)
    requires Pow2(j) - 1 <= u < 2 * Pow2(j) - 1
    ensures Level(u) == j
  {
    if j == 0 {
      assert u == 0;
    } else {
      assert Pow2(j) == 2 * Pow2(j - 1);
      LevelIs((u - 1) / 2, j - 1);
    }
  }

  lemma {:induction false} NodeLevel(r: Run, d: seq<nat>, l: seq<nat>, u: nat)
    requires r.Complete() && r.Depths(d, l) && |r.w| == 256 && r.first[128] == 0 && u < 255
    ensures d[254 - u] == Level(u)
  {
    if u > 0 {
      var k := 254 - u;
      var p := FindParent(r, k);
      ParentIsLate(r, k, p);
      NodesThen(r, 128, p);
      assert 254 - p == (u - 1) / 2;
      NodeLevel(r, d, l, (u - 1) / 2);
      assert r.DepthStep(d, l, p);
    }
  }

  lemma {:induction false} ParentIsLate(r: Run, k: nat, p: nat)
    requires r.Complete() && |r.w| == 256 && r.first[128] == 0 && p < |r.v| && k < r.first[p] + r.Taken(p)
    ensures p >= 128
  {
    if p < 128 {
      QueuesAdvance(r, p + 1, 128);
    }
  }

  lemma {:induction false} LeafParentIsEarly(r: Run, i: nat, p: nat)
    requires r.Complete() && |r.w| == 256 && r.first[128] == 0 && i < 256 && p < |r.v| && r.Leaf(p) <= i
    ensures p < 128
  {
    assert r.Leaf(128) == 256;
    if p >= 128 {
      QueuesAdvance(r, 128, p);
    }
  }

  lemma {:induction false} EvenGiveFlat(r: Run, d: seq<nat>, l: seq<nat>)
    requires r.Complete() && r.LeavesFirst() && r.Depths(d, l) && |r.w| == 256 && r.w[255] <= r.w[0] + r.w[1]
    ensures Flat(l)
  {
    PairsFirst(r, 128, 128);
    forall i | 0 <= i < 256
      ensures l[i] == 8
    {
      var p := FindLeafParent(r, i);
      LeafParentIsEarly(r, i, p);
      NodeLevel(r, d, l, 254 - p);
      assert Pow2(7) == 128;
      LevelIs(254 - p, 7);
      assert r.DepthStep(d, l, p);
    }
  }

  /** Codes of 8 bits cost too much for other weights: the heaviest can do with 7 if the lightest two take 9. */
  lemma {:induction false} FlatNeedsEven(w: seq<nat>, l: seq<nat>)
    requires |w| == |l| == 256 && Flat(l) && Cheapest(w, l) && AtMost(l, 9) && Kraft(l, 9) == Pow2(9)
    ensures w[255] <= w[0] + w[1]
  {
    var a := l[0 := 9];
    var b := a[1 := 9];
    var c := b[255 := 7];
    hide Kraft, Cost;
    ReplaceOne(w, l, 0, 9, 9);
    ReplaceOne(w, a, 1, 9, 9);
    ReplaceOne(w, b, 255, 7, 9);
    assert Pow2(0) == 1 && Pow2(1) == 2 && Pow2(2) == 4;
    assert Times(w[0], 9) == w[0] + Times(w[0], 8) && Times(w[1], 9) == w[1] + Times(w[1], 8);
    assert Times(w[255], 8) == w[255] + Times(w[255], 7);
    assert Cost(w, l) <= Cost(w, c);
  }

  /** For 256 weights, the codes are flat exactly if the last weight is no more than the sum of the first two. */
  lemma {:induction false} FlatIffEven(w: seq<nat>, l: seq<nat>)
    requires MergeLengths(w, l) && |w| == 256
    ensures Flat(l) <==> w[255] <= w[0] + w[1]
  {
    hide Kraft, Cost;
    var r: Run, d :| r.w == w && r.Complete() && r.LeavesFirst() && r.Depths(d, l);
    if w[255] <= w[0] + w[1] {
      EvenGiveFlat(r, d, l);
    }
    if Flat(l) {
      GreedyIsOptimal(r, d, l);
      FlatFills(l);
      FlatNeedsEven(w, l);
    }
  }

  lemma {:induction false} FlatFills(l: seq<nat>)
    requires |l| == 256 && AtMost(l, 255) && Kraft(l, 255) == Pow2(255) && AtMost(l, 9)
    ensures Kraft(l, 9) == Pow2(9)
  {
    hide Pow2, Kraft;
    KraftRescale(l, 9, 255);
    Pow2Add(255 - 9, 9);
    CancelFactor(Pow2(255 - 9), Kraft(l, 9), Pow2(9));
    CancelFactor(Pow2(255 - 9), Pow2(9), Kraft(l, 9));
  }
}
