/** Building an optimised Huffman table from symbol counts. */
module HuffmanTableOptimizer {
  import opened MachineNumbers
  import opened Powers
  import opened CodeLengths
  import opened HuffmanMerge
  import opened SymbolFrequencies
  import opened RadixSort
  import opened HuffmanDepth
  import opened MinimumRedundancy
  import opened CodeSizeLimit
  import opened CodeSizeLists
  import opened FlatTables
  import opened ReversedLists
  import opened PrefixCodes

  /** Stands for a code that no symbol gets, so that no symbol's code is all ones. */
  const DUMMY := SymFreq(1, 0)

  /** The counted symbols below i, in order; index k + 1 stands for symbol k. */
  function Used(count: seq<nat>, i: nat): (s: seq<SymFreq>)
    requires i <= |count|
    ensures |s| <= i
  {
    if i == 0 then [] else Used(count, i - 1) + if count[i - 1] > 0 then [SymFreq(count[i - 1], i)] else []
  }

  /** x is the record of a counted symbol or the dummy. */
  ghost predicate IsRecord(count: seq<nat>, x: SymFreq) {
    x == DUMMY || (1 <= x.symIndex <= |count| && x.key == count[x.symIndex - 1] > 0)
  }

  ghost predicate Distinct<T>(s: seq<T>) {
    forall i, j :: 0 <= i < j < |s| ==> s[i] != s[j]
  }

  lemma {:induction false} UsedRecords(count: seq<nat>, i: nat)
    requires i <= |count|
    ensures forall x :: x in Used(count, i) ==> x != DUMMY && IsRecord(count, x) && x.symIndex <= i
    ensures forall k :: 0 <= k < i && count[k] > 0 ==> SymFreq(count[k], k + 1) in Used(count, i)
    ensures Distinct(Used(count, i))
  {
    if i > 0 {
      UsedRecords(count, i - 1);
    }
  }

  lemma {:induction false} UsedSum(count: seq<nat>, i: nat)
    requires i <= |count|
    ensures Sum(Keys(Used(count, i))) == Sum(count[..i])
  {
    if i > 0 {
      UsedSum(count, i - 1);
      var u := Used(count, i - 1);
      var last := if count[i - 1] > 0 then [SymFreq(count[i - 1], i)] else [];
      assert Keys(u + last) == Keys(u) + Keys(last);
      SumConcat(Keys(u), Keys(last));
      assert count[..i] == count[..i - 1] + [count[i - 1]];
      SumConcat(count[..i - 1], [count[i - 1]]);
      SumOfOne(count[i - 1]);
      if count[i - 1] > 0 {
        assert Keys(last) == [count[i - 1]];
      } else {
        assert Keys(last) == [];
        assert Sum([]) == 0;
      }
    } else {
      assert count[..0] == [];
      assert Keys([]) == [];
    }
  }

  lemma {:induction false} DistinctCount<T>(s: seq<T>, x: T)
    requires Distinct(s)
    ensures multiset(s)[x] <= 1
  {
    if s != [] {
      assert s == s[..|s| - 1] + [s[|s| - 1]];
      DistinctCount(s[..|s| - 1], x);
    }
  }

  lemma {:induction false} PermutationDistinct<T>(s: seq<T>, r: seq<T>)
    requires Distinct(s) && multiset(s) == multiset(r)
    ensures Distinct(r)
  {
    forall i, j | 0 <= i < j < |r|
      ensures r[i] != r[j]
    {
      DistinctCount(s, r[i]);
      assert r == r[..i] + [r[i]] + r[i + 1..j] + [r[j]] + r[j + 1..];
    }
  }

  /** The first record of key v in s is the first of s with that key. */
  lemma {:induction false} FirstWithKey(s: seq<SymFreq>, v: nat)
    requires s != [] && s[0].key == v
    ensures WithKey(s, v) != [] && WithKey(s, v)[0] == s[0]
  {
    if |s| > 1 {
      FirstWithKey(s[..|s| - 1], v);
    } else {
      assert s[..0] == [];
    }
  }

  /** Because the sort is stable, the dummy stays ahead of all symbols that occur once. */
  lemma {:induction false} DummyComesFirst(s: seq<SymFreq>, r: seq<SymFreq>)
    requires s != [] && s[0] == DUMMY && StablySorted(s, r) && forall x :: x in s ==> x.key >= 1
    ensures r != [] && r[0] == DUMMY
  {
    SameOrderIsPermutation(s, r);
    assert DUMMY in multiset(s);
    var k :| 0 <= k < |r| && r[k] == DUMMY;
    assert r[0] in multiset(r);
    assert Keys(r)[0] <= Keys(r)[k];
    FirstWithKey(s, 1);
    FirstWithKey(r, 1);
    assert WithKey(r, 1) == WithKey(s, 1);
  }

  /** The records in sorted order: each counted symbol once, the dummy in front. */
  ghost predicate SortedRecords(count: seq<nat>, r: seq<SymFreq>) {
    && r != [] && r[0] == DUMMY && Ascending(Keys(r)) && Distinct(r)
    && (forall i :: 0 <= i < |r| ==> IsRecord(count, r[i]))
    && (forall k :: 0 <= k < |count| && count[k] > 0 ==> SymFreq(count[k], k + 1) in r)
  }

  lemma {:induction false} SortingGivesRecords(count: seq<nat>, r: seq<SymFreq>)
    requires StablySorted([DUMMY] + Used(count, |count|), r)
    ensures SortedRecords(count, r) && |r| == 1 + |Used(count, |count|)|
  {
    var u := Used(count, |count|);
    var s := [DUMMY] + u;
    UsedRecords(count, |count|);
    SameOrderIsPermutation(s, r);
    assert |multiset(s)| == |multiset(r)|;
    DummyComesFirst(s, r);
    PermutationDistinct(s, r);
    forall i | 0 <= i < |r|
      ensures IsRecord(count, r[i])
    {
      assert r[i] in multiset(s);
    }
    forall k | 0 <= k < |count| && count[k] > 0
      ensures SymFreq(count[k], k + 1) in r
    {
      assert SymFreq(count[k], k + 1) in multiset(s);
    }
  }

  lemma {:induction false} SortingKeepsTotal(count: seq<nat>, r: seq<SymFreq>)
    requires StablySorted([DUMMY] + Used(count, |count|), r)
    ensures Sum(Keys(r)) == 1 + Sum(count)
  {
    var u := Used(count, |count|);
    var s := [DUMMY] + u;
    UsedSum(count, |count|);
    assert count[..|count|] == count;
    assert Keys(s) == [1] + Keys(u);
    SumConcat([1], Keys(u));
    SumOfOne(1);
    SameOrderIsPermutation(s, r);
    PermutationSum(s, r);
  }

  lemma {:induction false} PermutationSum(s: seq<SymFreq>, r: seq<SymFreq>)
    requires multiset(s) == multiset(r)
    ensures Sum(Keys(s)) == Sum(Keys(r))
  {
    if s == [] {
      assert |multiset(r)| == 0;
    } else {
      var t, x := s[..|s| - 1], s[|s| - 1];
      assert s == t + [x];
      var a, b := RemoveOne(t, x, r);
      PermutationSum(t, a + b);
      assert Keys(s) == Keys(t) + [x.key];
      SumConcat(Keys(t), [x.key]);
      assert Keys(r) == Keys(a) + [x.key] + Keys(b);
      SumConcat(Keys(a) + [x.key], Keys(b));
      SumConcat(Keys(a), [x.key]);
      assert Keys(a + b) == Keys(a) + Keys(b);
      SumConcat(Keys(a), Keys(b));
    }
  }

  // From code lengths to codes per size.

  ghost function Tally(l: seq<nat>, k: nat): nat {
    if l == [] then 0 else Tally(l[..|l| - 1], k) + if l[|l| - 1] == k then 1 else 0
  }

  ghost predicate IsTally(c: seq<int>, l: seq<nat>) {
    forall k :: 0 <= k < |c| ==> c[k] == Tally(l, k)
  }

  lemma {:induction false} AddOneCode(c: seq<int>, x: nat, m: nat)
    requires 1 <= x && m < |c| && x < |c|
    ensures var d := c[x := c[x] + 1];
      && KraftTotal(d, m) == KraftTotal(c, m) + (if x <= m then Pow2(m - x) else 0)
      && CodeCount(d, 0, m) == CodeCount(c, 0, m) + (if x <= m then 1 else 0)
  {
    if m > 0 {
      AddOneCode(c, x, m - 1);
    }
  }

  lemma {:induction false} TallyTotals(c: seq<int>, l: seq<nat>, m: nat)
    requires m + 1 == |c| && IsTally(c, l) && AtMost(l, m) && AtLeast(l, 1)
    ensures NonNegative(c) && CodeCount(c, 0, m) == |l| && KraftTotal(c, m) == Kraft(l, m)
    decreases |l|
  {
    if l == [] {
      NoShortCodes(c, m);
    } else {
      var t, x := l[..|l| - 1], l[|l| - 1];
      assert l == t + [x];
      var d := c[x := c[x] - 1];
      TallyTotals(d, t, m);
      assert c == d[x := d[x] + 1];
      AddOneCode(d, x, m);
      KraftConcat(t, [x], m);
      assert Kraft([x], m) == Pow2(m - x) + Kraft([], m);
    }
  }

  lemma {:induction false} TallyFirst(l: seq<nat>, k: nat)
    requires l != []
    ensures Tally(l, k) == Tally(l[1..], k) + if l[0] == k then 1 else 0
  {
    if |l| > 1 {
      TallyFirst(l[..|l| - 1], k);
      assert l[..|l| - 1][1..] == l[1..][..|l| - 2];
    }
  }

  lemma {:induction false} TallyBeyond(l: seq<nat>, m: nat, k: nat)
    requires AtMost(l, m) && k > m
    ensures Tally(l, k) == 0
  {
    if l != [] {
      TallyBeyond(l[..|l| - 1], m, k);
    }
  }

  lemma {:induction false} NoneTallied(c: seq<int>, l: seq<nat>, m: nat)
    requires IsTally(c, l) && AtMost(l, m)
    ensures NoneBeyond(c, m)
  {
    forall k | m < k < |c|
      ensures c[k] == 0
    {
      TallyBeyond(l, m, k);
    }
  }

  lemma {:induction false} TallyAll(l: seq<nat>, k: nat)
    ensures Tally(l, k) <= |l| && (Tally(l, k) == |l| <==> forall i :: 0 <= i < |l| ==> l[i] == k)
  {
    if l != [] {
      var t := l[..|l| - 1];
      TallyAll(t, k);
      assert forall i :: 0 <= i < |t| ==> t[i] == l[i];
    }
  }

  lemma {:induction false} TwoTallies(l: seq<nat>, j: nat, k: nat)
    requires j != k
    ensures Tally(l, j) + Tally(l, k) <= |l|
  {
    if l != [] {
      TwoTallies(l[..|l| - 1], j, k);
    }
  }

  /** Lengths of which 256 are equal and the last one is 1. */
  lemma {:induction false} FlatTally(l: seq<nat>)
    requires |l| == 257 && NonIncreasing(l) && AtLeast(l, 1)
    ensures Tally(l, 9) == 256 && Tally(l, 1) == 1 <==> Flat(l)
  {
    var t := l[..256];
    TallyAll(t, 9);
    TallyAll(t, 1);
    TwoTallies(t, 9, 1);
    assert Tally(l, 9) == Tally(t, 9) + if l[256] == 9 then 1 else 0;
    assert Tally(l, 1) == Tally(t, 1) + if l[256] == 1 then 1 else 0;
    assert forall i :: 0 <= i < 256 ==> t[i] == l[i] && l[i] >= l[256];
    if l[256] > 1 {
      NoneBelow(t, 1, l[256]);
    }
  }

  lemma {:induction false} NoneBelow(l: seq<nat>, k: nat, x: nat)
    requires AtLeast(l, x) && k < x
    ensures Tally(l, k) == 0
  {
    if l != [] {
      assert AtLeast(l[..|l| - 1], x);
      NoneBelow(l[..|l| - 1], k, x);
    }
  }

  /** After limiting the counts t of the lengths l, a size is crowded exactly if the lengths are flat. */
  lemma {:induction false} CrowdedIffFlat(t: seq<int>, c: seq<int>, l: seq<nat>, m: nat)
    requires m == MAX_CODE_SIZE < |t| == |c| && IsTally(t, l) && NonIncreasing(l) && AtLeast(l, 1)
    requires NonNegative(c) && CodeCount(c, 0, m) == |l| <= MAX_HUFF_SYMBOLS && FillsCodeSpace(c, m)
    requires if NoneBeyond(t, m) then c == t else CodeCount(c, m - 7, m) > 0
    ensures Crowded(c, m) <==> Flat(l)
    ensures Flat(l) ==> FlatCounts(c, if |l| == 256 then 8 else 9, m)
  {
    hide FillsCodeSpace, CodeCount, Tally, NoneBeyond;
    if Crowded(c, m) {
      CrowdedIsFlat(c, |l|, m);
      TallyAll(l, 8);
      if |l| == 257 {
        FlatTally(l);
      }
    }
    if Flat(l) {
      assert AtMost(l, m);
      NoneTallied(t, l, m);
      TallyAll(l, 8);
      if |l| == 257 {
        FlatTally(l);
      }
      assert c[if |l| == 256 then 8 else 9] == 256;
      CrowdedIsFlat(c, |l|, m);
    }
  }

  /** Lengths that do not increase are listed backwards by the codes per size. */
  lemma {:induction false} TallyLists(c: seq<int>, l: seq<nat>, m: nat)
    requires m < |c| && IsTally(c, l) && AtMost(l, m) && AtLeast(l, 1) && NonIncreasing(l)
    ensures SizeList(c, m) == Reversed(l)
    decreases |l|
  {
    hide Tally, SizeList;
    if l == [] {
      forall k | 1 <= k <= m
        ensures c[k] == 0
      {
        TallyBeyond(l, 0, k);
      }
      AllZero(c, m);
    } else {
      var x := l[0];
      forall k
        ensures Tally(l, k) == Tally(l[1..], k) + if x == k then 1 else 0
      {
        TallyFirst(l, k);
      }
      forall k | k > x
        ensures Tally(l, k) == 0
      {
        TallyBeyond(l, x, k);
      }
      var d := c[x := c[x] - 1];
      TallyLists(d, l[1..], m);
      assert c[x] == Tally(l[1..], x) + 1;
      DropLargest(c, d, x, m);
    }
  }

  /** A complete code is complete in whatever unit its Kraft sum is measured. */
  lemma {:induction false} CompleteAnyScale(l: seq<nat>, m: nat, k: nat)
    requires AtMost(l, m) && AtMost(l, k) && Kraft(l, m) == Pow2(m)
    ensures Kraft(l, k) == Pow2(k)
  {
    if m <= k {
      KraftRescale(l, m, k);
      Pow2Add(k - m, m);
    } else {
      KraftRescale(l, k, m);
      Pow2Add(m - k, k);
      CancelFactor(Pow2(m - k), Kraft(l, k), Pow2(k));
      CancelFactor(Pow2(m - k), Pow2(k), Kraft(l, k));
    }
  }

  lemma {:induction false} KraftAtLeast(l: seq<nat>, i: nat, m: nat)
    requires AtMost(l, m) && i < |l|
    ensures Kraft(l, m) >= Pow2(m - l[i]) + |l| - 1
  {
    if |l| > 1 {
      if i > 0 {
        KraftAtLeast(l[1..], i - 1, m);
      } else {
        KraftAtLeast(l[1..], 0, m);
      }
    }
  }

  // How long the codes of a table can get.

  /** The least total count (with the dummy) that can give a code of 33 bits, for which there is no counter. */
  const COUNTERS_TOTAL := 11405773

  /** The least total count that can give a code of 17 bits, which has to be limited. */
  const LIMIT_TOTAL := 5167

  lemma {:induction false} LeastTotals()
    ensures LeastTotal(1 + MAX_HUFF_CODESIZE) == COUNTERS_TOTAL && LeastTotal(1 + MAX_CODE_SIZE) == LIMIT_TOTAL
  {
    assert Fib(4) == 3 && Fib(5) == 5;
    assert Fib(8) == 21 && Fib(9) == 34;
    assert Fib(12) == 144 && Fib(13) == 233;
    assert Fib(16) == 987 && Fib(17) == 1597;
    assert Fib(20) == 6765 && Fib(21) == 10946;
    assert Fib(24) == 46368 && Fib(25) == 75025;
    assert Fib(28) == 317811 && Fib(29) == 514229;
    assert Fib(32) == 2178309 && Fib(33) == 3524578;
  }

  /** The calculation gives no record of these counts a code longer than m. */
  ghost predicate CodesFit(count: seq<nat>, m: nat) {
    forall r: seq<SymFreq>, l: seq<nat> ::
      StablySorted([DUMMY] + Used(count, |count|), r) && MergeLengths(Keys(r), l) ==> AtMost(l, m)
  }

  /** That is so for all counts of total t, the dummy included. */
  ghost predicate LengthsFit(t: nat, m: nat) {
    forall count: seq<nat> :: |count| <= 256 && Sum(count) + 1 == t ==> CodesFit(count, m)
  }

  lemma {:induction false} TotalFits(count: seq<nat>, m: nat)
    requires Sum(count) + 1 < LeastTotal(m + 1)
    ensures CodesFit(count, m)
  {
    hide LeastTotal, MergeLengths, Sum, StablySorted, Used, Keys;
    forall r: seq<SymFreq>, l: seq<nat>
        | StablySorted([DUMMY] + Used(count, |count|), r) && MergeLengths(Keys(r), l)
      ensures AtMost(l, m)
    {
      SortingGivesRecords(count, r);
      SortingKeepsTotal(count, r);
      RecordKeys(count, r);
      LengthsBounded(Keys(r), l, m);
    }
  }

  /** Lengths fit exactly for totals below what a code of m + 1 bits needs. */
  lemma {:induction false} LengthsFitIff(t: nat, m: nat)
    requires 4 <= m <= 250
    ensures LengthsFit(t, m) <==> t < LeastTotal(m + 1)
  {
    hide LeastTotal, MergeLengths, Sum, StablySorted, Used, Keys;
    if t < LeastTotal(m + 1) {
      forall count: seq<nat> | |count| <= 256 && Sum(count) + 1 == t
        ensures CodesFit(count, m)
      {
        TotalFits(count, m);
      }
    } else {
      var w, l := LongCode(t, m + 1);
      var count, r := CountsOfWeights(w);
      assert MergeLengths(Keys(r), l) && !AtMost(l, m) && !CodesFit(count, m);
    }
  }

  /** Counters for codes of up to 32 bits suffice exactly for totals below COUNTERS_TOTAL. */
  lemma {:induction false} CountersSufficeIff(t: nat)
    ensures LengthsFit(t, MAX_HUFF_CODESIZE) <==> t < COUNTERS_TOTAL
    ensures LengthsFit(t, MAX_CODE_SIZE) <==> t < LIMIT_TOTAL
  {
    hide LengthsFit, LeastTotal;
    LengthsFitIff(t, MAX_HUFF_CODESIZE);
    LengthsFitIff(t, MAX_CODE_SIZE);
    LeastTotals();
  }

  /** The keys fit 32 bits, and every code length that the calculation gives has a counter. */
  ghost predicate CountersSuffice(count: seq<nat>) {
    Sum(count) + 1 < UINT32_RANGE && CodesFit(count, MAX_HUFF_CODESIZE)
  }

  lemma {:induction false} SmallTotalSuffices(count: seq<nat>)
    requires Sum(count) + 1 < COUNTERS_TOTAL
    ensures CountersSuffice(count)
  {
    hide LeastTotal, Sum, CodesFit;
    LeastTotals();
    TotalFits(count, MAX_HUFF_CODESIZE);
  }

  /** The calculation gives 256 symbols codes of one size, one more than a byte can count. */
  ghost predicate FlatCodes(count: seq<nat>) {
    exists r: seq<SymFreq>, l: seq<nat> ::
      StablySorted([DUMMY] + Used(count, |count|), r) && MergeLengths(Keys(r), l) && Flat(l)
  }

  lemma {:induction false} FlatCodesOf(count: seq<nat>, r: seq<SymFreq>, l: seq<nat>)
    requires StablySorted([DUMMY] + Used(count, |count|), r) && MergeLengths(Keys(r), l)
    ensures FlatCodes(count) <==> Flat(l)
  {
    hide MergeLengths, StablySorted, Used, Flat;
    if FlatCodes(count) {
      var r', l' :| StablySorted([DUMMY] + Used(count, |count|), r') && MergeLengths(Keys(r'), l') && Flat(l');
      StableSortUnique([DUMMY] + Used(count, |count|), r, r');
      MergeLengthsUnique(Keys(r), l, l');
    }
  }

  /** With 255 symbols it happens exactly if the most frequent one occurs at most once more than the rarest. */
  lemma {:induction false} FlatCodesIff(count: seq<nat>, r: seq<SymFreq>, l: seq<nat>)
    requires StablySorted([DUMMY] + Used(count, |count|), r) && MergeLengths(Keys(r), l) && |r| == 256
    ensures FlatCodes(count) <==> r[255].key <= r[1].key + 1
  {
    hide StablySorted, Used, Flat, FlatCodes, MergeLengths;
    FlatCodesOf(count, r, l);
    FlatIffEven(Keys(r), l);
    SortingGivesRecords(count, r);
  }

  /** With fewer than 255 symbols that cannot happen. */
  lemma {:induction false} FewNotFlat(count: seq<nat>)
    requires |Used(count, |count|)| <= 254
    ensures !FlatCodes(count)
  {
    hide StablySorted, Used;
    forall r: seq<SymFreq>, l: seq<nat> | StablySorted([DUMMY] + Used(count, |count|), r) && MergeLengths(Keys(r), l)
      ensures !Flat(l)
    {
      SortingGivesRecords(count, r);
    }
  }

  /** Ascending weights as counts, the first one being the dummy's. */
  lemma {:induction false} CountsOfWeights(w: seq<nat>) returns (count: seq<nat>, r: seq<SymFreq>)
    requires |w| >= 1 && w[0] == 1 && Ascending(w) && AtLeast(w, 1)
    ensures |count| == |w| - 1 && Sum(count) + 1 == Sum(w)
    ensures StablySorted([DUMMY] + Used(count, |count|), r) && Keys(r) == w
  {
    count := w[1..];
    UsedAll(count, |count|);
    r := [DUMMY] + Used(count, |count|);
  }

  lemma {:induction false} UsedAll(count: seq<nat>, i: nat)
    requires i <= |count| && AtLeast(count, 1)
    ensures |Used(count, i)| == i && forall k :: 0 <= k < i ==> Used(count, i)[k] == SymFreq(count[k], k + 1)
  {
    if i > 0 {
      UsedAll(count, i - 1);
    }
  }

  lemma {:induction false} DepthBelowLimit(d: nat, total: nat)
    requires LeastTotal(d) <= total < LIMIT_TOTAL
    ensures d <= MAX_CODE_SIZE
  {
    hide LeastTotal;
    LeastTotals();
    if d > MAX_CODE_SIZE {
      LeastTotalMonotone(1 + MAX_CODE_SIZE, d);
    }
  }

  lemma {:induction false} LengthsPositive(l: seq<nat>, m: nat)
    requires |l| >= 2 && AtMost(l, m) && Kraft(l, m) == Pow2(m)
    ensures AtLeast(l, 1)
  {
    forall i | 0 <= i < |l|
      ensures l[i] >= 1
    {
      KraftAtLeast(l, i, m);
    }
  }

  /** Optimal lengths that have counters lie in 1..32 and fill the code space. */
  lemma {:induction false} LengthsInRange(w: seq<nat>, l: seq<nat>, m: nat)
    requires OptimalLengths(w, l) && AtMost(l, m) && m == MAX_HUFF_CODESIZE
    ensures AtLeast(l, 1) && Kraft(l, m) == Pow2(m)
    ensures Sum(w) < LIMIT_TOTAL ==> AtMost(l, MAX_CODE_SIZE)
  {
    hide Pow2, Kraft, LeastTotal, MergeLengths, Sum, Cheapest;
    if Sum(w) < LIMIT_TOTAL {
      DepthBelowLimit(l[0], Sum(w));
    }
    CompleteAnyScale(l, |w| - 1, m);
    LengthsPositive(l, m);
  }

  // The finished table.

  /** How often the first n symbols of a table occur. */
  ghost function Weights(count: seq<nat>, val: seq<nat>, n: nat): (w: seq<nat>)
    requires n <= |val| && forall p :: 0 <= p < n ==> val[p] < |count|
    ensures |w| == n
  {
    seq(n, p requires 0 <= p < n => count[val[p]])
  }

  /** val[..n] lists every counted symbol once, the most frequent first. */
  ghost predicate ListsByFrequency(count: seq<nat>, val: seq<nat>, n: nat) {
    && n <= |val|
    && (forall p :: 0 <= p < n ==> val[p] < |count| && count[val[p]] > 0)
    && (forall p, q :: 0 <= p < q < n ==> val[p] != val[q] && count[val[q]] <= count[val[p]])
    && (forall k :: 0 <= k < |count| && count[k] > 0 ==> k in val[..n])
  }

  /** The sizes leave exactly one code of the largest size unused. */
  ghost predicate OneCodeSpare(l: seq<nat>, m: nat) {
    l != [] ==> AtMost(l, m) && Kraft(l, m) + Pow2(m - l[|l| - 1]) == Pow2(m)
  }

  ghost predicate OptimizedTable(count: seq<nat>, bits: seq<nat>, val: seq<nat>) {
    && |bits| == 1 + MAX_CODE_SIZE && bits[0] == 0
    && ListsByFrequency(count, val, |Sizes(bits)|) && OneCodeSpare(Sizes(bits), MAX_CODE_SIZE)
  }

  /**
   * No code for the counted symbols and one reserved code word, taken to occur once, is cheaper than
   * the sizes of the table and the size that is spare.
   */
  ghost predicate CheapestTable(count: seq<nat>, bits: seq<nat>, val: seq<nat>)
    requires OptimizedTable(count, bits, val)
  {
    var l := Sizes(bits);
    exists k: nat :: 1 <= k <= MAX_CODE_SIZE && Cheapest(Weights(count, val, |l|) + [1], l + [k])
  }

  lemma {:induction false} RecordAt(count: seq<nat>, r: seq<SymFreq>, i: nat)
    requires SortedRecords(count, r) && 0 < i < |r|
    ensures 1 <= r[i].symIndex <= |count| && r[i].key == count[r[i].symIndex - 1] > 0
  {
    assert IsRecord(count, r[i]) && r[i] != r[0];
  }

  lemma {:induction false} RecordPair(count: seq<nat>, r: seq<SymFreq>, i: nat, j: nat)
    requires SortedRecords(count, r) && 0 < i < j < |r|
    ensures r[i].symIndex != r[j].symIndex && r[i].key <= r[j].key
  {
    RecordAt(count, r, i);
    RecordAt(count, r, j);
    assert r[i] != r[j] && Keys(r)[i] <= Keys(r)[j];
  }

  lemma {:induction false} FindRecord(count: seq<nat>, r: seq<SymFreq>, k: nat) returns (j: nat)
    requires SortedRecords(count, r) && k < |count| && count[k] > 0
    ensures 0 < j < |r| && r[j].symIndex == k + 1
  {
    j :| 0 <= j < |r| && r[j] == SymFreq(count[k], k + 1);
  }

  lemma {:induction false} ReverseOfRecords(count: seq<nat>, r: seq<SymFreq>, val: seq<nat>)
    requires SortedRecords(count, r) && 0 < |r| <= |val| + 1
    requires forall k :: 0 <= k < |r| - 1 ==> val[k] + 1 == r[|r| - 1 - k].symIndex
    ensures ListsByFrequency(count, val, |r| - 1)
  {
    hide SortedRecords;
    var n := |r| - 1;
    forall p | 0 <= p < n
      ensures val[p] < |count| && count[val[p]] == r[n - p].key > 0
    {
      RecordAt(count, r, n - p);
    }
    forall p, q | 0 <= p < q < n
      ensures val[p] != val[q] && count[val[q]] <= count[val[p]]
    {
      RecordPair(count, r, n - q, n - p);
    }
    forall k | 0 <= k < |count| && count[k] > 0
      ensures k in val[..n]
    {
      var j := FindRecord(count, r, k);
      assert val[n - j] + 1 == r[j].symIndex;
    }
  }

  lemma {:induction false} HalfIsNotWhole(p: int, z: int)
    requires p > 0
    ensures 2 * p * z != p
  {
    if z >= 1 {
      assert p * z >= p;
    } else {
      assert p * z <= 0;
    }
  }

  /** A complete code has at least two codes of its largest size. */
  lemma {:induction false} LargestSizeTwice(l: seq<nat>, k: nat, m: nat)
    requires 1 <= k <= m && AtMost(l, m) && Kraft(l, m) + Pow2(m - k) == Pow2(m)
    ensures !AtMost(l, k - 1)
  {
    if AtMost(l, k - 1) {
      KraftRescale(l, k - 1, m);
      Pow2Add(m - (k - 1), k - 1);
      assert Pow2(m - (k - 1)) == 2 * Pow2(m - k);
      TooSmallAGap(Pow2(m - k), Pow2(k - 1), Kraft(l, k - 1));
    }
  }

  lemma {:induction false} TooSmallAGap(p: int, x: int, y: int)
    requires p > 0
    ensures 2 * p * y + p != 2 * p * x
  {
    HalfIsNotWhole(p, x - y);
    DistributeDifference(2 * p, x, y);
  }

  lemma {:induction false} DistributeDifference(p: int, x: int, y: int)
    ensures p * (x - y) == p * x - p * y
  {
  }

  lemma {:induction false} SpareAfterDrop(l: seq<nat>, k: nat, m: nat)
    requires AtMost(l + [k], m) && Ascending(l + [k]) && Kraft(l + [k], m) == Pow2(m) && k >= 1
    ensures OneCodeSpare(l, m)
  {
    var lk := l + [k];
    assert lk[|l|] == k && forall i :: 0 <= i < |l| ==> lk[i] == l[i];
    KraftConcat(l, [k], m);
    assert Kraft([k], m) == Pow2(m - k) + Kraft([], m);
    LargestSizeTwice(l, k, m);
    if l != [] {
      assert lk[|l| - 1] <= lk[|l|];
      assert forall i :: 0 <= i < |l| ==> lk[i] <= lk[|l| - 1];
    }
  }

  /** Collects the dummy and the counted symbols. */
  method CollectSymbols(count: array<nat>, tableLen: nat, syms: array<SymFreq>) returns (numUsedSyms: nat)
    requires tableLen <= count.Length && tableLen < syms.Length && (syms as object) != count
    modifies syms
    ensures numUsedSyms <= tableLen + 1 && syms[..numUsedSyms] == [DUMMY] + Used(count[..tableLen], tableLen)
  {
    syms[0] := SymFreq(1, 0);
    numUsedSyms := 1;
    ghost var c := count[..tableLen];
    for i := 0 to tableLen
      invariant numUsedSyms <= i + 1 && syms[..numUsedSyms] == [DUMMY] + Used(c, i)
    {
      assert c[i] == count[i];
      if count[i] > 0 {
        syms[numUsedSyms] := SymFreq(count[i], i + 1);
        numUsedSyms := numUsedSyms + 1;
        assert syms[..numUsedSyms] == syms[..numUsedSyms - 1] + [SymFreq(count[i], i + 1)];
      }
    }
  }

  /** Counts the symbols of each code size. */
  method CountSizes(syms: array<SymFreq>, n: nat) returns (numCodes: array<int>)
    requires n <= syms.Length && AtMost(Keys(syms[..n]), MAX_HUFF_CODESIZE)
    ensures fresh(numCodes) && numCodes.Length == 1 + MAX_HUFF_CODESIZE && IsTally(numCodes[..], Keys(syms[..n]))
  {
    numCodes := new int[1 + MAX_HUFF_CODESIZE](_ => 0);
    ghost var l := Keys(syms[..n]);
    for i := 0 to n
      invariant IsTally(numCodes[..], l[..i])
    {
      assert syms[i].key == l[i] && l[..i + 1][..i] == l[..i];
      numCodes[syms[i].key] := numCodes[syms[i].key] + 1;
    }
    assert l[..n] == l;
  }

  /** Copies the counts of the sizes that a table may have. */
  method CopyCounts(numCodes: array<int>, bits: array<nat>)
    requires numCodes.Length == 1 + MAX_HUFF_CODESIZE && bits.Length == 1 + MAX_CODE_SIZE && bits as object != numCodes
    modifies bits
    ensures bits[0] == 0 && forall j :: 1 <= j <= MAX_CODE_SIZE ==> bits[j] == numCodes[j] % 256
  {
    for i := 0 to bits.Length
      invariant forall j :: 0 <= j < i ==> bits[j] == 0
    {
      bits[i] := 0;
    }
    for i := 1 to MAX_CODE_SIZE + 1
      invariant bits[0] == 0 && forall j :: 1 <= j < i ==> bits[j] == numCodes[j] % 256
    {
      bits[i] := numCodes[i] % 256;
    }
  }

  /**
   * The codes per size as bytes, with the dummy's code taken out of the largest size in use. In a flat table the bytes
   * lose the 256 codes, and what is left goes for the dummy.
   */
  method StoreBits(numCodes: array<int>, bits: array<nat>)
    requires numCodes.Length == 1 + MAX_HUFF_CODESIZE && bits.Length == 1 + MAX_CODE_SIZE && bits as object != numCodes
    requires NonNegative(numCodes[..])
    requires Crowded(numCodes[..], MAX_CODE_SIZE) ==> exists i :: FlatCounts(numCodes[..], i, MAX_CODE_SIZE)
    modifies bits
    ensures bits[0] == 0 && forall i :: 0 <= i <= MAX_CODE_SIZE ==> bits[i] < 256
    ensures Crowded(numCodes[..], MAX_CODE_SIZE) ==> Sizes(bits[..]) == []
    ensures !Crowded(numCodes[..], MAX_CODE_SIZE) && SizeList(numCodes[..], MAX_CODE_SIZE) != [] ==>
      exists k :: 1 <= k <= MAX_CODE_SIZE && SizeList(numCodes[..], MAX_CODE_SIZE) == Sizes(bits[..]) + [k]
  {
    hide SizeList;
    CopyCounts(numCodes, bits);
    ghost var m, c := bits.Length - 1, bits[..];
    BytesOfCounts(numCodes[..], c, m);
    var i := MAX_CODE_SIZE;
    while i >= 1 && bits[i] == 0
      invariant 0 <= i <= m && forall j :: i < j <= m ==> c[j] == 0
    {
      i := i - 1;
    }
    if i >= 1 {
      bits[i] := bits[i] - 1;
      assert bits[..] == c[i := c[i] - 1];
      DropLargest(c, bits[..], i, m);
      if Crowded(numCodes[..], m) {
        AllZero(bits[..], m);
      }
    } else {
      AllZero(c, m);
    }
  }

  lemma {:induction false} BytesOfCounts(c: seq<int>, b: seq<nat>, m: nat)
    requires m < |c| && m < |b| && NonNegative(c) && forall j :: 1 <= j <= m ==> b[j] == c[j] % 256
    requires Crowded(c, m) ==> exists i :: FlatCounts(c, i, m)
    ensures if Crowded(c, m) then b[1] <= 1 && forall j :: 2 <= j <= m ==> b[j] == 0
      else SizeList(b, m) == SizeList(c, m)
  {
    hide SizeList;
    if !Crowded(c, m) {
      SameSizeList(c, b, m);
    }
  }

  lemma {:induction false} AllZero(c: seq<int>, m: nat)
    requires m < |c| && forall j :: 1 <= j <= m ==> c[j] == 0
    ensures SizeList(c, m) == []
  {
    if m > 0 {
      AllZero(c, m - 1);
    }
  }

  /** Lists the symbols from the most to the least frequent, without the dummy in syms[0]. */
  method StoreValues(syms: array<SymFreq>, n: nat, val: array<nat>)
    requires 1 <= n <= syms.Length && n - 1 <= val.Length && val as object != syms
    requires forall i :: 1 <= i < n ==> 1 <= syms[i].symIndex <= 256
    modifies val
    ensures forall k :: 0 <= k < n - 1 ==> val[k] + 1 == syms[n - 1 - k].symIndex
  {
    var i := n - 1;
    while i >= 1
      invariant 0 <= i <= n - 1
      invariant forall k :: 0 <= k < n - 1 - i ==> val[k] + 1 == syms[n - 1 - k].symIndex
    {
      val[n - 1 - i] := (syms[i].symIndex - 1) % 256;
      i := i - 1;
    }
  }

  lemma {:induction false} EntryBelowCount(c: seq<int>, i: nat, m: nat)
    requires 1 <= i <= m < |c| && NonNegative(c)
    ensures c[i] <= CodeCount(c, 0, m)
  {
    if i < m {
      EntryBelowCount(c, i, m - 1);
    } else {
      TotalsNonNegative(c, 0, m - 1);
    }
  }

  /** The codes per size after limiting, for n records. */
  ghost predicate LimitedSizes(c: seq<int>, n: nat, m: nat) {
    && 1 <= m < |c| && NonNegative(c) && |SizeList(c, m)| == n
    && Kraft(SizeList(c, m), m) + (if n == 1 then Pow2(m - 1) else 0) == Pow2(m)
    && forall i :: 1 <= i <= m ==> c[i] <= n
  }

  lemma {:induction false} TallyOfOne(k: nat)
    ensures Tally([1], k) == if k == 1 then 1 else 0
  {
    assert [1][..0] == [];
    assert Tally([1], k) == Tally([], k) + if k == 1 then 1 else 0;
  }

  lemma {:induction false} SizesOfOne(c: seq<int>, l: seq<nat>, m: nat)
    requires 1 <= m < |c| && IsTally(c, l) && l == [1]
    ensures LimitedSizes(c, 1, m)
  {
    hide Tally, SizeList;
    forall k | 0 <= k < |c|
      ensures c[k] == if k == 1 then 1 else 0
    {
      TallyOfOne(k);
    }
    SingleSize(c, m);
    assert Kraft([1], m) == Pow2(m - 1) + Kraft([], m);
  }

  lemma {:induction false} SingleSize(c: seq<int>, m: nat)
    requires 1 <= m < |c| && forall k :: 0 <= k < |c| ==> c[k] == if k == 1 then 1 else 0
    ensures SizeList(c, m) == [1]
  {
    hide SizeList;
    var d := c[1 := c[1] - 1];
    AllZero(d, m);
    DropLargest(c, d, 1, m);
  }

  lemma {:induction false} LimitedSizesFacts(c: seq<int>, n: nat, m: nat)
    requires LimitedSizes(c, n, m)
    ensures NonNegative(c) && |SizeList(c, m)| == n
  {
  }

  lemma {:induction false} SizesOfMany(c: seq<int>, n: nat, m: nat)
    requires 1 <= m < |c| && n >= 2 && NonNegative(c) && CodeCount(c, 0, m) == n && FillsCodeSpace(c, m)
    ensures LimitedSizes(c, n, m)
  {
    KraftOfSizeList(c, m);
    forall i | 1 <= i <= m
      ensures c[i] <= n
    {
      EntryBelowCount(c, i, m);
    }
  }

  /** The two lists that the method stores make up the table. */
  lemma {:induction false} TableIsOptimized(count: seq<nat>, r: seq<SymFreq>, c: seq<int>, bits: seq<nat>,
          val: seq<nat>, m: nat)
    requires m == MAX_CODE_SIZE && |bits| == 1 + m && bits[0] == 0
    requires SortedRecords(count, r) && LimitedSizes(c, |r|, m) && 0 < |r| <= |val| + 1
    requires exists k :: 1 <= k <= m && SizeList(c, m) == Sizes(bits) + [k]
    requires forall k :: 0 <= k < |r| - 1 ==> val[k] + 1 == r[|r| - 1 - k].symIndex
    ensures OptimizedTable(count, bits, val)
  {
    hide Pow2, Kraft, SizeList, SortedRecords, ListsByFrequency, OneCodeSpare;
    ReverseOfRecords(count, r, val);
    var k :| 1 <= k <= m && SizeList(c, m) == Sizes(bits) + [k];
    var l := Sizes(bits);
    if l == [] {
      NothingSpare(m);
    } else {
      SpareAfterDrop(l, k, m);
    }
  }

  lemma {:induction false} DummyInFront(count: seq<nat>, r: seq<SymFreq>)
    requires SortedRecords(count, r)
    ensures r != [] && r[0] == DUMMY
  {
  }

  /** If nothing had to be limited, the table is as cheap as the calculation made it. */
  lemma {:induction false} TableIsCheapest(count: seq<nat>, r: seq<SymFreq>, l: seq<nat>, c: seq<int>, bits: seq<nat>,
          val: seq<nat>, m: nat)
    requires m == MAX_CODE_SIZE && OptimizedTable(count, bits, val) && SortedRecords(count, r)
    requires 0 < |r| <= |val| + 1 && Sum(Keys(r)) == 1 + Sum(count) && LimitedSizes(c, |r|, m)
    requires exists k :: 1 <= k <= m && SizeList(c, m) == Sizes(bits) + [k]
    requires forall k :: 0 <= k < |r| - 1 ==> val[k] + 1 == r[|r| - 1 - k].symIndex
    requires |r| >= 2 ==> OptimalLengths(Keys(r), l)
    requires |r| >= 2 && Sum(Keys(r)) < LIMIT_TOTAL ==> SizeList(c, m) == Reversed(l)
    ensures 0 < Sum(count) < LIMIT_TOTAL - 1 ==> CheapestTable(count, bits, val)
  {
    var w := Keys(r);
    DummyInFront(count, r);
    if |r| == 1 {
      assert w == [1];
      SumOfOne(1);
    } else if Sum(w) < LIMIT_TOTAL {
      LimitedSizesLength(c, |r|, m);
      WeightsReversed(count, r, bits, val);
      hide Sizes, Cheapest, SortedRecords, Sum, SizeList;
      var k :| 1 <= k <= m && SizeList(c, m) == Sizes(bits) + [k];
      CheapestReversed(w, l);
    }
  }

  /**
   * A cheapest table against any prefix code c for its symbols and one reserved word, c[n]: coding every
   * counted symbol and the reserved word once takes no more bits than with c.
   */
  lemma {:induction false} TableBeatsPrefixCodes(count: seq<nat>, bits: seq<nat>, val: seq<nat>, c: seq<seq<bool>>)
    returns (k: nat)
    requires OptimizedTable(count, bits, val) && CheapestTable(count, bits, val)
    requires IsPrefixCode(c) && |c| == |Sizes(bits)| + 1
    ensures var n := |Sizes(bits)|;
      1 <= k && Cost(Weights(count, val, n), Sizes(bits)) + k <= Cost(Weights(count, val, n), Lengths(c[..n])) + |c[n]|
  {
    hide Sizes, Cheapest, IsPrefixCode;
    var n, l := |Sizes(bits)|, Sizes(bits);
    var w := Weights(count, val, n);
    k :| 1 <= k <= MAX_CODE_SIZE && Cheapest(w + [1], l + [k]);
    CheapestBeatsPrefixCodes(w + [1], l + [k], c);
    assert Lengths(c) == Lengths(c[..n]) + [|c[n]|];
    CostOfOneMore(w, l, k);
    CostOfOneMore(w, Lengths(c[..n]), |c[n]|);
  }

  lemma {:induction false} CostOfOneMore(w: seq<nat>, l: seq<nat>, k: nat)
    requires |w| == |l|
    ensures Cost(w + [1], l + [k]) == Cost(w, l) + k
  {
    CostConcat(w, l, [1], [k]);
    TimesIsProduct(1, k);
    assert Cost([1], [k]) == Times(1, k) + Cost([], []);
  }

  lemma {:induction false} LimitedSizesLength(c: seq<int>, n: nat, m: nat)
    requires LimitedSizes(c, n, m)
    ensures |SizeList(c, m)| == n
  {
  }

  /** The records backwards: the symbols of the table, then the dummy. */
  lemma {:induction false} WeightsReversed(count: seq<nat>, r: seq<SymFreq>, bits: seq<nat>, val: seq<nat>)
    requires OptimizedTable(count, bits, val) && SortedRecords(count, r) && |Sizes(bits)| + 1 == |r| <= |val| + 1
    requires forall k :: 0 <= k < |r| - 1 ==> val[k] + 1 == r[|r| - 1 - k].symIndex
    ensures Reversed(Keys(r)) == Weights(count, val, |r| - 1) + [1]
  {
    hide Sizes, SortedRecords;
    var n, w := |r| - 1, Keys(r);
    DummyInFront(count, r);
    forall p | 0 <= p < n
      ensures Reversed(w)[p] == count[val[p]]
    {
      RecordAt(count, r, n - p);
    }
  }

  lemma {:induction false} NothingSpare(m: nat)
    ensures OneCodeSpare([], m)
  {
  }

  /** Collects a record for each symbol that occurs and the dummy, and sorts them by their counts. */
  method SortUsedSymbols(count: array<nat>, tableLen: nat) returns (syms: array<SymFreq>, n: nat)
    requires tableLen <= count.Length <= 256
    requires Sum(count[..tableLen]) + 1 < UINT32_RANGE
    ensures fresh(syms) && 1 <= n <= MAX_HUFF_SYMBOLS && n <= syms.Length && SortedRecords(count[..tableLen], syms[..n])
    ensures StablySorted([DUMMY] + Used(count[..tableLen], tableLen), syms[..n])
    ensures Sum(Keys(syms[..n])) == 1 + Sum(count[..tableLen])
    ensures Ascending(Keys(syms[..n])) && AtLeast(Keys(syms[..n]), 1)
    ensures forall i :: 1 <= i < n ==> 1 <= syms[i].symIndex <= 256
  {
    hide Used, Sum, StablySorted, SortedRecords, Keys;
    var syms0 := new SymFreq[MAX_HUFF_SYMBOLS];
    var syms1 := new SymFreq[MAX_HUFF_SYMBOLS];
    n := CollectSymbols(count, tableLen, syms0);
    ghost var s0 := syms0[..n];
    RecordsBounded(count[..tableLen], s0);
    syms := RadixSortSyms(n, syms0, syms1);
    ghost var r := syms[..n];
    SortingGivesRecords(count[..tableLen], r);
    SortingKeepsTotal(count[..tableLen], r);
    RecordKeys(count[..tableLen], r);
    assert forall i :: 0 <= i < n ==> syms[i] == r[i];
  }

  /**
   * Builds the BITS and HUFFVAL lists of a table from the counts of its first tableLen symbols.
   * The counts must leave the keys and counters of the encoder's arrays in range. If a size gets 256 codes, nothing
   * is listed; otherwise the table is what it should be.
   */
  method OptimizeHuffmanTable(count: array<nat>, tableLen: nat, bits: array<nat>, val: array<nat>)
    requires tableLen <= count.Length <= 256 && bits.Length == 1 + MAX_CODE_SIZE && val.Length == 256
    requires bits != val && bits != count && val != count
    requires CountersSuffice(count[..tableLen])
    modifies bits, val
    ensures if FlatCodes(count[..tableLen]) then Sizes(bits[..]) == []
      else OptimizedTable(count[..tableLen], bits[..], val[..])
    ensures forall i :: 0 <= i <= MAX_CODE_SIZE ==> bits[i] < 256
    ensures !FlatCodes(count[..tableLen]) && 0 < Sum(count[..tableLen]) < LIMIT_TOTAL - 1 ==>
      CheapestTable(count[..tableLen], bits[..], val[..])
  {
    hide Used, Sum, SortedRecords, OptimalLengths, LimitedSizes, SizeList, Sizes, Keys, OptimizedTable, CheapestTable;
    hide Ascending, AtLeast, AtMost, StablySorted, MergeLengths, CountersSuffice, FlatCodes, Flat, Crowded, FlatCounts;
    ghost var c := count[..tableLen];
    KeysFit(c);
    var syms, n := SortUsedSymbols(count, tableLen);
    ghost var r := syms[..n];
    SingleRecord(c, r);
    CalculateMinimumRedundancy(syms, n);
    ghost var l := Keys(syms[..n]);
    if n >= 2 {
      LengthsCounted(c, r, l);
      FlatCodesOf(c, r, l);
    } else {
      SingleNotFlat(c, r);
    }
    var numCodes := SizesAfterLimit(syms, n, Keys(r), l);
    LimitedSizesFacts(numCodes[..], n, MAX_CODE_SIZE);
    StoreBits(numCodes, bits);
    assert forall i :: 0 <= i < n ==> syms[i].symIndex == r[i].symIndex;
    StoreValues(syms, n, val);
    if !Crowded(numCodes[..], MAX_CODE_SIZE) {
      TableIsOptimized(c, r, numCodes[..], bits[..], val[..], MAX_CODE_SIZE);
      TableIsCheapest(c, r, l, numCodes[..], bits[..], val[..], MAX_CODE_SIZE);
    }
  }

  lemma {:induction false} SingleNotFlat(count: seq<nat>, r: seq<SymFreq>)
    requires StablySorted([DUMMY] + Used(count, |count|), r) && |r| == 1
    ensures !FlatCodes(count)
  {
    hide StablySorted, Used;
    SortingGivesRecords(count, r);
    FewNotFlat(count);
  }

  lemma {:induction false} KeysFit(count: seq<nat>)
    requires CountersSuffice(count)
    ensures Sum(count) + 1 < UINT32_RANGE
  {
  }

  lemma {:induction false} LengthsCounted(count: seq<nat>, r: seq<SymFreq>, l: seq<nat>)
    requires CountersSuffice(count) && StablySorted([DUMMY] + Used(count, |count|), r) && OptimalLengths(Keys(r), l)
    ensures AtMost(l, MAX_HUFF_CODESIZE)
  {
    hide StablySorted, Used, MergeLengths, Sum, Keys, LeastTotal, Cheapest, AtMost;
  }

  lemma {:induction false} SingleRecord(count: seq<nat>, r: seq<SymFreq>)
    requires SortedRecords(count, r)
    ensures |r| == 1 ==> r[0].key == 1 && Keys(r) == [1]
  {
    DummyInFront(count, r);
  }

  lemma {:induction false} RecordsBounded(count: seq<nat>, s: seq<SymFreq>)
    requires s == [DUMMY] + Used(count, |count|) && Sum(count) + 1 < UINT32_RANGE
    ensures forall i :: 0 <= i < |s| ==> s[i].key < UINT32_RANGE
  {
    UsedRecords(count, |count|);
    forall i | 0 <= i < |s|
      ensures s[i].key < UINT32_RANGE
    {
      assert s[i] == DUMMY || s[i] in Used(count, |count|);
      assert IsRecord(count, s[i]);
      if s[i] != DUMMY {
        EntryBelowSum(count, s[i].symIndex - 1);
      }
    }
  }

  lemma {:induction false} EntryBelowSum(w: seq<nat>, i: nat)
    requires i < |w|
    ensures w[i] <= Sum(w)
  {
    if i > 0 {
      EntryBelowSum(w[1..], i - 1);
    }
  }

  lemma {:induction false} RecordKeys(count: seq<nat>, r: seq<SymFreq>)
    requires SortedRecords(count, r)
    ensures Ascending(Keys(r)) && AtLeast(Keys(r), 1) && forall i :: 1 <= i < |r| ==> 1 <= r[i].symIndex <= |count|
  {
    forall i | 1 <= i < |r|
      ensures 1 <= r[i].symIndex <= |count| && r[i].key >= 1
    {
      RecordAt(count, r, i);
    }
  }

  method SizesAfterLimit(syms: array<SymFreq>, n: nat, ghost w: seq<nat>, ghost l: seq<nat>)
    returns (numCodes: array<int>)
    requires 1 <= n <= MAX_HUFF_SYMBOLS && n <= syms.Length && l == Keys(syms[..n])
    requires n == 1 ==> syms[0].key == 1
    requires n >= 2 ==> OptimalLengths(w, l) && AtMost(l, MAX_HUFF_CODESIZE)
    ensures fresh(numCodes) && numCodes.Length == 1 + MAX_HUFF_CODESIZE
    ensures LimitedSizes(numCodes[..], n, MAX_CODE_SIZE)
    ensures n >= 2 && Sum(w) < LIMIT_TOTAL ==> SizeList(numCodes[..], MAX_CODE_SIZE) == Reversed(l)
    ensures Crowded(numCodes[..], MAX_CODE_SIZE) <==> n >= 2 && Flat(l)
    ensures Crowded(numCodes[..], MAX_CODE_SIZE) ==> exists i :: FlatCounts(numCodes[..], i, MAX_CODE_SIZE)
  {
    ghost var hi, m := MAX_HUFF_CODESIZE, MAX_CODE_SIZE;
    if n >= 2 {
      LengthsInRange(w, l, hi);
    } else {
      assert l == [1];
    }
    hide OptimalLengths, Kraft, Pow2, KraftTotal, CodeCount, Tally, IsTally, LimitedSizes, SizeList;
    numCodes := CountSizes(syms, n);
    TallyTotals(numCodes[..], l, hi);
    FitsSixteenBits(n, m);
    if n >= 2 && Sum(w) < LIMIT_TOTAL {
      NoneTallied(numCodes[..], l, m);
      TallyLists(numCodes[..], l, m);
    }
    if n == 1 {
      SizesOfOne(numCodes[..], l, m);
    }
    ghost var t := numCodes[..];
    HuffmanEnforceMaxCodeSize(numCodes, n, MAX_CODE_SIZE);
    if n >= 2 {
      SizesOfMany(numCodes[..], n, m);
      CrowdedIffFlat(t, numCodes[..], l, m);
    } else {
      SingleNotCrowded(numCodes[..], n, m);
    }
  }

  lemma {:induction false} SingleNotCrowded(c: seq<int>, n: nat, m: nat)
    requires LimitedSizes(c, n, m) && n < 256
    ensures !Crowded(c, m)
  {
  }

  /** All n codes find room in a code space of m bits; m is a parameter so that Pow2 is not unrolled. */
  lemma {:induction false} FitsSixteenBits(n: nat, m: nat)
    requires n <= MAX_HUFF_SYMBOLS && m == 16
    ensures n <= Pow2(m)
  {
    assert Pow2(9) == 512;
    Pow2Monotone(9, m);
  }
}
