/** Limiting the code sizes of a Huffman table, on the array of codes per size. */
module CodeSizeLimit {
  import opened MachineNumbers
  import opened Powers
  import opened SymbolFrequencies

  const MAX_HUFF_SYMBOLS := 257
  const MAX_HUFF_CODESIZE := 32

  /** The number of codes of sizes lo+1..hi. */
  ghost function CodeCount(c: seq<int>, lo: nat, hi: nat): int
    requires lo <= hi < |c|
  {
    if lo == hi then 0 else CodeCount(c, lo, hi - 1) + c[hi]
  }

  /** The Kraft sum of the codes of sizes 1..m, in units of 2^-m. */
  ghost function KraftTotal(c: seq<int>, m: nat): int
    requires m < |c|
  {
    if m == 0 then 0 else 2 * KraftTotal(c, m - 1) + c[m]
  }

  /** The codes of sizes 1..m use up the code space exactly. */
  ghost predicate FillsCodeSpace(c: seq<int>, m: nat)
    requires m < |c|
  {
    KraftTotal(c, m) == Pow2(m)
  }

  ghost predicate NonNegative(c: seq<int>) {
    forall i :: 0 <= i < |c| ==> c[i] >= 0
  }

  /** The codes of sizes m and above, each weighted with its share of the code space. */
  ghost function KraftTail(c: seq<int>, i: nat, m: nat): int
    requires i <= m + 1 && m < |c|
    decreases m + 1 - i
  {
    if i > m then 0 else c[i] * Pow2(m - i) + KraftTail(c, i + 1, m)
  }

  lemma {:induction false} TailCompletesTotal(c: seq<int>, i: nat, m: nat)
    requires i <= m < |c|
    ensures Pow2(m - i) * KraftTotal(c, i) + KraftTail(c, i + 1, m) == KraftTotal(c, m)
    decreases m - i
  {
    if i < m {
      TailCompletesTotal(c, i + 1, m);
      DoubleShare(Pow2(m - i - 1), KraftTotal(c, i), c[i + 1]);
    }
  }

  lemma {:induction false} DoubleShare(p: int, k: int, x: int)
    ensures p * (2 * k + x) == 2 * p * k + x * p
  {
  }

  lemma {:induction false} TotalsAgree(c: seq<int>, d: seq<int>, m: nat)
    requires m < |c| && m < |d| && forall i :: 1 <= i <= m ==> c[i] == d[i]
    ensures KraftTotal(c, m) == KraftTotal(d, m) && CodeCount(c, 0, m) == CodeCount(d, 0, m)
  {
    if m > 0 {
      TotalsAgree(c, d, m - 1);
    }
  }

  lemma {:induction false} CountSplits(c: seq<int>, m: nat, hi: nat)
    requires m <= hi < |c|
    ensures CodeCount(c, 0, hi) == CodeCount(c, 0, m) + CodeCount(c, m, hi)
  {
    if m < hi {
      CountSplits(c, m, hi - 1);
    }
  }

  lemma {:induction false} TotalsNonNegative(c: seq<int>, lo: nat, m: nat)
    requires lo <= m < |c| && NonNegative(c)
    ensures 0 <= CodeCount(c, 0, m) <= KraftTotal(c, m) && 0 <= CodeCount(c, lo, m)
  {
    if m > 0 {
      TotalsNonNegative(c, if lo < m then lo else m - 1, m - 1);
    }
  }

  /** The share of short codes cannot exceed the share of all codes. */
  lemma {:induction false} ShortShare(c: seq<int>, m: nat, hi: nat)
    requires m <= hi < |c| && NonNegative(c)
    ensures Pow2(hi - m) * KraftTotal(c, m) <= KraftTotal(c, hi)
  {
    if m < hi {
      ShortShare(c, m, hi - 1);
      DoubleShare(Pow2(hi - 1 - m), KraftTotal(c, m), 0);
    }
  }

  /** Counting every code longer than m as one of size m can only raise the Kraft sum. */
  lemma {:induction false} CappedShare(c: seq<int>, m: nat, hi: nat)
    requires m <= hi < |c| && NonNegative(c)
    ensures KraftTotal(c, hi) <= Pow2(hi - m) * (KraftTotal(c, m) + CodeCount(c, m, hi))
  {
    if m < hi {
      CappedShare(c, m, hi - 1);
      var p, x := Pow2(hi - 1 - m), KraftTotal(c, m) + CodeCount(c, m, hi - 1);
      ScaleUp(p, x, c[hi]);
    }
  }

  lemma {:induction false} ScaleUp(p: int, x: int, y: int)
    requires p >= 1 && y >= 0
    ensures 2 * p * (x + y) >= 2 * (p * x) + y
  {
    assert p * y >= y;
    assert p * (x + y) == p * x + p * y;
  }

  lemma {:induction false} TotalBound(c: seq<int>, m: nat)
    requires m < |c| && NonNegative(c)
    ensures KraftTotal(c, m) <= CodeCount(c, 0, m) * Pow2(m)
  {
    if m > 0 {
      TotalBound(c, m - 1);
      TotalsNonNegative(c, 0, m - 1);
      ScaleUp(Pow2(m - 1), CodeCount(c, 0, m - 1), c[m]);
    }
  }

  /** The entries of c that a split of size i (and one code of size m dropped) leaves behind. */
  ghost function SplitCode(c: seq<int>, i: nat, m: nat): (c': seq<int>)
    requires 0 < i < m < |c|
    ensures |c'| == |c|
  {
    var d := c[m := c[m] - 1];
    var e := d[i := d[i] - 1];
    e[i + 1 := e[i + 1] + 2]
  }

  /** Splitting a shorter code and dropping one of size m keeps the number of codes and lowers the
      Kraft sum by one unit; the share of the sizes below m does not grow. */
  lemma {:induction false} SplitEffect(c: seq<int>, i: nat, m: nat)
    requires 0 < i < m < |c|
    ensures CodeCount(SplitCode(c, i, m), 0, m) == CodeCount(c, 0, m)
    ensures KraftTotal(SplitCode(c, i, m), m) == KraftTotal(c, m) - 1
    ensures KraftTotal(SplitCode(c, i, m), m - 1) <= KraftTotal(c, m - 1)
  {
    SplitPrefix(c, i, m, m - 1);
  }

  lemma {:induction false} SplitPrefix(c: seq<int>, i: nat, m: nat, k: nat)
    requires 0 < i < m < |c| && i <= k < m
    ensures var d := SplitCode(c, i, m);
      && CodeCount(d, 0, k) == CodeCount(c, 0, k) + (if k == i then -1 else 1)
      && KraftTotal(d, k) == KraftTotal(c, k) + (if k == i then -1 else 0)
  {
    var d := SplitCode(c, i, m);
    if k == i {
      TotalsAgree(c, d, i - 1);
    } else {
      SplitPrefix(c, i, m, k - 1);
    }
  }

  /** What the limiting loop keeps: all codes are there, none counted below zero, and the codes
      shorter than m leave room for a full code of size m. */
  ghost predicate Limiting(c: seq<int>, m: nat, n: int, total: int)
    requires 1 <= m < |c|
  {
    && NonNegative(c) && CodeCount(c, 0, m) == n
    && total == KraftTotal(c, m) >= Pow2(m) && 2 * KraftTotal(c, m - 1) <= Pow2(m)
  }

  lemma {:induction false} CapEntersLoop(c: seq<int>, d: seq<int>, m: nat, n: int)
    requires 1 <= m < |c| == |d| && NonNegative(c)
    requires CodeCount(c, 0, |c| - 1) == n && FillsCodeSpace(c, |c| - 1)
    requires d == c[m := c[m] + CodeCount(c, m, |c| - 1)]
    ensures NonNegative(d) && CodeCount(d, 0, m) == n && Limiting(d, m, n, KraftTotal(d, m))
  {
    var hi := |c| - 1;
    CountSplits(c, m, hi);
    TotalsNonNegative(c, m, hi);
    TotalsAgree(c, d, m - 1);
    CappedShare(c, m, hi);
    ShortShare(c, m - 1, hi);
    Pow2Add(hi - m, m);
    CancelFactor(Pow2(hi - m), Pow2(m), KraftTotal(d, m));
    Pow2Add(hi - m + 1, m - 1);
    CancelFactor(Pow2(hi - m + 1), KraftTotal(c, m - 1), Pow2(m - 1));
  }

  // What is left of the longest codes.

  /** If there are longer codes, the share of the short ones is smaller than that of all. */
  lemma {:induction false} ShortShareStrict(c: seq<int>, m: nat, hi: nat)
    requires m <= hi < |c| && NonNegative(c) && CodeCount(c, m, hi) > 0
    ensures Pow2(hi - m) * KraftTotal(c, m) < KraftTotal(c, hi)
  {
    hide KraftTotal, Pow2;
    DoubleShare(Pow2(hi - 1 - m), KraftTotal(c, m), 0);
    TotalStep(c, hi);
    Pow2Step(hi - m);
    if CodeCount(c, m, hi - 1) > 0 {
      ShortShareStrict(c, m, hi - 1);
    } else {
      ShortShare(c, m, hi - 1);
    }
  }

  /** Without codes of the sizes above i, the shares only change their unit. */
  lemma {:induction false} ShareScales(c: seq<int>, i: nat, m: nat)
    requires i <= m < |c| && forall j :: i < j <= m ==> c[j] == 0
    ensures KraftTotal(c, m) == Pow2(m - i) * KraftTotal(c, i) && CodeCount(c, 0, m) == CodeCount(c, 0, i)
  {
    if i < m {
      ShareScales(c, i, m - 1);
      DoubleShare(Pow2(m - 1 - i), KraftTotal(c, i), 0);
    }
  }

  /**
   * With no more than 257 codes, a code that is split is not shorter than m - 7 bits: the room that shorter ones leave
   * takes more codes of size m than there are.
   */
  lemma {:induction false} SplitIsLong(c: seq<int>, i: nat, m: nat, n: int, total: int)
    requires 8 <= m < |c| && Limiting(c, m, n, total) && n <= MAX_HUFF_SYMBOLS && LongestBelow(c, i, m)
    requires total != Pow2(m) && 2 * KraftTotal(c, m - 1) < Pow2(m)
    ensures i >= m - 7
  {
    hide KraftTotal, Pow2, CodeCount;
    if i < m - 7 {
      ShareScales(c, i, m - 1);
      assert KraftTotal(c, m) == 2 * KraftTotal(c, m - 1) + c[m] by { TotalStep(c, m); }
      Pow2Add(m - 1 - i, i);
      Pow2Step(m);
      RoomLeft(Pow2(m - 1 - i), KraftTotal(c, i), Pow2(i));
      Pow2Monotone(7, m - 1 - i);
      assert Pow2(7) == 128 by { SevenBits(7); }
      TotalStep(c, m);
      TotalsNonNegative(c, 0, i - 1);
      TotalStep(c, i);
    }
  }

  lemma {:induction false} TotalStep(c: seq<int>, m: nat)
    requires 1 <= m < |c|
    ensures KraftTotal(c, m) == 2 * KraftTotal(c, m - 1) + c[m] && CodeCount(c, 0, m) == CodeCount(c, 0, m - 1) + c[m]
  {
  }

  lemma {:induction false} Pow2Step(m: nat)
    requires m >= 1
    ensures Pow2(m) == 2 * Pow2(m - 1)
  {
  }

  lemma {:induction false} SevenBits(n: nat)
    requires n == 7
    ensures Pow2(n) == 128
  {
    assert Pow2(3) == 8 && Pow2(4) == 16;
    Pow2Add(3, 4);
  }

  lemma {:induction false} CancelStrict(p: int, x: int, y: int)
    requires p >= 1 && p * x < p * y
    ensures x < y
  {
    if x > y {
      ScaleStrictly(p, y, x);
    }
  }

  lemma {:induction false} SumScaled(p: int, x: int, d: int)
    requires p >= 1 && d >= 0
    ensures p * (x + d) == p * x + p * d && p * d >= 0
  {
  }

  /** A multiple of p below p * q is below it by p at least. */
  lemma {:induction false} RoomLeft(p: int, x: int, q: int)
    requires p >= 1 && p * x < p * q
    ensures p * x <= p * q - p
  {
    CancelStrict(p, x, q);
    SumScaled(p, x, q - x);
    SumScaled(p, 1, q - x - 1);
  }

  /** The number of codes longer than m - 7 bits does not fall. */
  lemma {:induction false} LongOnesStay(c: seq<int>, i: nat, m: nat)
    requires 8 <= m < |c| && m - 7 <= i < m
    ensures CodeCount(SplitCode(c, i, m), m - 7, m) >= CodeCount(c, m - 7, m)
  {
    var d := SplitCode(c, i, m);
    SplitEffect(c, i, m);
    CountSplits(c, m - 7, m);
    CountSplits(d, m - 7, m);
    if i == m - 7 {
      SplitPrefix(c, i, m, i);
    } else {
      TotalsAgree(c, d, m - 7);
    }
  }

  /** No code is longer than m. */
  ghost predicate NoneBeyond(c: seq<int>, m: nat) {
    forall i :: m < i < |c| ==> c[i] == 0
  }

  lemma {:induction false} CountBeyond(c: seq<int>, m: nat, hi: nat)
    requires m <= hi < |c| && NoneBeyond(c, m)
    ensures CodeCount(c, m, hi) == 0
  {
    if m < hi {
      CountBeyond(c, m, hi - 1);
    }
  }

  /** A complete code without longer codes is complete in units of 2^-m, too. */
  lemma {:induction false} NothingToLimit(c: seq<int>, m: nat)
    requires 1 <= m < |c| && NonNegative(c) && NoneBeyond(c, m) && FillsCodeSpace(c, |c| - 1)
    ensures CodeCount(c, m, |c| - 1) == 0 && KraftTotal(c, m) == Pow2(m)
  {
    hide KraftTotal, CodeCount, Pow2;
    var hi := |c| - 1;
    CountBeyond(c, m, hi);
    ShortShare(c, m, hi);
    CappedShare(c, m, hi);
    Pow2Add(hi - m, m);
    assert Pow2(hi - m) * KraftTotal(c, m) == Pow2(hi - m) * Pow2(m);
    CancelFactor(Pow2(hi - m), KraftTotal(c, m), Pow2(m));
    CancelFactor(Pow2(hi - m), Pow2(m), KraftTotal(c, m));
  }

  lemma {:induction false} CancelFactor(p: int, x: int, y: int)
    requires p >= 1 && p * x <= p * y
    ensures x <= y
  {
    if x > y {
      ScaleStrictly(p, y, x);
    }
  }

  lemma {:induction false} ScaleStrictly(p: int, x: int, y: int)
    requires p >= 1 && x < y
    ensures p * x < p * y
  {
    assert p * (y - x) >= 1;
  }

  /** While the Kraft sum is too large there is a code of size m, and a shorter one to split. */
  lemma {:induction false} CanSplit(c: seq<int>, m: nat, n: int, total: int)
    requires 1 <= m < |c| && Limiting(c, m, n, total) && total != Pow2(m) && n <= Pow2(m)
    ensures c[m] > 0 && exists i :: 0 < i < m && c[i] != 0
  {
    if forall i :: 0 < i < m ==> c[i] == 0 {
      NoShortCodes(c, m - 1);
    }
  }

  lemma {:induction false} NoShortCodes(c: seq<int>, k: nat)
    requires k < |c| && forall i :: 0 < i <= k ==> c[i] == 0
    ensures CodeCount(c, 0, k) == 0 && KraftTotal(c, k) == 0
  {
    if k > 0 {
      NoShortCodes(c, k - 1);
    }
  }

  lemma {:induction false} SplitKeepsLimiting(c: seq<int>, i: nat, m: nat, n: int, total: int)
    requires 0 <= i < m < |c| && Limiting(c, m, n, total) && total != Pow2(m) && n <= Pow2(m)
    requires (i > 0 ==> c[i] != 0) && forall j :: i < j < m ==> c[j] == 0
    ensures i > 0 && total >= 1 && Limiting(SplitCode(c, i, m), m, n, total - 1)
  {
    CanSplit(c, m, n, total);
    SplitEffect(c, i, m);
  }

  /** The codes per size with every code longer than m counted as one of size m. */
  ghost function Capped(c: seq<int>, m: nat): (d: seq<int>)
    requires m < |c|
    ensures |d| == |c|
  {
    c[m := c[m] + CodeCount(c, m, |c| - 1)]
  }

  /** Size i is the largest below m that has a code. */
  ghost predicate LongestBelow(c: seq<int>, i: nat, m: nat)
    requires m < |c|
  {
    0 < i < m && c[i] != 0 && forall j :: i < j < m ==> c[j] == 0
  }

  /** d comes from c by k splits, each of a code of the largest size below m. */
  ghost predicate SplitTimes(c: seq<int>, d: seq<int>, m: nat, k: nat)
    requires m < |c|
    decreases k
  {
    |d| == |c|
    && if k == 0 then d == c
       else exists e: seq<int>, i: nat :: SplitTimes(c, e, m, k - 1) && LongestBelow(e, i, m) && d == SplitCode(e, i, m)
  }

  /**
   * Limits the sizes of a complete code of codeListLen symbols to maxCodeSize: longer codes are first
   * counted as being of that size, then shorter codes are split until the Kraft sum is exact again.
   */
  method HuffmanEnforceMaxCodeSize(numCodes: array<int>, codeListLen: int, maxCodeSize: nat)
    requires numCodes.Length == 1 + MAX_HUFF_CODESIZE && 1 <= maxCodeSize <= 16 && NonNegative(numCodes[..])
    requires codeListLen == CodeCount(numCodes[..], 0, numCodes.Length - 1)
    requires codeListLen <= MAX_HUFF_SYMBOLS && codeListLen <= Pow2(maxCodeSize)
    requires codeListLen > 1 ==> FillsCodeSpace(numCodes[..], numCodes.Length - 1)
    modifies numCodes
    ensures codeListLen <= 1 ==> numCodes[..] == old(numCodes[..])
    ensures codeListLen > 1 ==>
      && NonNegative(numCodes[..]) && CodeCount(numCodes[..], 0, maxCodeSize) == codeListLen
      && FillsCodeSpace(numCodes[..], maxCodeSize)
    ensures codeListLen > 1 ==>
      exists k :: SplitTimes(Capped(old(numCodes[..]), maxCodeSize), numCodes[..], maxCodeSize, k)
    ensures NoneBeyond(old(numCodes[..]), maxCodeSize) ==> numCodes[..] == old(numCodes[..])
    ensures codeListLen > 1 && maxCodeSize >= 8 && !NoneBeyond(old(numCodes[..]), maxCodeSize) ==>
      CodeCount(numCodes[..], maxCodeSize - 7, maxCodeSize) > 0
  {
    if codeListLen <= 1 {
      return;
    }
    hide FillsCodeSpace, KraftTotal, Pow2, Limiting, NoneBeyond, CodeCount, Capped, SplitTimes, LongestBelow;
    hide LimitState, SplitCode;
    ghost var c := numCodes[..];
    CapSizes(numCodes, maxCodeSize);
    LimitStarts(c, maxCodeSize, codeListLen);
    var total := SumOfShares(numCodes, maxCodeSize, codeListLen);
    ghost var k := 0;
    while total != Pow2(maxCodeSize)
      invariant total >= 0 && LimitState(c, numCodes[..], maxCodeSize, codeListLen, total, k)
      decreases total
    {
      ghost var d := numCodes[..];
      StateLimiting(c, d, maxCodeSize, codeListLen, total, k);
      ghost var i := SplitShorterCode(numCodes, maxCodeSize, codeListLen, total);
      LimitGoesOn(c, d, i, maxCodeSize, codeListLen, total, k);
      k := k + 1;
      total := total - 1;
    }
    LimitReached(c, numCodes[..], maxCodeSize, codeListLen, total, k);
  }

  /** After k splits: what the loop has made of the counts c. */
  ghost predicate LimitState(c: seq<int>, d: seq<int>, m: nat, n: int, total: int, k: nat)
    requires 1 <= m < |c|
  {
    && |d| == |c| && SplitTimes(Capped(c, m), d, m, k) && Limiting(d, m, n, total)
    && if NoneBeyond(c, m) then d == c && total == Pow2(m) else m >= 8 ==> SomeLong(d, m)
  }

  lemma {:induction false} LimitStarts(c: seq<int>, m: nat, n: int)
    requires 1 <= m < |c| && NonNegative(c) && CodeCount(c, 0, |c| - 1) == n && FillsCodeSpace(c, |c| - 1)
    ensures var d := Capped(c, m);
      NonNegative(d) && CodeCount(d, 0, m) == n && LimitState(c, d, m, n, KraftTotal(d, m), 0)
  {
    hide KraftTotal, Pow2, FillsCodeSpace, CodeCount, Capped, NoneBeyond, SomeLong, Limiting;
    CappedFacts(c, m, n);
    if m >= 8 && !NoneBeyond(c, m) {
      CappedLong(c, m);
    }
  }

  lemma {:induction false} StateLimiting(c: seq<int>, d: seq<int>, m: nat, n: int, total: int, k: nat)
    requires 1 <= m < |c| && LimitState(c, d, m, n, total, k)
    ensures |d| == |c| && Limiting(d, m, n, total)
  {
  }

  lemma {:induction false} LimitGoesOn(c: seq<int>, d: seq<int>, i: nat, m: nat, n: int, total: int, k: nat)
    requires 1 <= m < |c| && n <= MAX_HUFF_SYMBOLS && LimitState(c, d, m, n, total, k) && total != Pow2(m)
    requires LongestBelow(d, i, m) && Limiting(SplitCode(d, i, m), m, n, total - 1)
    ensures LimitState(c, SplitCode(d, i, m), m, n, total - 1, k + 1)
  {
    hide KraftTotal, Pow2, CodeCount, Capped, NoneBeyond, SomeLong, Limiting, SplitTimes, SplitCode;
    OneMoreSplit(Capped(c, m), d, SplitCode(d, i, m), m, k, i);
    if m >= 8 && !NoneBeyond(c, m) {
      SplitLeavesLong(d, i, m, n, total);
    }
  }

  /** There are codes longer than m - 7 bits, and the short ones leave room for them. */
  ghost predicate SomeLong(c: seq<int>, m: nat)
    requires 8 <= m < |c|
  {
    CodeCount(c, m - 7, m) > 0 && 2 * KraftTotal(c, m - 1) < Pow2(m)
  }

  lemma {:induction false} CappedLong(c: seq<int>, m: nat)
    requires 8 <= m < |c| && NonNegative(c) && FillsCodeSpace(c, |c| - 1) && !NoneBeyond(c, m)
    ensures SomeLong(Capped(c, m), m)
  {
    hide KraftTotal, Pow2;
    var hi, d := |c| - 1, Capped(c, m);
    SomeBeyond(c, m, hi);
    CountFrom(c, m - 1, m, hi);
    TotalsAgree(c, d, m - 1);
    ShortShareStrict(c, m - 1, hi);
    Pow2Add(hi - (m - 1), m - 1);
    Pow2Step(m);
    CancelStrict(Pow2(hi - (m - 1)), KraftTotal(c, m - 1), Pow2(m - 1));
    CountNonNegative(d, m - 7, m - 1);
  }

  lemma {:induction false} SomeBeyond(c: seq<int>, m: nat, hi: nat)
    requires m <= hi < |c| && NonNegative(c) && exists i :: m < i <= hi && c[i] != 0
    ensures CodeCount(c, m, hi) > 0
  {
    CountNonNegative(c, m, hi - 1);
    if c[hi] == 0 {
      SomeBeyond(c, m, hi - 1);
    }
  }

  lemma {:induction false} CountNonNegative(c: seq<int>, lo: nat, hi: nat)
    requires lo <= hi < |c| && forall i :: lo < i <= hi ==> c[i] >= 0
    ensures CodeCount(c, lo, hi) >= 0
  {
    if lo < hi {
      CountNonNegative(c, lo, hi - 1);
    }
  }

  lemma {:induction false} CountFrom(c: seq<int>, lo: nat, m: nat, hi: nat)
    requires lo <= m <= hi < |c|
    ensures CodeCount(c, lo, hi) == CodeCount(c, lo, m) + CodeCount(c, m, hi)
  {
    if m < hi {
      CountFrom(c, lo, m, hi - 1);
    }
  }

  lemma {:induction false} SplitLeavesLong(c: seq<int>, i: nat, m: nat, n: int, total: int)
    requires 8 <= m < |c| && Limiting(c, m, n, total) && n <= MAX_HUFF_SYMBOLS && LongestBelow(c, i, m)
    requires total != Pow2(m) && SomeLong(c, m)
    ensures SomeLong(SplitCode(c, i, m), m)
  {
    hide KraftTotal, Pow2, CodeCount, Limiting;
    SplitIsLong(c, i, m, n, total);
    LongOnesStay(c, i, m);
    SplitEffect(c, i, m);
  }

  /** Counts the codes longer than maxCodeSize as being of that size. */
  method CapSizes(numCodes: array<int>, maxCodeSize: nat)
    requires numCodes.Length == 1 + MAX_HUFF_CODESIZE && maxCodeSize < numCodes.Length
    modifies numCodes
    ensures numCodes[..] == Capped(old(numCodes[..]), maxCodeSize)
  {
    ghost var c := numCodes[..];
    for i := maxCodeSize + 1 to MAX_HUFF_CODESIZE + 1
      invariant numCodes[..] == c[maxCodeSize := c[maxCodeSize] + CodeCount(c, maxCodeSize, i - 1)]
    {
      numCodes[maxCodeSize] := numCodes[maxCodeSize] + numCodes[i];
    }
  }

  /** The capped counts before the first split. */
  lemma {:induction false} CappedFacts(c: seq<int>, m: nat, n: int)
    requires 1 <= m < |c| && NonNegative(c) && CodeCount(c, 0, |c| - 1) == n && FillsCodeSpace(c, |c| - 1)
    ensures var d := Capped(c, m);
      && NonNegative(d) && CodeCount(d, 0, m) == n && Limiting(d, m, n, KraftTotal(d, m)) && SplitTimes(d, d, m, 0)
      && (NoneBeyond(c, m) ==> d == c && KraftTotal(d, m) == Pow2(m))
  {
    hide KraftTotal, Pow2, FillsCodeSpace, CodeCount;
    var d := Capped(c, m);
    CapEntersLoop(c, d, m, n);
    if NoneBeyond(c, m) {
      NothingToLimit(c, m);
      assert d == c;
    }
  }

  /**
   * Takes one code of the largest size and the longest shorter code, and puts two codes one bit longer than that in
   * their place.
   */
  method SplitShorterCode(numCodes: array<int>, maxCodeSize: nat, ghost codeListLen: int, ghost total: int)
    returns (ghost size: nat)
    requires 1 <= maxCodeSize < numCodes.Length && codeListLen <= Pow2(maxCodeSize)
    requires Limiting(numCodes[..], maxCodeSize, codeListLen, total) && total != Pow2(maxCodeSize)
    modifies numCodes
    ensures LongestBelow(old(numCodes[..]), size, maxCodeSize)
    ensures numCodes[..] == SplitCode(old(numCodes[..]), size, maxCodeSize)
    ensures 0 < size < maxCodeSize && old(numCodes[..])[size] != 0 && numCodes[size] == old(numCodes[..])[size] - 1
    ensures forall j :: size < j < maxCodeSize ==> old(numCodes[..])[j] == 0
    ensures if size + 1 == maxCodeSize then numCodes[maxCodeSize] == old(numCodes[maxCodeSize]) + 1
      else numCodes[size + 1] == 2 && numCodes[maxCodeSize] == old(numCodes[maxCodeSize]) - 1
    ensures total >= 1 && Limiting(numCodes[..], maxCodeSize, codeListLen, total - 1)
  {
    hide Pow2, Limiting;
    ghost var d := numCodes[..];
    numCodes[maxCodeSize] := numCodes[maxCodeSize] - 1;
    var i := maxCodeSize - 1;
    while i > 0 && numCodes[i] == 0
      invariant 0 <= i < maxCodeSize
      invariant forall j :: i < j < maxCodeSize ==> d[j] == 0
    {
      i := i - 1;
    }
    SplitKeepsLimiting(d, i, maxCodeSize, codeListLen, total);
    if i > 0 {
      numCodes[i] := numCodes[i] - 1;
      numCodes[i + 1] := numCodes[i + 1] + 2;
    }
    size := i;
    assert numCodes[..] == SplitCode(d, size, maxCodeSize);
  }

  lemma {:induction false} OneMoreSplit(c: seq<int>, d: seq<int>, d': seq<int>, m: nat, k: nat, i: nat)
    requires m < |c| && SplitTimes(c, d, m, k) && |d| == |c| && LongestBelow(d, i, m) && d' == SplitCode(d, i, m)
    ensures SplitTimes(c, d', m, k + 1)
  {
  }

  lemma {:induction false} LimitReached(c: seq<int>, d: seq<int>, m: nat, n: int, total: int, k: nat)
    requires 1 <= m < |c| && LimitState(c, d, m, n, total, k) && total == Pow2(m)
    ensures NonNegative(d) && CodeCount(d, 0, m) == n && FillsCodeSpace(d, m)
    ensures exists j :: SplitTimes(Capped(c, m), d, m, j)
    ensures if NoneBeyond(c, m) then d == c else m >= 8 ==> CodeCount(d, m - 7, m) > 0
  {
    hide KraftTotal, CodeCount, Capped, NoneBeyond, SplitTimes;
  }

  method SumOfShares(numCodes: array<int>, maxCodeSize: nat, ghost n: int) returns (total: int)
    requires 1 <= maxCodeSize <= 16 && maxCodeSize < numCodes.Length
    requires NonNegative(numCodes[..]) && CodeCount(numCodes[..], 0, maxCodeSize) == n <= MAX_HUFF_SYMBOLS
    ensures total == KraftTotal(numCodes[..], maxCodeSize)
  {
    ghost var c := numCodes[..];
    total := 0;
    var i := maxCodeSize;
    TotalBound(c, maxCodeSize);
    while i > 0
      invariant 0 <= i <= maxCodeSize && total == KraftTail(c, i + 1, maxCodeSize)
    {
      TailBelowTotal(c, i, maxCodeSize, n);
      total := Add32(total, numCodes[i] * Pow2(maxCodeSize - i));
      i := i - 1;
    }
    TailCompletesTotal(c, 0, maxCodeSize);
  }

  /** No partial sum of shares leaves 32 bits. */
  lemma {:induction false} TailBelowTotal(c: seq<int>, i: nat, m: nat, n: int)
    requires 1 <= i <= m < |c| && m <= 16 && NonNegative(c) && CodeCount(c, 0, m) == n <= MAX_HUFF_SYMBOLS
    ensures 0 <= KraftTail(c, i + 1, m) && 0 <= c[i] * Pow2(m - i)
    ensures KraftTail(c, i + 1, m) + c[i] * Pow2(m - i) < UINT32_RANGE
  {
    TailNonNegative(c, i + 1, m);
    TailNonNegative(c, i, m);
    TotalsNonNegative(c, 0, i - 1);
    TailCompletesTotal(c, i - 1, m);
    TailTermBound(Pow2(m - (i - 1)), KraftTotal(c, i - 1), c[i], Pow2(m - i));
    assert KraftTail(c, i, m) <= KraftTotal(c, m);
    TotalBound(c, m);
    Pow2Monotone(m, 16);
    assert Pow2(16) == 0x1_0000 by { assert Pow2(8) == 256; Pow2Add(8, 8); }
    TotalsNonNegative(c, 0, m);
    ScaleBound(n, Pow2(m));
  }

  lemma {:induction false} TailTermBound(p: int, k: int, x: int, q: int)
    requires p >= 0 && k >= 0 && x >= 0 && q >= 0
    ensures p * k >= 0 && x * q >= 0
  {
  }

  lemma {:induction false} ScaleBound(n: int, p: int)
    requires 0 <= n <= 257 && 0 <= p <= 0x1_0000
    ensures n * p <= 257 * 0x1_0000
  {
    assert n * p <= 257 * p;
  }

  lemma {:induction false} TailNonNegative(c: seq<int>, i: nat, m: nat)
    requires i <= m + 1 && m < |c| && NonNegative(c)
    ensures KraftTail(c, i, m) >= 0
    decreases m + 1 - i
  {
    if i <= m {
      TailNonNegative(c, i + 1, m);
    }
  }
}
