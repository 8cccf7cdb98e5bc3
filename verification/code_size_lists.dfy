/** The list of code sizes that an array of codes per size (the BITS list of a DHT segment) stands for. */
module CodeSizeLists {
  import opened Powers
  import opened CodeLengths
  import opened CodeSizeLimit

  /** Lemmas take it as a parameter, usually m, where its value would make the verifier unroll Pow2 or SizeList. */
  const MAX_CODE_SIZE := 16

  function Repeat(x: nat, n: int): (l: seq<nat>)
    ensures |l| == (if n > 0 then n else 0) && forall i :: 0 <= i < |l| ==> l[i] == x
  {
    if n <= 0 then [] else Repeat(x, n - 1) + [x]
  }

  /** c[1] ones, then c[2] twos, and so on up to c[m]. */
  function SizeList(c: seq<int>, m: nat): (l: seq<nat>)
    requires m < |c|
    ensures forall i :: 0 <= i < |l| ==> 1 <= l[i] <= m
    ensures Ascending(l)
  {
    if m == 0 then [] else SizeList(c, m - 1) + Repeat(m, c[m])
  }

  /** The code sizes that the BITS list of a table gives to its symbols, in order. */
  ghost function Sizes(bits: seq<nat>): seq<nat>
    requires |bits| == 1 + MAX_CODE_SIZE
  {
    SizeList(bits, MAX_CODE_SIZE)
  }

  lemma {:induction false} KraftRepeat(x: nat, n: int, m: nat)
    requires x <= m && n >= 0
    ensures AtMost(Repeat(x, n), m) && Kraft(Repeat(x, n), m) == Times(Pow2(m - x), n)
  {
    if n > 0 {
      KraftRepeat(x, n - 1, m);
      KraftConcat(Repeat(x, n - 1), [x], m);
      assert Kraft([x], m) == Pow2(m - x) + Kraft([], m);
    }
  }

  lemma {:induction false} TimesOne(n: nat)
    ensures Times(1, n) == n
  {
    if n > 0 {
      TimesOne(n - 1);
    }
  }

  /** The two ways of writing the Kraft sum of a table agree. */
  lemma {:induction false} KraftOfSizeList(c: seq<int>, m: nat)
    requires m < |c| && NonNegative(c)
    ensures |SizeList(c, m)| == CodeCount(c, 0, m)
    ensures AtMost(SizeList(c, m), m) && Kraft(SizeList(c, m), m) == KraftTotal(c, m)
  {
    if m > 0 {
      KraftOfSizeList(c, m - 1);
      KraftRescale(SizeList(c, m - 1), m - 1, m);
      KraftRepeat(m, c[m], m);
      TimesOne(c[m]);
      KraftConcat(SizeList(c, m - 1), Repeat(m, c[m]), m);
      assert Pow2(1) == 2 && Pow2(0) == 1;
    }
  }

  lemma {:induction false} SameSizeList(c: seq<int>, d: seq<int>, m: nat)
    requires m < |c| && m < |d| && forall i :: 1 <= i <= m ==> c[i] == d[i]
    ensures SizeList(c, m) == SizeList(d, m)
  {
    if m > 0 {
      SameSizeList(c, d, m - 1);
    }
  }

  /** Taking one code out of the largest used size drops the last entry of the list. */
  lemma {:induction false} DropLargest(c: seq<int>, d: seq<int>, k: nat, m: nat)
    requires 1 <= k <= m < |c| && c[k] > 0 && d == c[k := c[k] - 1]
    requires forall i :: k < i <= m ==> c[i] == 0
    ensures SizeList(c, m) == SizeList(d, m) + [k]
  {
    if k < m {
      DropLargest(c, d, k, m - 1);
      assert Repeat(m, c[m]) == [] && Repeat(m, d[m]) == [];
    } else {
      SameSizeList(c, d, m - 1);
      assert Repeat(m, c[m]) == Repeat(m, d[m]) + [m];
    }
  }
}
