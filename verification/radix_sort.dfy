/** The byte-wise radix sort of the JPEG encoder's table optimiser. */
module RadixSort {
  import opened MachineNumbers
  import opened CodeLengths
  import opened SymbolFrequencies

  const PASSES := 4

  /** 256 to the power p: a key below Base(p) has only its low p bytes set. */
  function Base(p: nat): (b: nat)
    requires p <= PASSES
    ensures b > 0
  {
    if p == 0 then 1
    else if p == 1 then 0x100
    else if p == 2 then 0x1_0000
    else if p == 3 then 0x100_0000
    else 0x1_0000_0000
  }

  /** Byte p of a key. */
  function Digit(key: nat, p: nat): (d: nat)
    requires p < PASSES
    ensures d < 256
  {
    if p == 0 then key % 0x100 else if p == 1 then key / 0x100 % 0x100
    else if p == 2 then key / 0x1_0000 % 0x100 else key / 0x100_0000 % 0x100
  }

  // Sub-sequences by digit and by key. The recursion peels the last element, as the loops append.

  ghost function WithDigit(s: seq<SymFreq>, p: nat, d: nat): (r: seq<SymFreq>)
    requires p < PASSES
    ensures |r| <= |s|
  {
    if s == [] then []
    else
      var x := s[|s| - 1];
      WithDigit(s[..|s| - 1], p, d) + if Digit(x.key, p) == d then [x] else []
  }

  ghost function WithKey(s: seq<SymFreq>, v: nat): seq<SymFreq> {
    if s == [] then []
    else
      var x := s[|s| - 1];
      WithKey(s[..|s| - 1], v) + if x.key == v then [x] else []
  }

  /** The elements whose digit is below m, grouped by digit. */
  ghost function Buckets(s: seq<SymFreq>, p: nat, m: nat): seq<SymFreq>
    requires p < PASSES
  {
    if m == 0 then [] else Buckets(s, p, m - 1) + WithDigit(s, p, m - 1)
  }

  /** All elements, grouped by digit p: what one pass of the sort produces. */
  ghost function Grouped(s: seq<SymFreq>, p: nat): seq<SymFreq>
    requires p < PASSES
  {
    Buckets(s, p, 256)
  }

  /** r lists the records of s by ascending key, records with equal keys in the order they have in s. */
  ghost predicate StablySorted(s: seq<SymFreq>, r: seq<SymFreq>) {
    Ascending(Keys(r)) && SameOrder(s, r)
  }

  ghost predicate SameOrder(s: seq<SymFreq>, r: seq<SymFreq>) {
    forall v :: WithKey(r, v) == WithKey(s, v)
  }

  lemma {:induction false} KeyPresent(s: seq<SymFreq>, v: nat)
    ensures WithKey(s, v) != [] ==> exists i :: 0 <= i < |s| && s[i].key == v
  {
    if s != [] && s[|s| - 1].key != v {
      KeyPresent(s[..|s| - 1], v);
    }
  }

  /** There is only one stable ascending arrangement. */
  lemma {:induction false} StableSortUnique(s: seq<SymFreq>, r: seq<SymFreq>, r': seq<SymFreq>)
    requires StablySorted(s, r) && StablySorted(s, r')
    ensures r == r'
    decreases |r|
  {
    hide WithKey;
    assert forall v :: WithKey(r, v) == WithKey(r', v);
    NothingSorted(r, r');
    NothingSorted(r', r);
    if r != [] {
      SameLast(r, r');
      var t, t' := r[..|r| - 1], r'[..|r'| - 1];
      WithoutLastSorted(r, r');
      StableSortUnique(t', t, t');
      assert r == t + [r[|r| - 1]] && r' == t' + [r'[|r'| - 1]];
    }
  }

  lemma {:induction false} NothingSorted(r: seq<SymFreq>, r': seq<SymFreq>)
    requires forall v :: WithKey(r, v) == WithKey(r', v)
    ensures r == [] ==> r' == []
  {
    if r' != [] {
      LastWithKey(r');
      assert WithKey(r, r'[|r'| - 1].key) != [];
    }
  }

  lemma {:induction false} SameLast(r: seq<SymFreq>, r': seq<SymFreq>)
    requires r != [] && r' != [] && Ascending(Keys(r)) && Ascending(Keys(r'))
    requires forall v :: WithKey(r, v) == WithKey(r', v)
    ensures r[|r| - 1] == r'[|r'| - 1]
  {
    LastIsGreatest(r, r');
    LastIsGreatest(r', r);
    var x := r[|r| - 1].key;
    LastWithKey(r);
    LastWithKey(r');
    assert WithKey(r, x) == WithKey(r', x);
  }

  lemma {:induction false} LastWithKey(r: seq<SymFreq>)
    requires r != []
    ensures var q := WithKey(r, r[|r| - 1].key); q != [] && q[|q| - 1] == r[|r| - 1]
  {
  }

  lemma {:induction false} LastIsGreatest(r: seq<SymFreq>, r': seq<SymFreq>)
    requires r != [] && r' != [] && Ascending(Keys(r')) && forall v :: WithKey(r, v) == WithKey(r', v)
    ensures r[|r| - 1].key <= r'[|r'| - 1].key
  {
    hide WithKey;
    var x := r[|r| - 1].key;
    LastWithKey(r);
    assert WithKey(r, x) == WithKey(r', x);
    KeyPresent(r', x);
    var i :| 0 <= i < |r'| && r'[i].key == x;
    assert Keys(r')[i] <= Keys(r')[|r'| - 1];
  }

  lemma {:induction false} WithoutLastSorted(r: seq<SymFreq>, r': seq<SymFreq>)
    requires r != [] && r' != [] && r[|r| - 1] == r'[|r'| - 1] && Ascending(Keys(r)) && Ascending(Keys(r'))
    requires forall v :: WithKey(r, v) == WithKey(r', v)
    ensures var t, t' := r[..|r| - 1], r'[..|r'| - 1]; StablySorted(t', t) && StablySorted(t', t')
  {
    var t, t' := r[..|r| - 1], r'[..|r'| - 1];
    assert Keys(t) == Keys(r)[..|t|] && Keys(t') == Keys(r')[..|t'|];
    forall v
      ensures WithKey(t, v) == WithKey(t', v)
    {
      var last := if r[|r| - 1].key == v then [r[|r| - 1]] else [];
      assert WithKey(r, v) == WithKey(t, v) + last && WithKey(r', v) == WithKey(t', v) + last;
      SameFront(WithKey(t, v), WithKey(t', v), last);
    }
  }

  lemma {:induction false} SameFront<T>(a: seq<T>, b: seq<T>, c: seq<T>)
    requires a + c == b + c
    ensures a == b
  {
    assert |a| == |b|;
    assert a == (a + c)[..|a|] == (b + c)[..|b|] == b;
  }

  lemma {:induction false} WithKeyConcat(a: seq<SymFreq>, b: seq<SymFreq>, v: nat)
    ensures WithKey(a + b, v) == WithKey(a, v) + WithKey(b, v)
  {
    if b == [] {
      assert a + b == a;
    } else {
      assert (a + b)[..|a + b| - 1] == a + b[..|b| - 1];
      WithKeyConcat(a, b[..|b| - 1], v);
    }
  }

  lemma {:induction false} WithKeyOfDigit(s: seq<SymFreq>, p: nat, d: nat, v: nat)
    requires p < PASSES
    ensures WithKey(WithDigit(s, p, d), v) == if Digit(v, p) == d then WithKey(s, v) else []
  {
    if s != [] {
      var t, x := s[..|s| - 1], s[|s| - 1];
      WithKeyOfDigit(t, p, d, v);
      var last := if Digit(x.key, p) == d then [x] else [];
      WithKeyConcat(WithDigit(t, p, d), last, v);
      assert WithKey(last, v) == if Digit(x.key, p) == d && x.key == v then [x] else [] by {
        assert last != [] ==> last[..0] == [];
      }
    }
  }

  /** Grouping by a digit keeps the order among records of equal key. */
  lemma {:induction false} BucketsStable(s: seq<SymFreq>, p: nat, m: nat, v: nat)
    requires p < PASSES
    ensures WithKey(Buckets(s, p, m), v) == if Digit(v, p) < m then WithKey(s, v) else []
  {
    hide WithKey, WithDigit, Digit;
    if m > 0 {
      BucketsStable(s, p, m - 1, v);
      WithKeyConcat(Buckets(s, p, m - 1), WithDigit(s, p, m - 1), v);
      WithKeyOfDigit(s, p, m - 1, v);
    } else {
      WithKeyEmpty(v);
    }
  }

  lemma {:induction false} WithKeyEmpty(v: nat)
    ensures WithKey([], v) == []
  {
  }

  /** Sorted by the low p bytes of the key. */
  ghost predicate SortedLow(s: seq<SymFreq>, p: nat)
    requires p <= PASSES
  {
    forall i, j :: 0 <= i <= j < |s| ==> s[i].key % Base(p) <= s[j].key % Base(p)
  }

  /** The low p + 1 bytes are byte p and the p bytes below it. */
  lemma {:induction false} LowBytes(x: nat, p: nat)
    requires p < PASSES
    ensures x % Base(p + 1) == Digit(x, p) * Base(p) + x % Base(p)
  {
    if p == 1 {
      SplitBytes(x, x / 0x100);
    } else if p == 2 {
      SplitWords(x, x / 0x1_0000);
    } else if p == 3 {
      SplitTriples(x, x / 0x100_0000);
    }
  }

  lemma {:induction false} SplitBytes(x: nat, q: nat)
    requires q == x / 0x100
    ensures x % 0x1_0000 == q % 0x100 * 0x100 + x % 0x100
  {
    assert x == q / 0x100 * 0x1_0000 + (q % 0x100 * 0x100 + x % 0x100);
  }

  lemma {:induction false} SplitWords(x: nat, q: nat)
    requires q == x / 0x1_0000
    ensures x % 0x100_0000 == q % 0x100 * 0x1_0000 + x % 0x1_0000
  {
    assert x == q / 0x100 * 0x100_0000 + (q % 0x100 * 0x1_0000 + x % 0x1_0000);
  }

  lemma {:induction false} SplitTriples(x: nat, q: nat)
    requires q == x / 0x100_0000
    ensures x % 0x1_0000_0000 == q % 0x100 * 0x100_0000 + x % 0x100_0000
  {
    assert x == q / 0x100 * 0x1_0000_0000 + (q % 0x100 * 0x100_0000 + x % 0x100_0000);
  }

  /** Comparing byte p first and the bytes below it second compares the low p + 1 bytes. */
  lemma {:induction false} Lexicographic(x: nat, y: nat, p: nat)
    requires p < PASSES
    requires Digit(x, p) < Digit(y, p) || (Digit(x, p) == Digit(y, p) && x % Base(p) <= y % Base(p))
    ensures x % Base(p + 1) <= y % Base(p + 1)
  {
    LowBytes(x, p);
    LowBytes(y, p);
    if p == 0 {
    } else if p == 1 {
    } else if p == 2 {
    }
  }

  lemma {:induction false} WithDigitSorted(s: seq<SymFreq>, p: nat, d: nat)
    requires p < PASSES && SortedLow(s, p)
    ensures SortedLow(WithDigit(s, p, d), p)
    ensures forall i :: 0 <= i < |WithDigit(s, p, d)| ==>
      Digit(WithDigit(s, p, d)[i].key, p) == d && WithDigit(s, p, d)[i] in s
  {
    if s != [] {
      WithDigitSorted(s[..|s| - 1], p, d);
    }
  }

  /** Grouping a list that is sorted by the low p bytes sorts it by the low p + 1 bytes. */
  lemma {:induction false} BucketsSorted(s: seq<SymFreq>, p: nat, m: nat)
    requires p < PASSES && SortedLow(s, p)
    ensures SortedLow(Buckets(s, p, m), p + 1)
    ensures forall i :: 0 <= i < |Buckets(s, p, m)| ==> Digit(Buckets(s, p, m)[i].key, p) < m
  {
    if m > 0 {
      var a, b := Buckets(s, p, m - 1), WithDigit(s, p, m - 1);
      BucketsSorted(s, p, m - 1);
      WithDigitSorted(s, p, m - 1);
      var c: seq<SymFreq> := a + b;
      forall i, j | 0 <= i <= j < |c|
        ensures c[i].key % Base(p + 1) <= c[j].key % Base(p + 1)
      {
        if j >= |a| {
          Lexicographic(c[i].key, c[j].key, p);
        }
      }
    }
  }

  // The same records, counted.

  lemma {:induction false} KeyCount(s: seq<SymFreq>, x: SymFreq)
    ensures multiset(s)[x] == multiset(WithKey(s, x.key))[x]
  {
    if s != [] {
      assert s == s[..|s| - 1] + [s[|s| - 1]];
      KeyCount(s[..|s| - 1], x);
    }
  }

  lemma {:induction false} SameOrderIsPermutation(s: seq<SymFreq>, r: seq<SymFreq>)
    requires SameOrder(s, r)
    ensures multiset(s) == multiset(r)
  {
    forall x
      ensures multiset(s)[x] == multiset(r)[x]
    {
      KeyCount(s, x);
      KeyCount(r, x);
    }
  }

  lemma {:induction false} WithDigitConcat(a: seq<SymFreq>, b: seq<SymFreq>, p: nat, d: nat)
    requires p < PASSES
    ensures WithDigit(a + b, p, d) == WithDigit(a, p, d) + WithDigit(b, p, d)
  {
    if b == [] {
      assert a + b == a;
    } else {
      assert (a + b)[..|a + b| - 1] == a + b[..|b| - 1];
      WithDigitConcat(a, b[..|b| - 1], p, d);
    }
  }

  lemma {:induction false} RemoveOne(t: seq<SymFreq>, x: SymFreq, r: seq<SymFreq>)
    returns (a: seq<SymFreq>, b: seq<SymFreq>)
    requires multiset(t + [x]) == multiset(r)
    ensures r == a + [x] + b && multiset(t) == multiset(a + b)
  {
    assert x in multiset(r);
    var j :| 0 <= j < |r| && r[j] == x;
    a, b := r[..j], r[j + 1..];
    assert r == a + [x] + b;
    assert multiset(t) + multiset{x} == multiset(t + [x]) == multiset(a + b) + multiset{x};
    assert multiset(t) == multiset(t) + multiset{x} - multiset{x};
  }

  /** The histogram of a list is the histogram of any rearrangement of it. */
  lemma {:induction false} PermutationKeepsCount(s: seq<SymFreq>, r: seq<SymFreq>, p: nat, d: nat)
    requires p < PASSES && multiset(s) == multiset(r)
    ensures |WithDigit(s, p, d)| == |WithDigit(r, p, d)|
  {
    if s == [] {
      assert |multiset(r)| == 0;
    } else {
      var t, x := s[..|s| - 1], s[|s| - 1];
      assert s == t + [x];
      var a, b := RemoveOne(t, x, r);
      PermutationKeepsCount(t, a + b, p, d);
      hide WithDigit;
      WithDigitConcat(a, b, p, d);
      WithDigitConcat(a + [x], b, p, d);
      WithDigitConcat(a, [x], p, d);
      WithDigitConcat(t, [x], p, d);
    }
  }

  /** The bucket of digit d ends before that of a larger digit begins. */
  lemma {:induction false} BucketStarts(s: seq<SymFreq>, p: nat, d: nat, e: nat)
    requires p < PASSES && d < e
    ensures |Buckets(s, p, d)| + |WithDigit(s, p, d)| <= |Buckets(s, p, e)|
  {
    if d + 1 < e {
      BucketStarts(s, p, d, e - 1);
    }
  }

  /** The number of records with a digit below m. */
  ghost function CountBelow(s: seq<SymFreq>, p: nat, m: nat): (c: nat)
    requires p < PASSES
    ensures c <= |s|
    ensures m >= 256 ==> c == |s|
  {
    if s == [] then 0
    else CountBelow(s[..|s| - 1], p, m) + if Digit(s[|s| - 1].key, p) < m then 1 else 0
  }

  lemma {:induction false} CountNext(s: seq<SymFreq>, p: nat, m: nat)
    requires p < PASSES
    ensures CountBelow(s, p, m + 1) == CountBelow(s, p, m) + |WithDigit(s, p, m)|
    ensures CountBelow(s, p, 0) == 0
  {
    if s != [] {
      CountNext(s[..|s| - 1], p, m);
    }
  }

  lemma {:induction false} BucketsLength(s: seq<SymFreq>, p: nat, m: nat)
    requires p < PASSES
    ensures |Buckets(s, p, m)| == CountBelow(s, p, m)
  {
    CountNext(s, p, if m > 0 then m - 1 else 0);
    if m > 0 {
      BucketsLength(s, p, m - 1);
    }
  }

  lemma {:induction false} PrefixCount(s: seq<SymFreq>, i: nat, p: nat, d: nat)
    requires p < PASSES && i <= |s|
    ensures WithDigit(s[..i], p, d) <= WithDigit(s, p, d)
    ensures i < |s| && Digit(s[i].key, p) == d ==> WithDigit(s[..i], p, d) + [s[i]] <= WithDigit(s, p, d)
    ensures i < |s| ==>
      WithDigit(s[..i + 1], p, d) == WithDigit(s[..i], p, d) + if Digit(s[i].key, p) == d then [s[i]] else []
  {
    assert s == s[..i] + s[i..];
    WithDigitConcat(s[..i], s[i..], p, d);
    if i < |s| {
      assert s[..i + 1][..i] == s[..i];
      assert s == s[..i + 1] + s[i + 1..];
      WithDigitConcat(s[..i + 1], s[i + 1..], p, d);
    }
  }

  /** The cell of a histogram for value d of byte p. */
  function Slot(p: nat, d: nat): nat {
    256 * p + d
  }

  /** hist holds, for each of the four bytes, how many keys of s have each value of that byte. */
  ghost predicate IsHistogram(hist: seq<nat>, s: seq<SymFreq>) {
    |hist| == 256 * PASSES
    && forall p, d :: 0 <= p < PASSES && 0 <= d < 256 ==> hist[Slot(p, d)] == |WithDigit(s, p, d)|
  }

  lemma {:induction false} CountOne(s: seq<SymFreq>, i: nat, hist: seq<nat>, hist': seq<nat>)
    requires i < |s| && IsHistogram(hist, s[..i]) && |hist'| == |hist|
    requires forall p, d :: 0 <= p < PASSES && 0 <= d < 256 ==>
               hist'[Slot(p, d)] == hist[Slot(p, d)] + if Digit(s[i].key, p) == d then 1 else 0
    ensures IsHistogram(hist', s[..i + 1])
  {
    forall p, d | 0 <= p < PASSES && 0 <= d < 256
      ensures hist'[Slot(p, d)] == |WithDigit(s[..i + 1], p, d)|
    {
      PrefixCount(s, i, p, d);
    }
  }

  method BuildHistogram(a: array<SymFreq>, n: nat) returns (hist: array<nat>)
    requires n <= a.Length
    ensures fresh(hist) && IsHistogram(hist[..], a[..n])
  {
    hist := new nat[256 * PASSES](_ => 0);
    for i := 0 to n
      invariant IsHistogram(hist[..], a[..i])
    {
      var freq := a[i].key;
      ghost var h := hist[..];
      hist[Slot(0, Digit(freq, 0))] := hist[Slot(0, Digit(freq, 0))] + 1;
      hist[Slot(1, Digit(freq, 1))] := hist[Slot(1, Digit(freq, 1))] + 1;
      hist[Slot(2, Digit(freq, 2))] := hist[Slot(2, Digit(freq, 2))] + 1;
      hist[Slot(3, Digit(freq, 3))] := hist[Slot(3, Digit(freq, 3))] + 1;
      assert a[..n][..i] == a[..i] && a[..n][..i + 1] == a[..i + 1];
      CountOne(a[..n], i, h, hist[..]);
    }
  }

  /** The scatter loop after i records: each bucket holds its share of the first i records. */
  ghost predicate Scattered(s: seq<SymFreq>, i: nat, p: nat, offsets: seq<nat>, out: seq<SymFreq>)
    requires p < PASSES && i <= |s|
  {
    |offsets| == 256 && |out| == |s| && forall d :: 0 <= d < 256 ==> BucketFilled(s, i, p, d, offsets[d], out)
  }

  ghost predicate BucketFilled(s: seq<SymFreq>, i: nat, p: nat, d: nat, offset: nat, out: seq<SymFreq>)
    requires p < PASSES && i <= |s|
  {
    var start, part := |Buckets(s, p, d)|, WithDigit(s[..i], p, d);
    offset == start + |part| <= |out| && out[start..offset] == part
  }

  lemma {:induction false} OwnBucket(s: seq<SymFreq>, i: nat, p: nat, offset: nat, out: seq<SymFreq>)
    requires p < PASSES && i < |s| == |out| && BucketFilled(s, i, p, Digit(s[i].key, p), offset, out)
    ensures offset < |out|
    ensures BucketFilled(s, i + 1, p, Digit(s[i].key, p), offset + 1, out[offset := s[i]])
  {
    var d := Digit(s[i].key, p);
    BucketsLength(s, p, 256);
    PrefixCount(s, i, p, d);
    BucketStarts(s, p, d, 256);
    hide Buckets, WithDigit;
    var start := |Buckets(s, p, d)|;
    assert out[offset := s[i]][start..offset + 1] == out[start..offset] + [s[i]];
  }

  lemma {:induction false} OtherBucket(s: seq<SymFreq>, i: nat, p: nat, d: nat, pos: nat, e: nat, offset: nat,
          out: seq<SymFreq>)
    requires p < PASSES && i < |s| == |out| && d == Digit(s[i].key, p) && e != d
    requires BucketFilled(s, i, p, d, pos, out) && BucketFilled(s, i, p, e, offset, out) && pos < |out|
    ensures BucketFilled(s, i + 1, p, e, offset, out[pos := s[i]])
  {
    PrefixCount(s, i, p, d);
    PrefixCount(s, i, p, e);
    if e < d {
      BucketStarts(s, p, e, d);
    } else {
      BucketStarts(s, p, d, e);
    }
    hide Buckets, WithDigit;
    var start := |Buckets(s, p, e)|;
    assert offset <= pos || pos < start;
    assert out[pos := s[i]][start..offset] == out[start..offset];
  }

  lemma {:induction false} ScatterOne(s: seq<SymFreq>, i: nat, p: nat, offsets: seq<nat>, out: seq<SymFreq>)
    requires p < PASSES && i < |s| && Scattered(s, i, p, offsets, out)
    ensures var d := Digit(s[i].key, p);
      offsets[d] < |out| && Scattered(s, i + 1, p, offsets[d := offsets[d] + 1], out[offsets[d] := s[i]])
  {
    var d := Digit(s[i].key, p);
    assert BucketFilled(s, i, p, d, offsets[d], out);
    OwnBucket(s, i, p, offsets[d], out);
    var offsets', out' := offsets[d := offsets[d] + 1], out[offsets[d] := s[i]];
    hide BucketFilled;
    forall e | 0 <= e < 256
      ensures BucketFilled(s, i + 1, p, e, offsets'[e], out')
    {
      assert BucketFilled(s, i, p, e, offsets[e], out);
      if e != d {
        OtherBucket(s, i, p, d, offsets[d], e, offsets[e], out);
      }
    }
  }

  /** When all records are placed, the output is the concatenation of the buckets. */
  lemma {:induction false} ScatterDone(s: seq<SymFreq>, p: nat, m: nat, offsets: seq<nat>, out: seq<SymFreq>)
    requires p < PASSES && m <= 256 && Scattered(s, |s|, p, offsets, out)
    ensures |Buckets(s, p, m)| <= |out| && out[..|Buckets(s, p, m)|] == Buckets(s, p, m)
  {
    if m > 0 {
      ScatterDone(s, p, m - 1, offsets, out);
      assert BucketFilled(s, |s|, p, m - 1, offsets[m - 1], out);
      assert s[..|s|] == s;
      var b := |Buckets(s, p, m - 1)|;
      assert out[..offsets[m - 1]] == out[..b] + out[b..offsets[m - 1]];
    }
  }

  /** Appends record x to bucket d. */
  method Place(out: array<SymFreq>, n: nat, offsets: array<nat>, d: nat, x: SymFreq)
    requires n <= out.Length && d < offsets.Length && offsets[d] < n && (out as object) != offsets
    modifies out, offsets
    ensures out[..n] == old(out[..n][offsets[d] := x]) && offsets[..] == old(offsets[..][d := offsets[d] + 1])
  {
    out[offsets[d]] := x;
    offsets[d] := offsets[d] + 1;
  }

  /** One pass: records go from cur to out, grouped by byte p. */
  method SortPass(cur: array<SymFreq>, out: array<SymFreq>, n: nat, hist: array<nat>, p: nat)
    requires cur != out && n <= cur.Length && n <= out.Length && p < PASSES
    requires IsHistogram(hist[..], cur[..n])
    modifies out
    ensures out[..n] == Grouped(cur[..n], p)
  {
    hide *;
    ghost var s := cur[..n];
    var offsets := PrefixSums(s, hist, p);
    StartScatter(s, p, 256, offsets[..], out[..n]);
    for i := 0 to n
      invariant cur[..n] == s && Scattered(s, i, p, offsets[..], out[..n]) && offsets.Length == 256
    {
      ScatterOne(s, i, p, offsets[..], out[..n]);
      Place(out, n, offsets, Digit(cur[i].key, p), cur[i]);
    }
    ScatterAll(s, p, 256, offsets[..], out[..n]);
  }

  /** The m buckets are full at the end; their number is a parameter so that the verifier does not unroll Buckets. */
  lemma {:induction false} ScatterAll(s: seq<SymFreq>, p: nat, m: nat, offsets: seq<nat>, out: seq<SymFreq>)
    requires p < PASSES && m == 256 && Scattered(s, |s|, p, offsets, out)
    ensures out == Grouped(s, p)
  {
    ScatterDone(s, p, m, offsets, out);
    BucketsLength(s, p, m);
  }

  /** Before the first record, all m buckets are empty; m as in ScatterAll. */
  lemma {:induction false} StartScatter(s: seq<SymFreq>, p: nat, m: nat, offsets: seq<nat>, out: seq<SymFreq>)
    requires p < PASSES && m == 256 && |offsets| == m && |out| == |s|
    requires forall d :: 0 <= d < 256 ==> offsets[d] == |Buckets(s, p, d)|
    ensures Scattered(s, 0, p, offsets, out)
  {
    BucketsLength(s, p, m);
    forall d {:trigger offsets[d]} | 0 <= d < 256
      ensures BucketFilled(s, 0, p, d, offsets[d], out)
    {
      BucketStarts(s, p, d, m);
      assert s[..0] == [];
    }
  }

  lemma {:induction false} NoBuckets(s: seq<SymFreq>, p: nat)
    requires p < PASSES
    ensures Buckets(s, p, 0) == []
  {
  }

  lemma {:induction false} NextBucket(hist: seq<nat>, s: seq<SymFreq>, p: nat, d: nat)
    requires p < PASSES && d < 256 && IsHistogram(hist, s)
    ensures Slot(p, d) < |hist| && |Buckets(s, p, d + 1)| == |Buckets(s, p, d)| + hist[Slot(p, d)]
  {
    hide WithDigit;
  }

  method PrefixSums(ghost s: seq<SymFreq>, hist: array<nat>, p: nat) returns (offsets: array<nat>)
    requires p < PASSES && IsHistogram(hist[..], s)
    ensures fresh(offsets) && offsets.Length == 256
    ensures forall d :: 0 <= d < 256 ==> offsets[..][d] == |Buckets(s, p, d)|
  {
    hide WithDigit, Digit, Buckets, IsHistogram;
    offsets := new nat[256](_ => 0);
    var curOfs := 0;
    NoBuckets(s, p);
    for i := 0 to 256
      invariant curOfs == |Buckets(s, p, i)|
      invariant forall d :: 0 <= d < i ==> offsets[d] == |Buckets(s, p, d)|
    {
      offsets[i] := curOfs;
      NextBucket(hist[..], s, p, i);
      curOfs := curOfs + hist[Slot(p, i)];
    }
  }

  /**
   * A pass over all m buckets keeps records of equal key in order, hence the histogram, and sorts one more byte;
   * m as in ScatterAll.
   */
  lemma {:induction false} PassEffect(s0: seq<SymFreq>, s: seq<SymFreq>, p: nat, m: nat, hist: seq<nat>)
    requires p < PASSES && SameOrder(s0, s) && IsHistogram(hist, s) && SortedLow(s, p) && m == 256
    ensures SameOrder(s0, Grouped(s, p)) && IsHistogram(hist, Grouped(s, p)) && SortedLow(Grouped(s, p), p + 1)
  {
    var r := Grouped(s, p);
    assert r == Buckets(s, p, m);
    hide Grouped, Buckets;
    forall v
      ensures WithKey(r, v) == WithKey(s, v)
    {
      BucketsStable(s, p, m, v);
    }
    SameOrderIsPermutation(s, r);
    forall q, d | 0 <= q < PASSES && 0 <= d < 256
      ensures hist[Slot(q, d)] == |WithDigit(r, q, d)|
    {
      PermutationKeepsCount(s, r, q, d);
    }
    BucketsSorted(s, p, m);
  }

  lemma {:induction false} AllHaveDigit(s: seq<SymFreq>, p: nat, d: nat)
    requires p < PASSES && |WithDigit(s, p, d)| == |s|
    ensures forall i :: 0 <= i < |s| ==> Digit(s[i].key, p) == d
  {
    if s != [] {
      AllHaveDigit(s[..|s| - 1], p, d);
    }
  }

  /** Sorting by the low bytes is sorting if the other bytes are zero. */
  lemma {:induction false} LowBytesSuffice(s: seq<SymFreq>, p: nat)
    requires p <= PASSES && SortedLow(s, p)
    requires forall i :: 0 <= i < |s| ==> s[i].key < UINT32_RANGE
    requires forall q, i :: p <= q < PASSES && 0 <= i < |s| ==> Digit(s[i].key, q) == 0
    ensures Ascending(Keys(s))
  {
    forall i | 0 <= i < |s|
      ensures s[i].key % Base(p) == s[i].key
    {
      KeyBelow(s[i].key, p, PASSES);
    }
  }

  lemma {:induction false} KeyBelow(k: nat, p: nat, n: nat)
    requires p <= n <= PASSES && k < Base(n) && forall q :: p <= q < n ==> Digit(k, q) == 0
    ensures k < Base(p)
  {
    if p < n {
      LowBytes(k, n - 1);
      KeyBelow(k, p, n - 1);
    }
  }

  /**
   * Sorts the first n records of syms0 by key, using syms1 as scratch space, and returns the array
   * that holds the result. High bytes that are zero in every key cost no pass.
   */
  method RadixSortSyms(n: nat, syms0: array<SymFreq>, syms1: array<SymFreq>) returns (sorted: array<SymFreq>)
    requires syms0 != syms1 && n <= syms0.Length && n <= syms1.Length
    requires forall i :: 0 <= i < n ==> syms0[i].key < UINT32_RANGE
    modifies syms0, syms1
    ensures sorted == syms0 || sorted == syms1
    ensures StablySorted(old(syms0[..n]), sorted[..n])
  {
    ghost var s0 := syms0[..n];
    var hist := BuildHistogram(syms0, n);
    var curSyms, newSyms := syms0, syms1;
    var totalPasses := PASSES;
    while totalPasses > 1 && n == hist[Slot(totalPasses - 1, 0)]
      invariant 1 <= totalPasses <= PASSES && syms0[..n] == s0 && IsHistogram(hist[..], s0)
      invariant forall q, i :: totalPasses <= q < PASSES && 0 <= i < n ==> Digit(s0[i].key, q) == 0
    {
      assert hist[..][Slot(totalPasses - 1, 0)] == |WithDigit(s0, totalPasses - 1, 0)|;
      AllHaveDigit(s0, totalPasses - 1, 0);
      totalPasses := totalPasses - 1;
    }
    hide StablySorted, SameOrder, IsHistogram, Digit;
    for pass := 0 to totalPasses
      invariant {curSyms, newSyms} == {syms0, syms1} && fresh(hist)
      invariant SameOrder(s0, curSyms[..n]) && IsHistogram(hist[..], curSyms[..n])
      invariant SortedLow(curSyms[..n], pass)
    {
      ghost var s := curSyms[..n];
      SortPass(curSyms, newSyms, n, hist, pass);
      PassEffect(s0, s, pass, 256, hist[..]);
      curSyms, newSyms := newSyms, curSyms;
    }
    SortComplete(s0, curSyms[..n], totalPasses);
    sorted := curSyms;
  }

  lemma {:induction false} SortComplete(s0: seq<SymFreq>, s: seq<SymFreq>, p: nat)
    requires p <= PASSES && SameOrder(s0, s) && SortedLow(s, p)
    requires forall i :: 0 <= i < |s0| ==> s0[i].key < UINT32_RANGE
    requires forall q, i :: p <= q < PASSES && 0 <= i < |s0| ==> Digit(s0[i].key, q) == 0
    ensures StablySorted(s0, s)
  {
    SameOrderIsPermutation(s0, s);
    forall i | 0 <= i < |s|
      ensures s[i].key < UINT32_RANGE && forall q :: p <= q < PASSES ==> Digit(s[i].key, q) == 0
    {
      assert s[i] in multiset(s);
      var j :| 0 <= j < |s0| && s0[j] == s[i];
    }
    LowBytesSuffice(s, p);
  }
}
