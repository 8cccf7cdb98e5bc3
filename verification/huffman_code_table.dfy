/** The encoder's table of codes and code sizes per symbol. */
module HuffmanCodeTable {
  import opened Powers
  import opened CodeLengths
  import opened CodeSizeLists
  import opened CanonicalCodes

  const SYMBOLS := 256

  /** A table whose lists are usable: sizes that fit the code space, a distinct symbol for each. */
  ghost predicate ValidTable(l: seq<nat>, val: seq<nat>, m: nat) {
    && AtMost(l, m) && AtLeast(l, 1) && Ascending(l) && Kraft(l, m) <= Pow2(m)
    && |l| <= |val| && (forall p :: 0 <= p < |l| ==> val[p] < SYMBOLS)
    && forall p, q :: 0 <= p < q < |l| ==> val[p] != val[q]
  }

  /** Every listed symbol has its canonical code and its size; all other symbols have size zero. */
  ghost predicate CodesOf(l: seq<nat>, val: seq<nat>, m: nat, codes: seq<nat>, sizes: seq<nat>)
    requires ValidTable(l, val, m)
  {
    && |codes| == SYMBOLS && |sizes| == SYMBOLS
    && (forall p {:trigger val[p]} :: 0 <= p < |l| ==>
          sizes[val[p]] == l[p] && codes[val[p]] * Pow2(m - l[p]) == Start(l, p, m))
    && (forall s :: 0 <= s < SYMBOLS && s !in val[..|l|] ==> sizes[s] == 0 && codes[s] == 0)
  }

  /** Writes out the size of each code, with a zero after the last. */
  method ListSizes(bits: array<nat>, huffSize: array<nat>) returns (lastP: nat)
    requires bits.Length == 1 + MAX_CODE_SIZE && |Sizes(bits[..])| <= 256 && huffSize.Length == 257
    requires huffSize != bits
    modifies huffSize
    ensures lastP == |Sizes(bits[..])| && huffSize[..lastP] == Sizes(bits[..])
    ensures huffSize[lastP] == 0
  {
    ghost var c := bits[..];
    var p := 0;
    for l := 1 to MAX_CODE_SIZE + 1
      invariant p == |SizeList(c, l - 1)| && p <= 256 && huffSize[..p] == SizeList(c, l - 1)
    {
      SizeListGrows(c, l, MAX_CODE_SIZE);
      ghost var before := SizeList(c, l - 1);
      for i := 0 to bits[l]
        invariant p == |before| + i && p <= 256 && huffSize[..p] == before + Repeat(l, i)
      {
        assert |SizeList(c, l)| == |before| + bits[l];
        huffSize[p] := l;
        p := p + 1;
        assert huffSize[..p] == huffSize[..p - 1] + [l];
      }
    }
    huffSize[p] := 0;
    lastP := p;
  }

  lemma {:induction false} SizeListGrows(c: seq<int>, k: nat, m: nat)
    requires k <= m < |c|
    ensures |SizeList(c, k)| <= |SizeList(c, m)|
  {
    if k < m {
      SizeListGrows(c, k, m - 1);
    }
  }

  /** Numbers the codes of each size consecutively, doubling the number at each next size. */
  method NumberCodes(huffSize: array<nat>, lastP: nat, ghost m: nat) returns (huffCode: array<nat>)
    requires lastP < huffSize.Length && huffSize[lastP] == 0 && m >= 1
    requires AtMost(huffSize[..lastP], m) && AtLeast(huffSize[..lastP], 1) && Ascending(huffSize[..lastP])
    ensures fresh(huffCode) && huffCode.Length == huffSize.Length
    ensures Canonical(huffSize[..lastP], huffCode[..lastP], m)
  {
    hide Pow2, Start, Ascending;
    huffCode := new nat[huffSize.Length];
    ghost var l := huffSize[..lastP];
    NothingBefore(l, m);
    var code, si, p := 0, huffSize[0], 0;
    while huffSize[p] != 0
      invariant 0 <= p <= lastP && (forall q :: p <= q < lastP ==> si <= l[q])
      invariant p < lastP ==> si <= m && code * Pow2(m - si) == Start(l, p, m)
      invariant forall q :: 0 <= q < p ==> huffCode[q] * Pow2(m - l[q]) == Start(l, q, m)
      decreases m + 1 - si
    {
      assert l[p] == huffSize[p];
      while huffSize[p] == si
        decreases lastP - p
        invariant 0 <= p <= lastP && si <= m && code * Pow2(m - si) == Start(l, p, m)
        invariant forall q :: p <= q < lastP ==> si <= l[q]
        invariant forall q :: 0 <= q < p ==> huffCode[q] * Pow2(m - l[q]) == Start(l, q, m)
      {
        StartNext(l, p, m);
        ProductNext(code, Pow2(m - si));
        huffCode[p] := code;
        code := code + 1;
        p := p + 1;
      }
      if p < lastP {
        assert l[p] == huffSize[p] && si < m;
        ShiftCode(code, m - si);
        LongerFollow(l, p, si);
      }
      code := 2 * code;
      si := si + 1;
    }
  }

  lemma {:induction false} NothingBefore(l: seq<nat>, m: nat)
    requires AtMost(l, m) && Ascending(l)
    ensures Start(l, 0, m) == 0 && forall q :: 0 <= q < |l| ==> l[0] <= l[q]
  {
    assert l[..0] == [];
  }

  lemma {:induction false} LongerFollow(l: seq<nat>, p: nat, si: nat)
    requires Ascending(l) && p < |l| && si <= l[p] && l[p] != si
    ensures forall q :: p <= q < |l| ==> si + 1 <= l[q]
  {
  }

  lemma {:induction false} ShiftCode(code: nat, n: nat)
    requires n >= 1
    ensures 2 * code * Pow2(n - 1) == code * Pow2(n)
  {
  }

  lemma {:induction false} TableFacts(l: seq<nat>, val: seq<nat>, m: nat)
    requires ValidTable(l, val, m)
    ensures |l| <= |val| && (forall p :: 0 <= p < |l| ==> val[p] < SYMBOLS)
    ensures forall p, q :: 0 <= p < q < |l| ==> val[p] != val[q]
  {
  }

  lemma {:induction false} AllEntered(l: seq<nat>, val: seq<nat>, c: seq<nat>, m: nat, codes: seq<nat>, sizes: seq<nat>)
    requires ValidTable(l, val, m) && Canonical(l, c, m) && |codes| == |sizes| == SYMBOLS
    requires forall p {:trigger val[p]} :: 0 <= p < |l| ==> sizes[val[p]] == l[p] && codes[val[p]] == c[p]
    requires forall s :: 0 <= s < SYMBOLS && s !in val[..|l|] ==> sizes[s] == 0 && codes[s] == 0
    ensures CodesOf(l, val, m, codes, sizes)
  {
  }

  /** Enters code and size of each listed symbol. */
  method EnterCodes(codes: array<nat>, codeSizes: array<nat>, val: array<nat>, huffSize: array<nat>,
          huffCode: array<nat>, lastP: nat, ghost m: nat)
    requires codes.Length == SYMBOLS && codeSizes.Length == SYMBOLS
    requires codes != codeSizes && codes != val && codes != huffSize && codes != huffCode
    requires codeSizes != val && codeSizes != huffSize && codeSizes != huffCode
    requires lastP <= huffSize.Length && lastP <= huffCode.Length
    requires ValidTable(huffSize[..lastP], val[..], m) && Canonical(huffSize[..lastP], huffCode[..lastP], m)
    modifies codes, codeSizes
    ensures CodesOf(huffSize[..lastP], val[..], m, codes[..], codeSizes[..])
  {
    hide Canonical, Start, ValidTable, CodesOf;
    ghost var l, v, c := huffSize[..lastP], val[..], huffCode[..lastP];
    TableFacts(l, v, m);
    for i := 0 to SYMBOLS
      invariant forall s :: 0 <= s < i ==> codes[s] == 0 && codeSizes[s] == 0
    {
      codes[i], codeSizes[i] := 0, 0;
    }
    for p := 0 to lastP
      invariant forall q {:trigger v[q]} :: 0 <= q < p ==> codeSizes[v[q]] == l[q] && codes[v[q]] == c[q]
      invariant forall s :: 0 <= s < SYMBOLS && s !in v[..p] ==> codeSizes[s] == 0 && codes[s] == 0
    {
      assert v[..p + 1] == v[..p] + [v[p]];
      codes[val[p]] := huffCode[p];
      codeSizes[val[p]] := huffSize[p];
    }
    AllEntered(l, v, c, m, codes[..], codeSizes[..]);
  }

  /** Computes the code and size of every symbol from the BITS and HUFFVAL lists of a table. */
  method ComputeHuffmanTable(codes: array<nat>, codeSizes: array<nat>, bits: array<nat>, val: array<nat>)
    requires codes.Length == SYMBOLS && codeSizes.Length == SYMBOLS && bits.Length == 1 + MAX_CODE_SIZE
    requires codes != codeSizes && codes != bits && codes != val && codeSizes != bits && codeSizes != val
    requires |Sizes(bits[..])| <= 256 && ValidTable(Sizes(bits[..]), val[..], MAX_CODE_SIZE)
    modifies codes, codeSizes
    ensures CodesOf(Sizes(bits[..]), val[..], MAX_CODE_SIZE, codes[..], codeSizes[..])
  {
    hide Sizes, CodesOf, Canonical;
    var huffSize := new nat[257];
    var lastP := ListSizes(bits, huffSize);
    var huffCode := NumberCodes(huffSize, lastP, MAX_CODE_SIZE);
    EnterCodes(codes, codeSizes, val, huffSize, huffCode, lastP, MAX_CODE_SIZE);
  }
}
