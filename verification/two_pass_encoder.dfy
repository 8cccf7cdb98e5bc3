/** The encoder in two-pass mode: counting a scan, building its tables, writing it. */
module TwoPassEncoder {
  import opened MachineNumbers
  import opened Powers
  import opened CodeLengths
  import opened CodeSizeLists
  import opened CanonicalCodes
  import opened HuffmanTableOptimizer
  import opened HuffmanCodeTable
  import opened StuffedBits
  import opened JpegBitWriter
  import opened BlockTokens
  import opened BlockEncoder
  import opened BlockRoundTrip
  import opened ScanCoding
  import opened TableChoice
  import opened HuffmanSegments

  // Pass one.

  /** count tells how often each symbol occurs. */
  ghost predicate CountsOf(count: seq<nat>, ts: seq<Token>) {
    |count| == 256 && forall s :: 0 <= s < 256 ==> count[s] == Occurrences(ts, s)
  }

  lemma {:induction false} CountMore(count: seq<nat>, count': seq<nat>, a: seq<Token>, b: seq<Token>)
    requires CountsOf(count, a) && Counted(count, count', b)
    ensures CountsOf(count', a + b)
  {
    forall s | 0 <= s < 256
      ensures count'[s] == Occurrences(a + b, s)
    {
      OccurrencesConcat(a, b, s);
    }
  }

  /** One more block of a scan. */
  lemma {:induction false} NextBlock(scan: seq<Block>, i: nat)
    requires IsScan(scan) && i < |scan|
    ensures IsScan(scan[..i]) && IsScan(scan[..i + 1]) && IsBlock(scan[i]) && Int16(Pred(scan[..i], scan[i].component))
    ensures FullBlocks(scan[..i]) && FullBlocks(scan[..i + 1]) && |scan[i].coef| == BLOCK_SIZE
    ensures forall t ::
              ScanTokens(scan[..i + 1], t) ==
              ScanTokens(scan[..i], t) + TableTokens(scan[i], Pred(scan[..i], scan[i].component), t)
    ensures forall c :: Pred(scan[..i + 1], c) == if scan[i].component == c then scan[i].coef[0] else Pred(scan[..i], c)
    ensures forall tables ::
              FourCodeTables(tables) ==>
                ScanBits(scan[..i + 1], tables)
                == ScanBits(scan[..i], tables) + BlockBits(scan[i], Pred(scan[..i], scan[i].component), tables)
  {
    hide IsBlock, BlockBits, TableTokens, Pred;
    assert IsScan(scan[..i + 1]);
    assert scan[..i + 1][..i] == scan[..i] && IsBlock(scan[i]);
    BlockFacts(scan[i]);
    PredInt16(scan[..i], scan[i].component);
    ScanFull(scan[..i + 1]);
    ScanFull(scan[..i]);
    forall c
      ensures Pred(scan[..i + 1], c) == if scan[i].component == c then scan[i].coef[0] else Pred(scan[..i], c)
    {
      PredStep(scan[..i + 1], c);
    }
  }

  ghost predicate LastDcValues(lastDcVal: seq<int>, scan: seq<Block>)
    requires FullBlocks(scan)
  {
    |lastDcVal| == COMPONENTS && forall c :: 0 <= c < COMPONENTS ==> lastDcVal[c] == Pred(scan, c)
  }

  /** Pass one over a scan, from cleared counters. */
  method CountScan(scan: seq<Block>, lastDcVal: array<int>, huffCount: seq<array<nat>>)
    requires IsScan(scan) && FourCounts(huffCount, lastDcVal)
    requires forall t, s :: 0 <= t < 4 && 0 <= s < 256 ==> huffCount[t][s] == 0
    requires forall c :: 0 <= c < COMPONENTS ==> lastDcVal[c] == 0
    modifies lastDcVal, huffCount
    ensures forall t :: 0 <= t < 4 ==> CountsOf(huffCount[t][..], ScanTokens(scan, t))
    ensures Sum(huffCount[0][..]) == |Luminance(scan)| && Sum(huffCount[1][..]) == |Chrominance(scan)|
    ensures FullBlocks(Luminance(scan)) && FullBlocks(Chrominance(scan))
    ensures CountsOf(huffCount[0][..], DcTokens(Luminance(scan)))
    ensures CountsOf(huffCount[2][..], AcTokensOf(Luminance(scan)))
    ensures CountsOf(huffCount[1][..], DcTokens(Chrominance(scan)))
    ensures CountsOf(huffCount[3][..], AcTokensOf(Chrominance(scan)))
  {
    hide IsBlock, Counted, CountsOf, ScanTokens, TableTokens, Pred, Occurrences, Luminance, Chrominance;
    hide DcTokens, AcTokensOf, Sum;
    assert scan[..0] == [];
    EmptyScan();
    forall t | 0 <= t < 4
      ensures CountsOf(huffCount[t][..], ScanTokens(scan[..0], t))
    {
      NothingOccurs(huffCount[t][..]);
    }
    ScanFull(scan);
    for i := 0 to |scan|
      invariant IsScan(scan[..i]) && FullBlocks(scan[..i]) && LastDcValues(lastDcVal[..], scan[..i])
      invariant forall t :: 0 <= t < 4 ==> CountsOf(huffCount[t][..], ScanTokens(scan[..i], t))
    {
      NextBlock(scan, i);
      BlockFacts(scan[i]);
      ghost var before := [huffCount[0][..], huffCount[1][..], huffCount[2][..], huffCount[3][..]];
      ghost var pred := Pred(scan[..i], scan[i].component);
      assert lastDcVal[..][scan[i].component] == lastDcVal[scan[i].component];
      CodeCoefficientsPassOne(scan[i], lastDcVal, huffCount);
      forall t | 0 <= t < 4
        ensures CountsOf(huffCount[t][..], ScanTokens(scan[..i + 1], t))
      {
        CountMore(before[t], huffCount[t][..], ScanTokens(scan[..i], t), TableTokens(scan[i], pred, t));
      }
    }
    assert scan[..|scan|] == scan;
    TokensOfTables(scan);
    OneDcSymbolEach(scan, 0, huffCount[0][..]);
    OneDcSymbolEach(scan, 1, huffCount[1][..]);
  }

  lemma {:induction false} EmptyScan()
    ensures forall t :: ScanTokens([], t) == []
    ensures forall c :: Pred([], c) == 0
  {
  }

  lemma {:induction false} NothingOccurs(count: seq<nat>)
    requires |count| == 256 && forall s :: 0 <= s < 256 ==> count[s] == 0
    ensures CountsOf(count, [])
  {
  }

  // The tables.

  /** How many symbols the table of index t may have. */
  function TableLength(t: nat): (n: nat)
    ensures n <= 256
  {
    if t < 2 then DC_CODES else AC_CODES
  }

  const DC_CODES := 12
  const AC_CODES := 256

  /** The counts of the symbols below n add up to no more than the number of tokens. */
  lemma {:induction false} CountsTotal(count: seq<nat>, ts: seq<Token>, n: nat)
    requires |count| == n && forall s :: 0 <= s < n ==> count[s] == Occurrences(ts, s)
    ensures Sum(count) <= |ts| && ((forall x :: x in ts ==> x.symbol < n) ==> Sum(count) == |ts|)
    decreases |ts|
  {
    if ts == [] {
      ZeroSum(count);
    } else {
      var us, x := ts[..|ts| - 1], ts[|ts| - 1].symbol;
      if x < n {
        var c := count[x := count[x] - 1];
        CountsTotal(c, us, n);
        SumWithout(count, x);
      } else {
        CountsTotal(count, us, n);
      }
    }
  }

  lemma {:induction false} ZeroSum(w: seq<nat>)
    requires forall i :: 0 <= i < |w| ==> w[i] == 0
    ensures Sum(w) == 0
  {
    if w != [] {
      ZeroSum(w[1..]);
    }
  }

  lemma {:induction false} SumWithout(w: seq<nat>, i: nat)
    requires i < |w| && w[i] > 0
    ensures Sum(w) == Sum(w[i := w[i] - 1]) + 1
  {
    if i > 0 {
      assert w[i := w[i] - 1][1..] == w[1..][i - 1 := w[i] - 1];
      SumWithout(w[1..], i - 1);
    } else {
      assert w[i := w[i] - 1][1..] == w[1..];
    }
  }

  /** Symbols that do not occur are not used. */
  lemma {:induction false} UsedSkips(count: seq<nat>, i: nat, a: nat, b: nat)
    requires i <= |count| && a < b < |count| && count[a] == 0 && count[b] == 0
    ensures |Used(count, i)| + (if a < i then 1 else 0) + (if b < i then 1 else 0) <= i
  {
    if i > 0 {
      UsedSkips(count, i - 1, a, b);
    }
  }

  lemma {:induction false} NotAmong(ts: seq<Token>, s: nat)
    requires forall t :: t in ts ==> t.symbol != s
    ensures Occurrences(ts, s) == 0
  {
    if ts != [] {
      NotAmong(ts[..|ts| - 1], s);
    }
  }

  lemma {:induction false} Among(ts: seq<Token>, t: Token)
    requires t in ts
    ensures Occurrences(ts, t.symbol) > 0
  {
    if t != ts[|ts| - 1] {
      Among(ts[..|ts| - 1], t);
    }
  }

  /** The AC tables code end of block, runs of 16 zeros, and runs with sizes; the DC tables code sizes. */
  lemma {:induction false} SymbolsOfTable(scan: seq<Block>, t: nat)
    requires IsScan(scan)
    ensures forall x :: x in ScanTokens(scan, t) ==> if t < 2 then x.symbol <= 16 else IsAcSymbol(x.symbol)
  {
    hide IsBlock, BlockAcTokens, Pred, IsAcSymbol;
    if scan != [] {
      var n := |scan| - 1;
      NextBlock(scan, n);
      assert scan[..n + 1] == scan;
      var b := scan[n];
      BlockFacts(b);
      SymbolsOfTable(scan[..n], t);
      DcSymbolSmall(b.coef[0] - Pred(scan[..n], b.component));
      BlockAcSymbols(b.coef);
    }
  }

  /** The counts of a DC table add up to the number of its tokens. */
  lemma {:induction false} OneDcSymbolEach(scan: seq<Block>, t: nat, count: seq<nat>)
    requires IsScan(scan) && t < 2 && CountsOf(count, ScanTokens(scan, t))
    ensures Sum(count) == |ScanTokens(scan, t)|
  {
    hide ScanTokens, Sum, Occurrences;
    SymbolsOfTable(scan, t);
    CountsTotal(count, ScanTokens(scan, t), 256);
  }

  /** No table has more used symbols than the encoder's arrays allow. */
  lemma {:induction false} FewEnoughUsed(scan: seq<Block>, t: nat, count: seq<nat>)
    requires IsScan(scan) && t < 4 && CountsOf(count, ScanTokens(scan, t))
    ensures |Used(count[..TableLength(t)], TableLength(t))| <= 254
  {
    hide ScanTokens;
    if t >= 2 {
      SymbolsOfTable(scan, t);
      var ts := ScanTokens(scan, t);
      NotAmong(ts, 0x10);
      NotAmong(ts, 0x20);
      assert count[..256] == count;
      var n := 256;
      UsedSkips(count, n, 0x10, 0x20);
    }
  }

  /** How often each of the symbols below n occurs. */
  ghost function Counts(ts: seq<Token>, n: nat): (count: seq<nat>)
    ensures |count| == n
  {
    seq(n, s requires 0 <= s < n => Occurrences(ts, s))
  }

  /**
   * The lists of table t make an optimised table for the symbols that it may have, and give a code to exactly those
   * that occur.
   */
  ghost predicate ListsFor(ts: seq<Token>, t: nat, bits: seq<nat>, val: seq<nat>) {
    && OptimizedTable(Counts(ts, TableLength(t)), bits, val)
    && |bits| == 1 + MAX_CODE_SIZE && bits[0] == 0 && (forall i :: 0 <= i <= MAX_CODE_SIZE ==> bits[i] < 256)
    && ValidTable(Sizes(bits), val, MAX_CODE_SIZE) && |Sizes(bits)| <= 256
    && forall s :: 0 <= s < 256 ==> (s in val[..|Sizes(bits)|] <==> s < TableLength(t) && Occurrences(ts, s) > 0)
  }

  lemma {:induction false} OptimizedIsValid(count: seq<nat>, bits: seq<nat>, val: seq<nat>, m: nat)
    requires m == MAX_CODE_SIZE && OptimizedTable(count, bits, val) && |count| <= 256 == |val|
    ensures ValidTable(Sizes(bits), val, m) && |Sizes(bits)| <= 256
    ensures forall s :: 0 <= s < |count| ==> (s in val[..|Sizes(bits)|] <==> count[s] > 0)
    ensures forall s :: s in val[..|Sizes(bits)|] ==> s < |count|
  {
    hide Kraft, Pow2, SizeList;
    var l := Sizes(bits);
    SizesInOrder(bits);
    if l == [] {
      NoSizes(m);
    }
    assert forall p, q :: 0 <= p < q < |l| ==> val[p] != val[q];
  }

  lemma {:induction false} SizesInOrder(bits: seq<nat>)
    requires |bits| == 1 + MAX_CODE_SIZE
    ensures AtMost(Sizes(bits), MAX_CODE_SIZE) && AtLeast(Sizes(bits), 1) && Ascending(Sizes(bits))
  {
  }

  lemma {:induction false} NoSizes(m: nat)
    ensures AtMost([], m) && Kraft([], m) <= Pow2(m)
  {
  }

  /** Builds the lists of table t from its counts. */
  method OptimizeTable(count: array<nat>, t: nat, ghost scan: seq<Block>) returns (bits: array<nat>, val: array<nat>)
    requires IsScan(scan) && t < 4 && count.Length == 256 && CountsOf(count[..], ScanTokens(scan, t))
    requires CountersSuffice(Counts(ScanTokens(scan, t), TableLength(t)))
    ensures fresh(bits) && fresh(val) && bits.Length == 1 + MAX_CODE_SIZE && val.Length == 256
    ensures OptimizedTable(count[..TableLength(t)], bits[..], val[..])
      && ListsFor(ScanTokens(scan, t), t, bits[..], val[..])
  {
    hide ScanTokens, OptimizedTable, ListsFor, Used, CountersSuffice, FlatCodes, Occurrences;
    ghost var ts := ScanTokens(scan, t);
    var n := TableLength(t);
    FewEnoughUsed(scan, t, count[..]);
    assert count[..n] == Counts(ts, n);
    FewNotFlat(count[..n]);
    bits := new nat[1 + MAX_CODE_SIZE];
    val := new nat[256];
    OptimizeHuffmanTable(count, n, bits, val);
    OptimizedGivesLists(ts, t, count[..], bits[..], val[..]);
  }

  lemma {:induction false} OptimizedGivesLists(ts: seq<Token>, t: nat, count: seq<nat>, bits: seq<nat>, val: seq<nat>)
    requires t < 4 && CountsOf(count, ts) && OptimizedTable(count[..TableLength(t)], bits, val) && |val| == 256
    requires forall i :: 0 <= i <= MAX_CODE_SIZE ==> bits[i] < 256
    ensures ListsFor(ts, t, bits, val)
  {
    hide OptimizedTable, ValidTable, Sizes;
    var n := TableLength(t);
    assert count[..n] == Counts(ts, n);
    OptimizedSize(count[..n], bits, val);
    OptimizedIsValid(count[..n], bits, val, MAX_CODE_SIZE);
    forall s | 0 <= s < 256
      ensures s in val[..|Sizes(bits)|] <==> s < n && Occurrences(ts, s) > 0
    {
      if s < n {
        assert count[..n][s] == count[s];
      }
    }
  }

  lemma {:induction false} OptimizedSize(count: seq<nat>, bits: seq<nat>, val: seq<nat>)
    requires OptimizedTable(count, bits, val)
    ensures |bits| == 1 + MAX_CODE_SIZE && bits[0] == 0 && |Sizes(bits)| <= |val|
  {
  }

  // Which symbols have codes.

  /** The code table made from the lists of a table. */
  ghost predicate TableFrom(bits: seq<nat>, val: seq<nat>, ct: CodeTable) {
    && |bits| == 1 + MAX_CODE_SIZE && ValidTable(Sizes(bits), val, MAX_CODE_SIZE)
    && CodesOf(Sizes(bits), val, MAX_CODE_SIZE, ct.codes, ct.sizes) && ct.WellFormed()
  }

  /** A symbol has a code exactly if pass one counted it and the table may have it. */
  lemma {:induction false} CodeIffCounted(ts: seq<Token>, t: nat, bits: seq<nat>, val: seq<nat>, ct: CodeTable, s: nat)
    requires ListsFor(ts, t, bits, val) && TableFrom(bits, val, ct) && s < 256
    ensures ct.sizes[s] > 0 <==> s < TableLength(t) && Occurrences(ts, s) > 0
  {
    hide Kraft, Pow2, SizeList, Occurrences, CodeTable.WellFormed, Sizes;
    var l := Sizes(bits);
    if s in val[..|l|] {
      var p :| 0 <= p < |l| && val[..|l|][p] == s;
      assert val[p] == s && ct.sizes[val[p]] == l[p];
    }
  }

  /** Every counted symbol has a code of 1 to 16 bits, not all of them ones. */
  lemma {:induction false} CodeOfCounted(count: seq<nat>, bits: seq<nat>, val: seq<nat>, ct: CodeTable, s: nat)
    requires OptimizedTable(count, bits, val) && TableFrom(bits, val, ct) && s < |count| <= 256 && count[s] > 0
    ensures 1 <= ct.sizes[s] <= MAX_CODE_SIZE && !AllOnes(ct.SymbolBits(s))
  {
    hide Sizes, CodesOf, ValidTable;
    var l, m := Sizes(bits), MAX_CODE_SIZE;
    SizesInOrder(bits);
    var code := CodeOfEachEntry(l, val, ct, m);
    var p := PlaceOf(count, bits, val, ct, s);
    assert Kraft(l, m) < Pow2(m);
    NoCodeAllOnes(l, code, m, p);
  }

  /** Where a counted symbol is listed. */
  lemma {:induction false} PlaceOf(count: seq<nat>, bits: seq<nat>, val: seq<nat>, ct: CodeTable, s: nat)
    returns (p: nat)
    requires OptimizedTable(count, bits, val) && TableFrom(bits, val, ct) && s < |count| <= 256 && count[s] > 0
    ensures p < |Sizes(bits)| <= |val| && val[p] == s && ct.sizes[s] == Sizes(bits)[p]
  {
    hide Sizes, Kraft, Pow2, CodeTable.WellFormed;
    var n := |Sizes(bits)|;
    assert s in val[..n];
    p :| 0 <= p < n && val[..n][p] == s;
    assert val[p] == s;
  }

  /** A more frequent symbol never has a longer code. */
  lemma {:induction false} FrequentIsShorter(count: seq<nat>, bits: seq<nat>, val: seq<nat>, ct: CodeTable, s: nat,
          u: nat)
    requires OptimizedTable(count, bits, val) && TableFrom(bits, val, ct) && s < |count| <= 256 && u < |count|
    requires 0 < count[u] < count[s]
    ensures ct.sizes[s] <= ct.sizes[u]
  {
    hide Sizes, CodesOf, ValidTable;
    SizesInOrder(bits);
    var p := PlaceOf(count, bits, val, ct, s);
    var q := PlaceOf(count, bits, val, ct, u);
    assert p < q;
  }

  /** No counted symbol's code is the beginning of another's. */
  lemma {:induction false} CodesPrefixFree(count: seq<nat>, bits: seq<nat>, val: seq<nat>, ct: CodeTable, s: nat,
          u: nat)
    requires OptimizedTable(count, bits, val) && TableFrom(bits, val, ct) && s < |count| <= 256 && u < |count|
    requires count[s] > 0 && count[u] > 0 && s != u
    ensures !(ct.SymbolBits(s) <= ct.SymbolBits(u))
  {
    hide Sizes, CodesOf, OptimizedTable;
    var l, m := Sizes(bits), MAX_CODE_SIZE;
    var code := CodeOfEachEntry(l, val, ct, m);
    var p := PlaceOf(count, bits, val, ct, s);
    var q := PlaceOf(count, bits, val, ct, u);
    PrefixFree(l, code, m, p, q);
  }

  /** What holds of the code table that the encoder makes for the tokens of table t (T.81, section K.2). */
  lemma {:induction false} FinishedTable(ts: seq<Token>, t: nat, bits: seq<nat>, val: seq<nat>, ct: CodeTable)
    requires ListsFor(ts, t, bits, val) && TableFrom(bits, val, ct)
    ensures forall s :: 0 <= s < TableLength(t) && Occurrences(ts, s) > 0 ==>
              1 <= ct.sizes[s] <= MAX_CODE_SIZE && !AllOnes(ct.SymbolBits(s))
    ensures forall s, u :: (0 <= s < TableLength(t) && 0 <= u < TableLength(t) &&
                            0 < Occurrences(ts, u) < Occurrences(ts, s)) ==>
              ct.sizes[s] <= ct.sizes[u]
    ensures forall s, u :: 0 <= s < TableLength(t) && 0 <= u < TableLength(t) && s != u && Occurrences(ts, s) > 0 ==>
              (Occurrences(ts, u) > 0 ==> !(ct.SymbolBits(s) <= ct.SymbolBits(u)))
  {
    hide OptimizedTable, Occurrences, Sizes, ValidTable, CodesOf, AllOnes;
    var count := Counts(ts, TableLength(t));
    forall s | 0 <= s < TableLength(t) && Occurrences(ts, s) > 0
      ensures 1 <= ct.sizes[s] <= MAX_CODE_SIZE && !AllOnes(ct.SymbolBits(s))
    {
      CodeOfCounted(count, bits, val, ct, s);
    }
    forall s, u | 0 <= s < TableLength(t) && 0 <= u < TableLength(t) && 0 < Occurrences(ts, u) < Occurrences(ts, s)
      ensures ct.sizes[s] <= ct.sizes[u]
    {
      FrequentIsShorter(count, bits, val, ct, s, u);
    }
    forall s, u | 0 <= s < TableLength(t) && 0 <= u < TableLength(t) && s != u
        && Occurrences(ts, s) > 0 && Occurrences(ts, u) > 0
      ensures !(ct.SymbolBits(s) <= ct.SymbolBits(u))
    {
      CodesPrefixFree(count, bits, val, ct, s, u);
    }
  }

  /** The DC token of block i. */
  lemma {:induction false} DcTokenOf(scan: seq<Block>, i: nat) returns (x: Token)
    requires IsScan(scan) && i < |scan|
    ensures x in ScanTokens(scan, TableClass(scan[i].component)) && x.symbol == DcCategory(scan, i)
  {
    hide IsBlock, Pred, NumBits, ScanTokens;
    var n := |scan| - 1;
    NextBlock(scan, n);
    assert scan[..n + 1] == scan;
    if i < n {
      x := DcTokenOf(scan[..n], i);
      assert scan[..n][..i] == scan[..i] && scan[..n][i] == scan[i];
    } else {
      var pred, t := Pred(scan[..n], scan[n].component), TableClass(scan[n].component);
      x := DcToken(scan[n].coef[0] - pred);
      assert TableTokens(scan[n], pred, t) == [x] && ScanTokens(scan, t) == ScanTokens(scan[..n], t) + [x];
      assert (ScanTokens(scan[..n], t) + [x])[|ScanTokens(scan[..n], t)|] == x;
    }
  }

  /** The block whose DC token x is. */
  lemma {:induction false} DcTokenFrom(scan: seq<Block>, t: nat, x: Token) returns (i: nat)
    requires IsScan(scan) && t < 2 && x in ScanTokens(scan, t)
    ensures i < |scan| && x.symbol == DcCategory(scan, i)
  {
    hide IsBlock, Pred, NumBits, ScanTokens;
    if scan == [] {
      EmptyScan();
    }
    var n := |scan| - 1;
    NextBlock(scan, n);
    assert scan[..n + 1] == scan;
    if x in ScanTokens(scan[..n], t) {
      i := DcTokenFrom(scan[..n], t, x);
      assert scan[..n][..i] == scan[..i];
    } else {
      i := n;
    }
  }

  /** Tables made from what pass one counted. */
  ghost predicate TablesOfScan(scan: seq<Block>, bits: seq<seq<nat>>, val: seq<seq<nat>>, tables: seq<CodeTable>)
    requires IsScan(scan)
  {
    && |bits| == |val| == 4 && FourCodeTables(tables)
    && forall t :: 0 <= t < 4 ==> ScanTokens(scan, t) != [] ==>
       ListsFor(ScanTokens(scan, t), t, bits[t], val[t]) && TableFrom(bits[t], val[t], tables[t])
  }

  /** Pass two never meets a symbol without a code exactly if no DC difference is too large for the tables. */
  lemma {:induction false} CodesIffDcInRange(scan: seq<Block>, bits: seq<seq<nat>>, val: seq<seq<nat>>,
          tables: seq<CodeTable>)
    requires IsScan(scan) && TablesOfScan(scan, bits, val, tables)
    ensures ScanHasCodes(scan, tables) <==> DcInRange(scan)
  {
    hide ListsFor, TableFrom, ScanTokens, IsScan, DcCategory, Occurrences;
    if DcInRange(scan) {
      forall t, k | 0 <= t < 4 && 0 <= k < |ScanTokens(scan, t)|
        ensures var s := ScanTokens(scan, t)[k].symbol; s < 256 && tables[t].sizes[s] > 0
      {
        var x := ScanTokens(scan, t)[k];
        SymbolsOfTable(scan, t);
        if t < 2 {
          var i := DcTokenFrom(scan, t, x);
        }
        Among(ScanTokens(scan, t), x);
        CodeIffCounted(ScanTokens(scan, t), t, bits[t], val[t], tables[t], x.symbol);
      }
    }
    if ScanHasCodes(scan, tables) {
      forall i | 0 <= i < |scan|
        ensures DcCategory(scan, i) < DC_CATEGORIES
      {
        var x := DcTokenOf(scan, i);
        var t := TableClass(scan[i].component);
        var k :| 0 <= k < |ScanTokens(scan, t)| && ScanTokens(scan, t)[k] == x;
        assert HaveCodes(ScanTokens(scan, t), tables[t]);
        CodeIffCounted(ScanTokens(scan, t), t, bits[t], val[t], tables[t], x.symbol);
      }
    }
  }

  // Pass two.

  /** Computes the code table of the given lists. */
  method ComputeTable(bits: array<nat>, val: array<nat>, ghost ts: seq<Token>, ghost t: nat) returns (ct: CodeTable)
    requires bits.Length == 1 + MAX_CODE_SIZE && ListsFor(ts, t, bits[..], val[..])
    ensures TableFrom(bits[..], val[..], ct)
  {
    hide Sizes, ValidTable, CodesOf, Occurrences;
    var codes, sizes := new nat[SYMBOLS], new nat[SYMBOLS];
    ComputeHuffmanTable(codes, sizes, bits, val);
    ct := CodeTable(codes[..], sizes[..]);
    TableWellFormed(bits[..], val[..], ct, MAX_CODE_SIZE);
  }

  lemma {:induction false} TableWellFormed(bits: seq<nat>, val: seq<nat>, ct: CodeTable, m: nat)
    requires m == MAX_CODE_SIZE && |bits| == 1 + m && ValidTable(Sizes(bits), val, m)
    requires CodesOf(Sizes(bits), val, m, ct.codes, ct.sizes)
    ensures ct.WellFormed()
  {
    hide Sizes, ValidTable, CodesOf, CodeTable.WellFormed;
    var code := CodeOfEachEntry(Sizes(bits), val, ct, m);
    CodesWellFormed(Sizes(bits), val, code, ct, m);
  }

  /** A table without any codes. */
  function NoCodes(): (ct: CodeTable)
    ensures ct.WellFormed()
  {
    CodeTable(seq(256, i => 0), seq(256, i => 0))
  }

  /** Pass two over a scan. */
  method PutScan(scan: seq<Block>, lastDcVal: array<int>, tables: seq<CodeTable>, w: BitWriter)
    requires IsScan(scan) && FourCodeTables(tables) && lastDcVal.Length == COMPONENTS && w.Valid()
      && w.outBuf as object != lastDcVal
    requires w.written == [] && forall c :: 0 <= c < COMPONENTS ==> lastDcVal[c] == 0
    modifies lastDcVal, w, w.outBuf
    ensures w.Valid() && w.outBuf == old(w.outBuf) && w.written == ScanBits(scan, tables)
  {
    hide IsBlock, ScanTokens, TableTokens, Pred, Occurrences, BlockBits, ScanBits, BitWriter.Valid;
    hide CodeTable.WellFormed;
    assert scan[..0] == [];
    EmptyScan();
    NoBits(tables);
    ScanFull(scan);
    for i := 0 to |scan|
      invariant IsScan(scan[..i]) && FullBlocks(scan[..i]) && LastDcValues(lastDcVal[..], scan[..i])
      invariant w.Valid() && w.outBuf == old(w.outBuf) && w.written == ScanBits(scan[..i], tables)
    {
      NextBlock(scan, i);
      BlockFacts(scan[i]);
      assert lastDcVal[..][scan[i].component] == lastDcVal[scan[i].component];
      CodeCoefficientsPassTwo(scan[i], lastDcVal, tables, w);
    }
    assert scan[..|scan|] == scan;
  }

  lemma {:induction false} NoBits(tables: seq<CodeTable>)
    requires FourCodeTables(tables)
    ensures ScanBits([], tables) == []
  {
  }

  /** The bytes of a scan. */
  ghost function ScanData(scan: seq<Block>, tables: seq<CodeTable>): seq<Byte>
    requires IsScan(scan) && FourCodeTables(tables)
  {
    Finished(ScanBits(scan, tables))
  }

  /** The DHT segment of table t. */
  ghost function SegmentOf(bits: seq<nat>, val: seq<nat>, t: nat): seq<Byte>
    requires ByteLists(bits, val) && t < 4
  {
    DhtSegment(bits, val, t % 2, t >= 2)
  }

  lemma {:induction false} ListsAreBytes(ts: seq<Token>, t: nat, bits: seq<nat>, val: seq<nat>)
    requires ListsFor(ts, t, bits, val)
    ensures ByteLists(bits, val)
  {
  }

  /** Which tables an image with n components uses. */
  predicate TableUsed(t: nat, n: nat) {
    t % 2 == 0 || n > 1
  }

  /** Table t of a scan, from its counts to its segment. */
  ghost predicate TableDone(scan: seq<Block>, t: nat, bits: seq<nat>, val: seq<nat>, ct: CodeTable, dht: seq<Byte>)
    requires IsScan(scan) && t < 4
  {
    && ListsFor(ScanTokens(scan, t), t, bits, val) && TableFrom(bits, val, ct) && ByteLists(bits, val)
    && dht == SegmentOf(bits, val, t)
  }

  /** What the encoder makes of a scan: tables from its counts, their segments, and the scan's data. */
  ghost predicate Encoded(scan: seq<Block>, n: nat, bits: seq<seq<nat>>, val: seq<seq<nat>>, tables: seq<CodeTable>,
          dhts: seq<seq<Byte>>, data: seq<Byte>)
    requires IsScan(scan)
  {
    && |bits| == |val| == |dhts| == 4 && FourCodeTables(tables)
    && (forall t :: 0 <= t < 4 && TableUsed(t, n) ==> TableDone(scan, t, bits[t], val[t], tables[t], dhts[t]))
    && (forall t :: 0 <= t < 4 && !TableUsed(t, n) ==> tables[t] == NoCodes())
    && data == ScanData(scan, tables)
  }

  ghost predicate FourLists(huffBits: seq<array<nat>>, huffVal: seq<array<nat>>) {
    && |huffBits| == |huffVal| == 4
    && forall t :: 0 <= t < 4 ==> huffBits[t].Length == 1 + MAX_CODE_SIZE && huffVal[t].Length == 256
  }

  /** No counter of pass one wraps, and the code lengths of the tables in use have counters. */
  ghost predicate ScanFits(scan: seq<Block>, n: nat)
    requires IsScan(scan)
  {
    && (forall t :: 0 <= t < 4 ==> |ScanTokens(scan, t)| < UINT32_RANGE)
    && forall t :: 0 <= t < 4 && TableUsed(t, n) ==> CountersSuffice(Counts(ScanTokens(scan, t), TableLength(t)))
  }

  /** Scans in which no table codes too many symbols fit, whatever the symbols are. */
  lemma {:induction false} FewTokensFit(scan: seq<Block>, n: nat)
    requires IsScan(scan) && forall t :: 0 <= t < 4 ==> |ScanTokens(scan, t)| + 1 < COUNTERS_TOTAL
    ensures ScanFits(scan, n)
  {
    hide ScanTokens, IsScan, CountersSuffice, Occurrences, Sum;
    forall t | 0 <= t < 4 && TableUsed(t, n)
      ensures CountersSuffice(Counts(ScanTokens(scan, t), TableLength(t)))
    {
      var count := Counts(ScanTokens(scan, t), TableLength(t));
      CountsTotal(count, ScanTokens(scan, t), TableLength(t));
      SmallTotalSuffices(count);
    }
  }

  /** Ends pass one: the lists of the tables in use. */
  method TerminatePassOne(huffCount: seq<array<nat>>, n: nat, ghost scan: seq<Block>)
      returns (huffBits: seq<array<nat>>, huffVal: seq<array<nat>>)
    requires IsScan(scan) && |huffCount| == 4
    requires forall t :: 0 <= t < 4 ==> huffCount[t].Length == 256 && CountsOf(huffCount[t][..], ScanTokens(scan, t))
    requires forall t :: 0 <= t < 4 && TableUsed(t, n) ==> CountersSuffice(Counts(ScanTokens(scan, t), TableLength(t)))
    ensures FourLists(huffBits, huffVal)
    ensures forall t :: 0 <= t < 4 && TableUsed(t, n) ==>
      ListsFor(ScanTokens(scan, t), t, huffBits[t][..], huffVal[t][..])
  {
    hide ScanTokens, OptimizedTable, ListsFor, CountsOf, IsScan, CountersSuffice, Counts;
    var bits0, val0 := OptimizeTable(huffCount[0], 0, scan);
    var bits2, val2 := OptimizeTable(huffCount[2], 2, scan);
    var bits1, val1, bits3, val3 := bits0, val0, bits2, val2;
    if n > 1 {
      bits1, val1 := OptimizeTable(huffCount[1], 1, scan);
      bits3, val3 := OptimizeTable(huffCount[3], 3, scan);
    }
    huffBits, huffVal := [bits0, bits1, bits2, bits3], [val0, val1, val2, val3];
  }

  /** Prepares pass two: the codes of the tables in use, and their segments. */
  method SecondPassInit(huffBits: seq<array<nat>>, huffVal: seq<array<nat>>, n: nat, ghost scan: seq<Block>)
      returns (tables: seq<CodeTable>, dhts: seq<seq<Byte>>)
    requires IsScan(scan) && FourLists(huffBits, huffVal)
    requires forall t :: 0 <= t < 4 && TableUsed(t, n) ==>
      ListsFor(ScanTokens(scan, t), t, huffBits[t][..], huffVal[t][..])
    ensures FourCodeTables(tables) && |dhts| == 4
    ensures forall t :: 0 <= t < 4 && TableUsed(t, n) ==>
              TableDone(scan, t, huffBits[t][..], huffVal[t][..], tables[t], dhts[t])
    ensures forall t :: 0 <= t < 4 && !TableUsed(t, n) ==> tables[t] == NoCodes()
    ensures n == 1 ==> dhts[1] == [] && dhts[3] == [] && tables[1] == tables[3] == NoCodes()
  {
    hide ScanTokens, ListsFor, IsScan, TableFrom, TableDone, CodeTable.WellFormed;
    var t1, t3, d1, d3 := NoCodes(), NoCodes(), [], [];
    var t0, d0 := PrepareTable(huffBits[0], huffVal[0], 0, scan);
    var t2, d2 := PrepareTable(huffBits[2], huffVal[2], 2, scan);
    if n > 1 {
      t1, d1 := PrepareTable(huffBits[1], huffVal[1], 1, scan);
      t3, d3 := PrepareTable(huffBits[3], huffVal[3], 3, scan);
    }
    tables, dhts := [t0, t1, t2, t3], [d0, d1, d2, d3];
  }

  method PrepareTable(bits: array<nat>, val: array<nat>, t: nat, ghost scan: seq<Block>)
      returns (ct: CodeTable, dht: seq<Byte>)
    requires IsScan(scan) && t < 4 && bits.Length == 1 + MAX_CODE_SIZE
      && ListsFor(ScanTokens(scan, t), t, bits[..], val[..])
    ensures TableDone(scan, t, bits[..], val[..], ct, dht) && ct.WellFormed()
  {
    hide ScanTokens, ListsFor, IsScan, ByteLists, CodeTable.WellFormed, Sizes, CodesOf, ValidTable;
    ct := ComputeTable(bits, val, ScanTokens(scan, t), t);
    ListsAreBytes(ScanTokens(scan, t), t, bits[..], val[..]);
    dht := EmitDht(bits, val, t % 2, t >= 2);
  }

  /** The first pass: counting from cleared counters, then the lists. */
  method FirstPass(scan: seq<Block>, n: nat) returns (huffBits: seq<array<nat>>, huffVal: seq<array<nat>>)
    requires IsScan(scan) && ScanFits(scan, n)
    ensures FourLists(huffBits, huffVal)
    ensures forall t :: 0 <= t < 4 && TableUsed(t, n) ==>
      ListsFor(ScanTokens(scan, t), t, huffBits[t][..], huffVal[t][..])
  {
    hide ScanTokens, ListsFor, IsScan, CountsOf, CountersSuffice, Counts;
    var lastDcVal := new int[COMPONENTS](i => 0);
    var c0, c1, c2, c3 := new nat[256](i => 0), new nat[256](i => 0), new nat[256](i => 0), new nat[256](i => 0);
    var huffCount := [c0, c1, c2, c3];
    CountScan(scan, lastDcVal, huffCount);
    huffBits, huffVal := TerminatePassOne(huffCount, n, scan);
  }

  /** The second pass: writing from cleared predictors, then padding and EOI. */
  method SecondPass(scan: seq<Block>, tables: seq<CodeTable>) returns (data: seq<Byte>)
    requires IsScan(scan) && FourCodeTables(tables)
    ensures data == ScanData(scan, tables)
  {
    hide IsScan, FourCodeTables, Finished, ScanBits, BitWriter.Valid;
    var lastDcVal := new int[COMPONENTS](i => 0);
    var w := new BitWriter([]);
    PutScan(scan, lastDcVal, tables, w);
    w.Terminate();
    data := w.stream;
    assert [] + Finished(ScanBits(scan, tables)) == Finished(ScanBits(scan, tables));
  }

  /**
   * Encodes a scan of an image with n components in two passes. The segments of the tables in use
   * precede the scan's data in the file.
   */
  method EncodeScan(scan: seq<Block>, n: nat)
      returns (dhts: seq<seq<Byte>>, data: seq<Byte>)
    requires IsScan(scan) && (n == 1 || n == 3) && ScanFits(scan, n)
    ensures exists bits, val, tables :: Encoded(scan, n, bits, val, tables, dhts, data)
    ensures |dhts| == 4 && (n == 1 ==> dhts[1] == [] && dhts[3] == [])
  {
    hide ScanTokens, ListsFor, IsScan, TableDone, CodeTable.WellFormed, ScanData, ScanFits;
    var huffBits, huffVal := FirstPass(scan, n);
    var codeTables;
    codeTables, dhts := SecondPassInit(huffBits, huffVal, n, scan);
    data := SecondPass(scan, codeTables);
    ghost var bits := [huffBits[0][..], huffBits[1][..], huffBits[2][..], huffBits[3][..]];
    ghost var val := [huffVal[0][..], huffVal[1][..], huffVal[2][..], huffVal[3][..]];
    assert Encoded(scan, n, bits, val, codeTables, dhts, data);
  }
}
