/** The two passes of the encoder over a block of quantised coefficients. */
module BlockEncoder {
  import opened Powers
  import opened BitStrings
  import opened JpegBitWriter
  import opened BlockTokens

  /** Code and code size of each of the 256 symbols. */
  datatype CodeTable = CodeTable(codes: seq<nat>, sizes: seq<nat>) {
    /** Codes have the size they claim; a symbol without a code has size zero. */
    ghost predicate WellFormed() {
      && |codes| == 256 && |sizes| == 256
      && forall s :: 0 <= s < 256 ==> sizes[s] <= 16 && codes[s] < Pow2(sizes[s])
    }

    ghost function SymbolBits(s: nat): seq<bool>
      requires WellFormed() && s < 256
    {
      ToBits(codes[s], sizes[s])
    }
  }

  ghost function TokenBits(t: Token, table: CodeTable): seq<bool>
    requires table.WellFormed() && t.symbol < 256
  {
    table.SymbolBits(t.symbol) + ExtraBits(t.value, t.symbol % 16)
  }

  ghost predicate AllSymbols(ts: seq<Token>) {
    forall i :: 0 <= i < |ts| ==> ts[i].symbol < 256
  }

  ghost function TokensBits(ts: seq<Token>, table: CodeTable): seq<bool>
    requires table.WellFormed() && AllSymbols(ts)
  {
    if ts == [] then [] else TokensBits(ts[..|ts| - 1], table) + TokenBits(ts[|ts| - 1], table)
  }

  lemma {:induction false} TokensBitsConcat(a: seq<Token>, b: seq<Token>, table: CodeTable)
    requires table.WellFormed() && AllSymbols(a) && AllSymbols(b)
    ensures AllSymbols(a + b) && TokensBits(a + b, table) == TokensBits(a, table) + TokensBits(b, table)
  {
    if b == [] {
      assert a + b == a;
    } else {
      assert (a + b)[..|a + b| - 1] == a + b[..|b| - 1];
      TokensBitsConcat(a, b[..|b| - 1], table);
    }
  }

  lemma {:induction false} OneTokenBits(t: Token, table: CodeTable)
    requires table.WellFormed() && t.symbol < 256
    ensures TokensBits([t], table) == TokenBits(t, table)
  {
    assert [t][..0] == [];
  }

  /** How often symbol s occurs in a list of tokens. */
  ghost function Occurrences(ts: seq<Token>, s: nat): nat {
    if ts == [] then 0 else Occurrences(ts[..|ts| - 1], s) + if ts[|ts| - 1].symbol == s then 1 else 0
  }

  lemma {:induction false} OccurrencesConcat(a: seq<Token>, b: seq<Token>, s: nat)
    ensures Occurrences(a + b, s) == Occurrences(a, s) + Occurrences(b, s)
  {
    if b == [] {
      assert a + b == a;
    } else {
      assert (a + b)[..|a + b| - 1] == a + b[..|b| - 1];
      OccurrencesConcat(a, b[..|b| - 1], s);
    }
  }

  /** count' is count with every token of ts counted. */
  ghost predicate Counted(count: seq<nat>, count': seq<nat>, ts: seq<Token>) {
    |count'| == |count| && forall s :: 0 <= s < |count| ==> count'[s] == count[s] + Occurrences(ts, s)
  }

  lemma {:induction false} CountOneMore(count: seq<nat>, count': seq<nat>, ts: seq<Token>, t: Token)
    requires Counted(count, count', ts) && t.symbol < |count|
    ensures Counted(count, count'[t.symbol := count'[t.symbol] + 1], ts + [t])
  {
    assert (ts + [t])[..|ts|] == ts;
  }

  /** Which of the luminance (0) and chrominance (1) tables a component uses. */
  function TableClass(component: nat): nat {
    if component == 0 then 0 else 1
  }

  /** The size category of a magnitude, by shifting. */
  method CountShifts(magnitude: nat) returns (nbits: nat)
    ensures nbits == NumBits(magnitude)
  {
    var temp1 := magnitude;
    nbits := 0;
    while temp1 != 0
      invariant nbits + NumBits(temp1) == NumBits(magnitude)
      decreases temp1
    {
      nbits := nbits + 1;
      temp1 := temp1 / 2;
    }
  }

  /** The same for a magnitude known not to be zero. */
  method CountShiftsNonzero(magnitude: nat) returns (nbits: nat)
    requires magnitude > 0
    ensures nbits == NumBits(magnitude)
  {
    nbits := 1;
    var temp1: nat := magnitude / 2;
    while temp1 != 0
      invariant nbits + NumBits(temp1) == NumBits(magnitude)
      decreases temp1
    {
      nbits := nbits + 1;
      temp1 := temp1 / 2;
    }
  }

  /** Counts one symbol. */
  method CountToken(count: array<nat>, s: nat, ghost base: seq<nat>, ghost done: seq<Token>, ghost t: Token)
    requires s < count.Length && t.symbol == s && Counted(base, count[..], done)
    modifies count
    ensures Counted(base, count[..], done + [t])
  {
    CountOneMore(base, count[..], done, t);
    ghost var c := count[..];
    count[s] := count[s] + 1;
    assert count[..] == c[s := c[s] + 1];
  }

  lemma {:induction false} NothingCounted(count: seq<nat>)
    ensures Counted(count, count, [])
  {
  }

  /** Counts the AC symbols of a block. */
  method CountAc(coef: seq<int>, acCount: array<nat>)
    requires |coef| == BLOCK_SIZE && acCount.Length == 256 && AcInRange(coef)
    modifies acCount
    ensures Counted(old(acCount[..]), acCount[..], BlockAcTokens(coef))
  {
    hide Counted, NumBits, AcInRange, Progress, BlockAcTokens;
    ghost var base, done := acCount[..], [];
    BlockAcSymbols(coef);
    NothingCounted(base);
    ProgressStart(coef);
    var runLen := 0;
    for i := 1 to BLOCK_SIZE
      invariant Progress(coef, done, i, runLen) && Counted(base, acCount[..], done)
    {
      if coef[i] == 0 {
        ProgressZero(coef, done, i, runLen);
        runLen := runLen + 1;
      } else {
        while runLen >= 16
          invariant Progress(coef, done, i, runLen) && Counted(base, acCount[..], done)
        {
          ProgressZrl(coef, done, i, runLen);
          CountToken(acCount, ZRL, base, done, Token(ZRL, 0));
          done := done + [Token(ZRL, 0)];
          runLen := runLen - 16;
        }
        ProgressCoefficient(coef, done, i, runLen);
        var nbits := CountShiftsNonzero(Abs(coef[i]));
        CountToken(acCount, runLen * 16 + nbits, base, done, AcToken(runLen, coef[i]));
        done := done + [AcToken(runLen, coef[i])];
        runLen := 0;
      }
    }
    ProgressEnd(coef, done, runLen);
    if runLen != 0 {
      CountToken(acCount, EOB, base, done, Token(EOB, 0));
    }
  }

  /** The counters: one per symbol, for the DC tables 0 and 1 and the AC tables 2 and 3. */
  ghost predicate FourCounts(huffCount: seq<array<nat>>, lastDcVal: array<int>)
    reads huffCount
  {
    && |huffCount| == 4 && lastDcVal.Length == COMPONENTS
    && (forall t :: 0 <= t < 4 ==> huffCount[t].Length == 256 && huffCount[t] as object != lastDcVal)
    && forall t, u :: 0 <= t < u < 4 ==> huffCount[t] != huffCount[u]
  }

  /** Pass one only counts the symbols of a block. */
  method CodeCoefficientsPassOne(b: Block, lastDcVal: array<int>, huffCount: seq<array<nat>>)
    requires FourCounts(huffCount, lastDcVal)
    requires b.component < COMPONENTS ==> IsBlock(b) && Int16(lastDcVal[b.component])
    modifies lastDcVal, huffCount
    ensures b.component >= COMPONENTS ==>
              && lastDcVal[..] == old(lastDcVal[..])
              && forall t :: 0 <= t < 4 ==> huffCount[t][..] == old(huffCount[t][..])
    ensures b.component < COMPONENTS ==> lastDcVal[..] == old(lastDcVal[..])[b.component := b.coef[0]]
    ensures b.component < COMPONENTS ==> forall t :: 0 <= t < 4 ==>
              Counted(old(huffCount[t][..]), huffCount[t][..], TableTokens(b, old(lastDcVal[b.component]), t))
    ensures b.component == 0 ==>
              && Counted(old(huffCount[0][..]), huffCount[0][..], [DcToken(b.coef[0] - old(lastDcVal[0]))])
              && Counted(old(huffCount[2][..]), huffCount[2][..], BlockAcTokens(b.coef))
              && huffCount[1][..] == old(huffCount[1][..]) && huffCount[3][..] == old(huffCount[3][..])
    ensures b.component == 1 || b.component == 2 ==>
              && Counted(old(huffCount[1][..]), huffCount[1][..], [DcToken(b.coef[0] - old(lastDcVal[b.component]))])
              && Counted(old(huffCount[3][..]), huffCount[3][..], BlockAcTokens(b.coef))
              && huffCount[0][..] == old(huffCount[0][..]) && huffCount[2][..] == old(huffCount[2][..])
  {
    hide Counted, NumBits, AcInRange, BlockAcTokens, IsBlock;
    if b.component >= COMPONENTS {
      return;
    }
    BlockFacts(b);
    var dcCount, acCount := huffCount[TableClass(b.component)], huffCount[2 + TableClass(b.component)];
    var temp1: int := b.coef[0] - lastDcVal[b.component];
    ghost var token := DcToken(temp1);
    DcSymbolSmall(temp1);
    lastDcVal[b.component] := b.coef[0];
    if temp1 < 0 {
      temp1 := -temp1;
    }
    var nbits := CountShifts(temp1);
    NothingCounted(dcCount[..]);
    CountToken(dcCount, nbits, dcCount[..], [], token);
    assert [] + [token] == [token];
    CountAc(b.coef, acCount);
    forall t | 0 <= t < 4
      ensures Counted(old(huffCount[t][..]), huffCount[t][..], TableTokens(b, old(lastDcVal[b.component]), t))
    {
      NothingCounted(huffCount[t][..]);
    }
  }

  lemma {:induction false} BlockFacts(b: Block)
    requires IsBlock(b)
    ensures b.component < COMPONENTS && |b.coef| == BLOCK_SIZE && AcInRange(b.coef) && Int16(b.coef[0])
  {
  }

  /** A difference of 16-bit values has at most 16 bits. */
  lemma {:induction false} DcSymbolSmall(diff: int)
    requires -0x1_0000 < diff < 0x1_0000
    ensures DcToken(diff).symbol <= 16
  {
    var n := 16;
    assert Pow2(8) == 256;
    Pow2Add(8, 8);
    NumBitsBelow(Abs(diff), n);
  }

  /** The tokens of block b that table t codes, when the component's previous DC value is pred. */
  function TableTokens(b: Block, pred: int, t: nat): seq<Token>
    requires |b.coef| == BLOCK_SIZE
  {
    if t == TableClass(b.component) then [DcToken(b.coef[0] - pred)]
    else if t == 2 + TableClass(b.component) then BlockAcTokens(b.coef)
    else []
  }

  /** Four usable code tables. */
  ghost predicate FourCodeTables(tables: seq<CodeTable>) {
    |tables| == 4 && forall t :: 0 <= t < 4 ==> tables[t].WellFormed()
  }

  /** A DC difference: the code of its size, then its bits. */
  ghost function DcBits(t: Token, table: CodeTable): seq<bool>
    requires table.WellFormed() && t.symbol < 256
  {
    table.SymbolBits(t.symbol) + ExtraBits(t.value, t.symbol)
  }

  /** The bits of a block whose component's previous DC value is pred. */
  ghost function BlockBits(b: Block, pred: int, tables: seq<CodeTable>): seq<bool>
    requires FourCodeTables(tables) && IsBlock(b) && Int16(pred)
  {
    DcSymbolSmall(b.coef[0] - pred);
    BlockAcSymbolsSmall(b.coef);
    var c := TableClass(b.component);
    DcBits(DcToken(b.coef[0] - pred), tables[c]) + TokensBits(BlockAcTokens(b.coef), tables[2 + c])
  }

  lemma {:induction false} BlockAcSymbolsSmall(coef: seq<int>)
    requires AcInRange(coef)
    ensures AllSymbols(BlockAcTokens(coef))
  {
    BlockAcSymbols(coef);
  }

  /** Writes a symbol's code. */
  method PutSymbol(w: BitWriter, table: CodeTable, s: nat)
    requires w.Valid() && table.WellFormed() && s < 256
    modifies w, w.outBuf
    ensures w.Valid() && w.outBuf == old(w.outBuf) && w.written == old(w.written) + table.SymbolBits(s)
  {
    w.PutBits(table.codes[s], table.sizes[s]);
  }

  /** Writes the low nbits bits of a value, for a negative one those of the value less one. */
  method PutExtraBits(w: BitWriter, temp2: int, nbits: nat, ghost v: int)
    requires w.Valid() && nbits <= 16 && temp2 == if v < 0 then v - 1 else v
    modifies w, w.outBuf
    ensures w.Valid() && w.outBuf == old(w.outBuf) && w.written == old(w.written) + ExtraBits(v, nbits)
  {
    w.PutBits(LowBitsOf(temp2, nbits), nbits);
  }

  /** Writes a coefficient that is not zero, after a run of fewer than 16 zeros. */
  method PutCoefficient(w: BitWriter, c: int, runLen: nat, table: CodeTable)
    requires w.Valid() && c != 0 && runLen < 16 && table.WellFormed()
    requires AcToken(runLen, c).symbol < 256 && AcToken(runLen, c).symbol % 16 == NumBits(Abs(c)) <= 15
    modifies w, w.outBuf
    ensures w.Valid() && w.outBuf == old(w.outBuf)
    ensures var t := AcToken(runLen, c);
      w.written == old(w.written) + table.SymbolBits(t.symbol) + ExtraBits(t.value, t.symbol % 16)
  {
    hide NumBits, ExtraBits, BitWriter.Valid, CodeTable.WellFormed, CodeTable.SymbolBits;
    var temp1: int, temp2: int := c, c;
    if temp2 < 0 {
      temp1 := -temp1;
      temp2 := temp2 - 1;
    }
    var nbits := CountShiftsNonzero(temp1);
    var j := runLen * 16 + nbits;
    PutSymbol(w, table, j);
    PutExtraBits(w, temp2, nbits, c);
  }

  /** Writes the AC coefficients of a block. */
  method PutAc(w: BitWriter, coef: seq<int>, table: CodeTable)
    requires w.Valid() && |coef| == BLOCK_SIZE && AcInRange(coef) && table.WellFormed()
    requires AllSymbols(BlockAcTokens(coef))
    modifies w, w.outBuf
    ensures w.Valid() && w.outBuf == old(w.outBuf)
    ensures w.written == old(w.written) + TokensBits(BlockAcTokens(coef), table)
  {
    hide NumBits, AcInRange, Progress, BlockAcTokens, AllSymbols, TokensBits, TokenBits, ExtraBits, BitWriter.Valid;
    hide CodeTable.WellFormed, CodeTable.SymbolBits;
    ghost var base, done: seq<Token> := w.written, [];
    ProgressStart(coef);
    NoTokens(table);
    assert base == base + [];
    var runLen := 0;
    for i := 1 to BLOCK_SIZE
      invariant w.Valid() && w.outBuf == old(w.outBuf)
      invariant Progress(coef, done, i, runLen) && AllSymbols(done) && w.written == base + TokensBits(done, table)
    {
      if coef[i] == 0 {
        ProgressZero(coef, done, i, runLen);
        runLen := runLen + 1;
      } else {
        while runLen >= 16
          invariant w.Valid() && w.outBuf == old(w.outBuf)
          invariant Progress(coef, done, i, runLen) && AllSymbols(done) && w.written == base + TokensBits(done, table)
        {
          ProgressZrl(coef, done, i, runLen);
          OneMoreToken(done, Token(ZRL, 0), table, base);
          PutSymbol(w, table, ZRL);
          done := done + [Token(ZRL, 0)];
          runLen := runLen - 16;
        }
        ProgressCoefficient(coef, done, i, runLen);
        AcTokenSmall(coef, i, runLen);
        OneMoreToken(done, AcToken(runLen, coef[i]), table, base);
        PutCoefficient(w, coef[i], runLen, table);
        done := done + [AcToken(runLen, coef[i])];
        runLen := 0;
      }
    }
    ProgressEnd(coef, done, runLen);
    if runLen != 0 {
      OneMoreToken(done, Token(EOB, 0), table, base);
      PutSymbol(w, table, EOB);
    }
  }

  lemma {:induction false} NoTokens(table: CodeTable)
    requires table.WellFormed()
    ensures AllSymbols([]) && TokensBits([], table) == []
  {
  }

  lemma {:induction false} AcTokenSmall(coef: seq<int>, i: nat, run: nat)
    requires AcInRange(coef) && 1 <= i < BLOCK_SIZE && coef[i] != 0 && run < 16
    ensures AcToken(run, coef[i]).symbol < 256 && AcToken(run, coef[i]).symbol % 16 == NumBits(Abs(coef[i])) <= 15
  {
    NumBitsBelow(Abs(coef[i]), AC_BITS);
  }

  lemma {:induction false} OneMoreToken(done: seq<Token>, t: Token, table: CodeTable, base: seq<bool>)
    requires table.WellFormed() && AllSymbols(done) && t.symbol < 256
    ensures AllSymbols(done + [t])
    ensures base + TokensBits(done + [t], table) ==
      base + TokensBits(done, table) + table.SymbolBits(t.symbol) + ExtraBits(t.value, t.symbol % 16)
    ensures t.symbol % 16 == 0 ==> ExtraBits(t.value, t.symbol % 16) == []
  {
    TokensBitsConcat(done, [t], table);
    OneTokenBits(t, table);
    assert ExtraBits(t.value, 0) == [];
  }

  /** Component 0 is coded with tables 0 and 2, the others with tables 1 and 3. */
  lemma {:induction false} BlockBitsAre(b: Block, pred: int, tables: seq<CodeTable>)
    requires FourCodeTables(tables) && IsBlock(b) && Int16(pred)
    ensures DcToken(b.coef[0] - pred).symbol < 256 && AllSymbols(BlockAcTokens(b.coef))
    ensures var dc, ac := DcToken(b.coef[0] - pred), BlockAcTokens(b.coef);
      BlockBits(b, pred, tables) ==
        if b.component == 0 then DcBits(dc, tables[0]) + TokensBits(ac, tables[2])
        else DcBits(dc, tables[1]) + TokensBits(ac, tables[3])
  {
    hide AcInRange, BlockAcTokens, AllSymbols, TokensBits, DcBits, CodeTable.WellFormed;
    BlockFacts(b);
    DcSymbolSmall(b.coef[0] - pred);
    BlockAcSymbolsSmall(b.coef);
  }

  /** Pass two writes the symbols of a block and their extra bits. */
  method CodeCoefficientsPassTwo(b: Block, lastDcVal: array<int>, tables: seq<CodeTable>, w: BitWriter)
    requires FourCodeTables(tables) && lastDcVal.Length == COMPONENTS && w.Valid() && w.outBuf as object != lastDcVal
    requires IsBlock(b) && Int16(lastDcVal[b.component])
    modifies lastDcVal, w, w.outBuf
    ensures lastDcVal[..] == old(lastDcVal[..])[b.component := b.coef[0]]
    ensures w.Valid() && w.outBuf == old(w.outBuf)
    ensures w.written == old(w.written) + BlockBits(b, old(lastDcVal[b.component]), tables)
    ensures DcToken(b.coef[0] - old(lastDcVal[b.component])).symbol < 256 && AllSymbols(BlockAcTokens(b.coef))
    ensures var dc, ac := DcToken(b.coef[0] - old(lastDcVal[b.component])), BlockAcTokens(b.coef);
      w.written == old(w.written) +
        if b.component == 0 then DcBits(dc, tables[0]) + TokensBits(ac, tables[2])
        else DcBits(dc, tables[1]) + TokensBits(ac, tables[3])
  {
    hide NumBits, AcInRange, BlockAcTokens, AllSymbols, TokensBits, ExtraBits, IsBlock, BitWriter.Valid;
    hide CodeTable.WellFormed, CodeTable.SymbolBits, BlockBits;
    BlockFacts(b);
    BlockBitsAre(b, lastDcVal[b.component], tables);
    var dcTable, acTable := tables[TableClass(b.component)], tables[2 + TableClass(b.component)];
    var temp1: int := b.coef[0] - lastDcVal[b.component];
    var temp2: int := temp1;
    ghost var token := DcToken(temp1);
    DcSymbolSmall(temp1);
    BlockAcSymbolsSmall(b.coef);
    lastDcVal[b.component] := b.coef[0];
    if temp1 < 0 {
      temp1 := -temp1;
      temp2 := temp2 - 1;
    }
    var nbits := CountShifts(temp1);
    assert nbits == token.symbol;
    assert nbits == 0 ==> ExtraBits(token.value, nbits) == [];
    PutSymbol(w, dcTable, nbits);
    if nbits != 0 {
      PutExtraBits(w, temp2, nbits, token.value);
    }
    PutAc(w, b.coef, acTable);
  }
}
