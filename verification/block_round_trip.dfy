/** The decoder reads back the blocks that pass two of the encoder wrote. */
module BlockRoundTrip {
  import opened Powers
  import opened BitStrings
  import opened EntropyData
  import opened CodeLengths
  import opened CanonicalCodes
  import opened HuffmanCodeTable
  import opened VlcTable
  import opened BlockTokens
  import opened BlockEncoder
  import opened BlockDecoder

  /** The bits b are found at position p. */
  ghost predicate Reads(all: seq<bool>, p: nat, b: seq<bool>) {
    p + |b| <= |all| && all[p..p + |b|] == b
  }

  lemma {:induction false} ReadsBoth(all: seq<bool>, p: nat, a: seq<bool>, b: seq<bool>)
    requires Reads(all, p, a + b)
    ensures Reads(all, p, a) && Reads(all, p + |a|, b)
  {
    var n := |a| + |b|;
    assert all[p..p + n] == a + b;
    assert all[p..p + |a|] == (a + b)[..|a|] == a;
    assert all[p + |a|..p + n] == (a + b)[|a|..] == b;
  }

  /** Wherever a symbol's code is found, the lookup table gives the symbol and the size of its code. */
  ghost predicate Inverts(table: seq<VlcCode>, ct: CodeTable) {
    && |table| == VLC_ENTRIES && ct.WellFormed()
    && forall s: nat, all: seq<bool>, p: nat :: s < 256 && ct.sizes[s] > 0 && Reads(all, p, ct.SymbolBits(s)) ==>
         table[Window16(all, p)] == VlcCode(ct.sizes[s], s)
  }

  lemma {:induction false} InvertsWellFormed(table: seq<VlcCode>, ct: CodeTable)
    requires Inverts(table, ct)
    ensures |table| == VLC_ENTRIES && ct.WellFormed()
  {
  }

  /** A window that begins with the code of symbol number i of the list; codes have at most m = 16 bits. */
  lemma {:induction false} LookUp(table: seq<VlcCode>, l: seq<nat>, val: seq<nat>, code: seq<nat>, i: nat,
          all: seq<bool>, p: nat, m: nat)
    requires m == 16 && VlcFor(table, l, val, m) && Canonical(l, code, m) && Kraft(l, m) <= Pow2(m)
    requires |code| == |l| && i < |l| && Reads(all, p, ToBits(code[i], l[i]))
    ensures table[Window16(all, p)] == VlcCode(l[i], val[i])
  {
    hide Kraft, Canonical, Start, Ascending, ToBits, FromBits, MapsSlice, Window;
    var w := Window(all, p, m);
    CodeFits(l, code, m, i);
    WindowBegins(all, p, ToBits(code[i], l[i]), m);
    WindowInSlice(l, code, m, i, w);
    SliceMapped(table, l, val, m, i, Window16(all, p));
  }

  lemma {:induction false} WindowBegins(all: seq<bool>, p: nat, bits: seq<bool>, m: nat)
    requires Reads(all, p, bits) && |bits| <= m
    ensures bits == Window(all, p, m)[..|bits|]
  {
  }

  lemma {:induction false} SliceMapped(table: seq<VlcCode>, l: seq<nat>, val: seq<nat>, m: nat, i: nat, w: nat)
    requires VlcFor(table, l, val, m) && i < |l| && w < |table| && Start(l, i, m) <= w < Start(l, i + 1, m)
    ensures i < |val| && table[w] == VlcCode(l[i], val[i])
  {
    hide Start;
    assert MapsSlice(table, l, val, m, i);
  }

  /** The table that the decoder fills from the lists of a table inverts the codes of m bits that the encoder makes. */
  lemma {:induction false} TableInverts(table: seq<VlcCode>, l: seq<nat>, val: seq<nat>, val': seq<nat>, ct: CodeTable,
          m: nat)
    requires m == 16 && ValidTable(l, val, m) && CodesOf(l, val, m, ct.codes, ct.sizes)
    requires VlcFor(table, l, val', m) && val[..|l|] == val'[..|l|]
    ensures Inverts(table, ct)
  {
    hide ValidTable, CodesOf, VlcFor, Canonical, Window16, ToBits, Reads, CodeTable.WellFormed, CodeTable.SymbolBits;
    ListsUsable(table, l, val, val', m);
    var code := CodeOfEachEntry(l, val, ct, m);
    CodesWellFormed(l, val, code, ct, m);
    forall s: nat, all: seq<bool>, p: nat | s < 256 && ct.sizes[s] > 0 && Reads(all, p, ct.SymbolBits(s))
      ensures table[Window16(all, p)] == VlcCode(ct.sizes[s], s)
    {
      var i := FindSymbol(l, val, ct, s, m);
      assert val'[i] == val'[..|l|][i] == val[i];
      SymbolBitsAre(ct, s, code[i], l[i]);
      LookUp(table, l, val', code, i, all, p, m);
    }
  }

  lemma {:induction false} SymbolBitsAre(ct: CodeTable, s: nat, c: nat, n: nat)
    requires ct.WellFormed() && s < 256 && ct.codes[s] == c && ct.sizes[s] == n
    ensures ct.SymbolBits(s) == ToBits(c, n)
  {
  }

  lemma {:induction false} ListsUsable(table: seq<VlcCode>, l: seq<nat>, val: seq<nat>, val': seq<nat>, m: nat)
    requires ValidTable(l, val, m) && VlcFor(table, l, val', m)
    ensures |table| == VLC_ENTRIES && |l| <= |val| && |l| <= |val'| && AtMost(l, m) && Kraft(l, m) <= Pow2(m)
    ensures forall p :: 0 <= p < |l| ==> val[p] < SYMBOLS
  {
  }

  lemma {:induction false} CodeOfEachEntry(l: seq<nat>, val: seq<nat>, ct: CodeTable, m: nat) returns (code: seq<nat>)
    requires ValidTable(l, val, m) && CodesOf(l, val, m, ct.codes, ct.sizes)
    ensures |code| == |l| && Canonical(l, code, m)
    ensures |ct.codes| == |ct.sizes| == SYMBOLS && forall p :: 0 <= p < |l| ==> code[p] == ct.codes[val[p]]
  {
    hide Start, Pow2, Kraft;
    code := seq(|l|, p requires 0 <= p < |l| => ct.codes[val[p]]);
    forall p | 0 <= p < |l|
      ensures code[p] * Pow2(m - l[p]) == Start(l, p, m)
    {
      assert code[p] == ct.codes[val[p]];
    }
  }

  lemma {:induction false} FindSymbol(l: seq<nat>, val: seq<nat>, ct: CodeTable, s: nat, m: nat) returns (i: nat)
    requires ValidTable(l, val, m) && CodesOf(l, val, m, ct.codes, ct.sizes) && s < 256 && ct.sizes[s] > 0
    ensures i < |l| && val[i] == s && ct.sizes[s] == l[i]
  {
    assert s in val[..|l|];
    i :| 0 <= i < |l| && val[..|l|][i] == s;
    assert val[i] == s;
  }

  /** As everywhere here, m is the largest size of a code, a parameter so that the verifier does not unroll Pow2. */
  lemma {:induction false} CodesWellFormed(l: seq<nat>, val: seq<nat>, code: seq<nat>, ct: CodeTable, m: nat)
    requires m == 16 && ValidTable(l, val, m) && CodesOf(l, val, m, ct.codes, ct.sizes)
    requires Canonical(l, code, m) && forall p :: 0 <= p < |l| ==> code[p] == ct.codes[val[p]]
    ensures ct.WellFormed()
  {
    forall s | 0 <= s < 256
      ensures ct.sizes[s] <= 16 && ct.codes[s] < Pow2(ct.sizes[s])
    {
      if s in val[..|l|] {
        var i :| 0 <= i < |l| && val[..|l|][i] == s;
        assert val[i] == s;
        CodeFits(l, code, m, i);
      }
    }
  }

  /** The extra bits tell the value. */
  lemma {:induction false} ExtendExtraBits(v: int, n: nat)
    requires n == NumBits(Abs(v))
    ensures Extend(FromBits(ExtraBits(v, n)), n) == v
  {
    NumBitsBounds(Abs(v));
    var x := LowBitsOf(if v < 0 then v - 1 else v, n);
    FromToBits(x, n);
    if n > 0 {
      if v < 0 {
        Residue(v - 1, Pow2(n));
      } else {
        Residue(v, Pow2(n));
      }
    }
  }

  lemma {:induction false} Residue(v: int, d: int)
    requires d > 0 && -d <= v < d
    ensures v % d == if v < 0 then v + d else v
  {
  }

  /** A token whose extra bits are as many as its symbol says. */
  ghost predicate Proper(t: Token) {
    t.symbol < 256 && t.symbol % 16 == NumBits(Abs(t.value))
  }

  /**
   * Of 16-bit coefficients, exactly -32768 has no proper token: its size of 16 runs over into the run of the symbol,
   * and after a run of 15 into symbol 256, for which there is no counter.
   */
  lemma {:induction false} ProperIffInRange(coef: seq<int>)
    requires |coef| == BLOCK_SIZE && forall i :: 1 <= i < BLOCK_SIZE ==> Int16(coef[i])
    ensures AcInRange(coef) <==> forall t :: t in BlockAcTokens(coef) ==> Proper(t)
    ensures AcInRange(coef) <==> forall i :: 1 <= i < BLOCK_SIZE ==> coef[i] != -0x8000
  {
    hide AcTokens, Proper;
    Fifteen(AC_BITS);
    if AcInRange(coef) {
      TokensProper(coef, 1, 0);
    } else {
      var i :| 1 <= i < BLOCK_SIZE && coef[i] == -0x8000;
      var run := TokenThere(coef, 1, 0, i);
      NotProper(run);
    }
  }

  /** The exponent n is a parameter, so that the verifier does not unroll Pow2. */
  lemma {:induction false} Fifteen(n: nat)
    requires n == 15
    ensures Pow2(n) == 0x8000
  {
    assert Pow2(7) == 128 && Pow2(8) == 256;
    Pow2Add(7, 8);
  }

  lemma {:induction false} NotProper(run: nat)
    requires run < 16
    ensures !Proper(AcToken(run, -0x8000))
  {
    Fifteen(15);
    NumBitsBelow(0x8000, 15);
  }

  lemma {:induction false} TokensProper(coef: seq<int>, i: nat, run: nat)
    requires AcInRange(coef) && 1 <= i <= BLOCK_SIZE
    ensures forall t :: t in AcTokens(coef, i, run) ==> Proper(t)
    decreases BLOCK_SIZE - i
  {
    if i < BLOCK_SIZE {
      hide NumBits, Pow2, Proper;
      TokensProper(coef, i + 1, if coef[i] == 0 then run + 1 else 0);
      ProperTokens(run, coef[i]);
    } else {
      hide NumBits, Pow2;
      NoSize();
    }
  }

  lemma {:induction false} ProperTokens(run: nat, v: int)
    requires Abs(v) < Pow2(AC_BITS)
    ensures forall t :: t in ZeroRuns(run / 16) ==> Proper(t)
    ensures v != 0 ==> Proper(AcToken(run % 16, v))
  {
    hide NumBits, Pow2;
    ZeroRunSymbols(run / 16);
    NoSize();
    NumBitsBelow(Abs(v), AC_BITS);
  }

  lemma {:induction false} NoSize()
    ensures NumBits(0) == 0
  {
  }

  /** Every coefficient that is not zero has its token. */
  lemma {:induction false} TokenThere(coef: seq<int>, i: nat, run: nat, k: nat) returns (r: nat)
    requires |coef| == BLOCK_SIZE && i <= k < BLOCK_SIZE && coef[k] != 0
    ensures r < 16 && AcToken(r, coef[k]) in AcTokens(coef, i, run)
    decreases BLOCK_SIZE - i
  {
    hide NumBits;
    if i == k {
      r := run % 16;
      var ts := ZeroRuns(run / 16);
      assert (ts + [AcToken(r, coef[k])] + AcTokens(coef, i + 1, 0))[|ts|] == AcToken(r, coef[k]);
    } else {
      r := TokenThere(coef, i + 1, if coef[i] == 0 then run + 1 else 0, k);
    }
  }

  lemma {:induction false} TokenRoundTrip(table: seq<VlcCode>, ct: CodeTable, t: Token, all: seq<bool>, p: nat)
    requires Inverts(table, ct) && Proper(t) && ct.sizes[t.symbol] > 0 && Reads(all, p, TokenBits(t, ct))
    ensures DecodeToken(table, all, p) == Decoded(t.symbol, t.value, p + |TokenBits(t, ct)|)
  {
    hide Window16, NumBits, ExtraBits, FromBits, Extend;
    var n := t.symbol % 16;
    ReadsBoth(all, p, ct.SymbolBits(t.symbol), ExtraBits(t.value, n));
    var at := p + ct.sizes[t.symbol];
    assert Window(all, at, n) == all[at..at + n] == ExtraBits(t.value, n);
    ExtendExtraBits(t.value, n);
  }

  /** All symbols of the tokens have codes. */
  ghost predicate HaveCodes(ts: seq<Token>, ct: CodeTable)
    requires ct.WellFormed()
  {
    forall i :: 0 <= i < |ts| ==> ts[i].symbol < 256 && ct.sizes[ts[i].symbol] > 0
  }

  lemma {:induction false} FirstToken(table: seq<VlcCode>, ct: CodeTable, t: Token, rest: seq<Token>, all: seq<bool>,
          p: nat)
    requires Inverts(table, ct) && Proper(t) && HaveCodes([t] + rest, ct) && AllSymbols([t] + rest)
    requires Reads(all, p, TokensBits([t] + rest, ct))
    ensures AllSymbols(rest) && HaveCodes(rest, ct)
    ensures var next := p + |TokenBits(t, ct)|;
      && DecodeToken(table, all, p) == Decoded(t.symbol, t.value, next) && Reads(all, next, TokensBits(rest, ct))
      && next + |TokensBits(rest, ct)| == p + |TokensBits([t] + rest, ct)|
  {
    hide Inverts, TokensBits, TokenBits, CodeTable.WellFormed, CodeTable.SymbolBits, HaveCodes, AllSymbols, Reads;
    hide DecodeToken;
    InvertsWellFormed(table, ct);
    TailHasCodes(t, rest, ct);
    TokensBitsConcat([t], rest, ct);
    OneTokenBits(t, ct);
    ReadsBoth(all, p, TokenBits(t, ct), TokensBits(rest, ct));
    TokenRoundTrip(table, ct, t, all, p);
  }

  lemma {:induction false} TailHasCodes(t: Token, rest: seq<Token>, ct: CodeTable)
    requires ct.WellFormed() && HaveCodes([t] + rest, ct)
    ensures t.symbol < 256 && ct.sizes[t.symbol] > 0 && HaveCodes(rest, ct) && AllSymbols(rest) && AllSymbols([t])
  {
    var ts := [t] + rest;
    assert ts[0] == t;
    forall i | 0 <= i < |rest|
      ensures rest[i].symbol < 256 && ct.sizes[rest[i].symbol] > 0
    {
      assert ts[i + 1] == rest[i];
    }
  }

  /** The decoder has read coefficients 1..k; the encoder is at coefficient i after run zeros. */
  ghost predicate InStep(coef: seq<int>, i: nat, run: nat, cur: seq<int>) {
    && |coef| == |cur| == BLOCK_SIZE && 1 <= i <= BLOCK_SIZE && run < i
    && (forall j :: 0 <= j < i ==> cur[j] == coef[j]) && (forall j :: i <= j < BLOCK_SIZE ==> cur[j] == 0)
    && (forall j :: i - run <= j < i ==> coef[j] == 0)
  }

  // What one token makes the decoder do.

  lemma {:induction false} DecodeEob(table: seq<VlcCode>, all: seq<bool>, p: nat, coef: seq<int>, k: nat, v: int,
          next: nat)
    requires |table| == VLC_ENTRIES && |coef| == BLOCK_SIZE && k < 63
    requires DecodeToken(table, all, p) == Decoded(EOB, v, next)
    ensures DecodeAc(table, all, p, coef, k) == DecodedBlock(coef, next)
  {
  }

  lemma {:induction false} DecodeZrl(table: seq<VlcCode>, all: seq<bool>, p: nat, coef: seq<int>, k: nat, next: nat)
    requires |table| == VLC_ENTRIES && |coef| == BLOCK_SIZE && k + 16 < 63 && coef[k + 16] == 0
    requires DecodeToken(table, all, p) == Decoded(ZRL, 0, next)
    ensures DecodeAc(table, all, p, coef, k) == DecodeAc(table, all, next, coef, k + 16)
  {
    assert coef[k + 16 := 0] == coef;
  }

  lemma {:induction false} DecodeCoefficient(table: seq<VlcCode>, all: seq<bool>, p: nat, coef: seq<int>, k: nat,
          s: nat, v: int, next: nat)
    requires |table| == VLC_ENTRIES && |coef| == BLOCK_SIZE && k + s / 16 + 1 <= 63 && s % 16 != 0
    requires DecodeToken(table, all, p) == Decoded(s, v, next)
    ensures var k' := k + s / 16 + 1;
      DecodeAc(table, all, p, coef, k) ==
        if k' < 63 then DecodeAc(table, all, next, coef[k' := v], k') else DecodedBlock(coef[k' := v], next)
  {
  }

  /** The tokens from coefficient i on, read back. */
  lemma {:induction false} AcRoundTrip(table: seq<VlcCode>, ct: CodeTable, coef: seq<int>, i: nat, run: nat,
          cur: seq<int>, all: seq<bool>, p: nat)
    requires Inverts(table, ct) && AcInRange(coef) && InStep(coef, i, run, cur) && i - 1 - run < 63
    requires AllSymbols(AcTokens(coef, i, run)) && HaveCodes(AcTokens(coef, i, run), ct)
    requires Reads(all, p, TokensBits(AcTokens(coef, i, run), ct))
    ensures DecodeAc(table, all, p, cur, i - 1 - run) ==
      DecodedBlock(coef, p + |TokensBits(AcTokens(coef, i, run), ct)|)
    decreases BLOCK_SIZE - i, run
  {
    hide Inverts, TokensBits, TokenBits, CodeTable.WellFormed, CodeTable.SymbolBits, HaveCodes, AllSymbols, Reads;
    hide DecodeToken;
    hide DecodeAc, NumBits, AcInRange, Abs, ZeroRuns;
    InvertsWellFormed(table, ct);
    var ts, k := AcTokens(coef, i, run), i - 1 - run;
    ZeroProper();
    NoTokens(ct);
    if i == BLOCK_SIZE {
      assert ts == [Token(EOB, 0)] + [];
      FirstToken(table, ct, Token(EOB, 0), [], all, p);
      DecodeEob(table, all, p, cur, k, 0, p + |TokenBits(Token(EOB, 0), ct)|);
      assert cur == coef;
    } else if coef[i] == 0 {
      AcRoundTrip(table, ct, coef, i + 1, run + 1, cur, all, p);
    } else if run >= 16 {
      var rest, next := AcTokens(coef, i, run - 16), p + |TokenBits(Token(ZRL, 0), ct)|;
      ZrlFirst(coef, i, run);
      FirstToken(table, ct, Token(ZRL, 0), rest, all, p);
      DecodeZrl(table, all, p, cur, k, next);
      AcRoundTrip(table, ct, coef, i, run - 16, cur, all, next);
    } else {
      var t, rest := AcToken(run, coef[i]), AcTokens(coef, i + 1, 0);
      assert ts == [t] + rest by { NoRuns(); }
      AcTokenSmall(coef, i, run);
      AcTokenIs(run, coef[i]);
      FirstToken(table, ct, t, rest, all, p);
      var next, cur' := p + |TokenBits(t, ct)|, cur[i := coef[i]];
      DecodeCoefficient(table, all, p, cur, k, t.symbol, coef[i], next);
      if i == 63 {
        assert cur' == coef && rest == [];
      } else {
        AcRoundTrip(table, ct, coef, i + 1, 0, cur', all, next);
      }
    }
  }

  lemma {:induction false} NoRuns()
    ensures ZeroRuns(0) == []
  {
  }

  lemma {:induction false} ZeroProper()
    ensures Proper(Token(EOB, 0)) && Proper(Token(ZRL, 0))
  {
  }

  /** The symbol of a nonzero coefficient: its run and its size, which is not zero. */
  lemma {:induction false} AcTokenIs(run: nat, c: int)
    requires run < 16 && c != 0 && NumBits(Abs(c)) <= 15
    ensures var s := AcToken(run, c).symbol; s / 16 == run && s % 16 != 0 && Proper(AcToken(run, c))
  {
  }

  lemma {:induction false} TokensFrom(coef: seq<int>, i: nat, run: nat)
    requires |coef| == BLOCK_SIZE && i < BLOCK_SIZE && coef[i] != 0
    ensures AcTokens(coef, i, run) == ZeroRuns(run / 16) + [AcToken(run % 16, coef[i])] + AcTokens(coef, i + 1, 0)
  {
    hide AcToken, ZeroRuns;
  }

  lemma {:induction false} ZrlFirst(coef: seq<int>, i: nat, run: nat)
    requires |coef| == BLOCK_SIZE && i < BLOCK_SIZE && coef[i] != 0 && run >= 16
    ensures AcTokens(coef, i, run) == [Token(ZRL, 0)] + AcTokens(coef, i, run - 16)
  {
    hide AcTokens, AcToken, ZeroRuns;
    TokensFrom(coef, i, run);
    TokensFrom(coef, i, run - 16);
    SixteenFewer(run);
    LeadingZrl(ZeroRuns((run - 16) / 16), [AcToken(run % 16, coef[i])], AcTokens(coef, i + 1, 0));
  }

  lemma {:induction false} SixteenFewer(run: nat)
    requires run >= 16
    ensures (run - 16) % 16 == run % 16
    ensures ZeroRuns(run / 16) == [Token(ZRL, 0)] + ZeroRuns((run - 16) / 16)
  {
  }

  lemma {:induction false} LeadingZrl(a: seq<Token>, b: seq<Token>, c: seq<Token>)
    ensures [Token(ZRL, 0)] + a + b + c == [Token(ZRL, 0)] + (a + b + c)
  {
  }

  /** The symbols of a block are among those that the tables have codes for. */
  ghost predicate BlockHasCodes(b: Block, pred: int, tables: seq<CodeTable>)
    requires FourCodeTables(tables) && |b.coef| == BLOCK_SIZE
  {
    var c := TableClass(b.component);
    && HaveCodes([DcToken(b.coef[0] - pred)], tables[c]) && HaveCodes(BlockAcTokens(b.coef), tables[2 + c])
  }

  const DC_CATEGORIES := 12

  /** A block whose component's previous DC value is known, read back. */
  lemma {:induction false} BlockReadsBack(dc: seq<VlcCode>, ac: seq<VlcCode>, tables: seq<CodeTable>, b: Block,
          pred: int, all: seq<bool>, p: nat)
    requires FourCodeTables(tables) && IsBlock(b) && Int16(pred) && NumBits(Abs(b.coef[0] - pred)) < DC_CATEGORIES
    requires Inverts(dc, tables[TableClass(b.component)]) && Inverts(ac, tables[2 + TableClass(b.component)])
    requires BlockHasCodes(b, pred, tables) && Reads(all, p, BlockBits(b, pred, tables))
    ensures DecodeBlockAt(dc, ac, all, p, pred) == DecodedBlock(b.coef, p + |BlockBits(b, pred, tables)|)
  {
    hide Inverts, TokensBits, TokenBits, CodeTable.WellFormed, CodeTable.SymbolBits, Reads, DecodeToken, NumBits, Abs;
    hide DecodeAc, AcTokens;
    var t, ts, dct, act := DcToken(b.coef[0] - pred), BlockAcTokens(b.coef), tables[TableClass(b.component)],
      tables[2 + TableClass(b.component)];
    DcSymbolSmall(b.coef[0] - pred);
    BlockAcSymbolsSmall(b.coef);
    DcBitsAre(t, dct);
    assert [t][0] == t;
    ReadsBoth(all, p, TokenBits(t, dct), TokensBits(ts, act));
    TokenRoundTrip(dc, dct, t, all, p);
    var next, cur := p + |TokenBits(t, dct)|, ZeroBlock()[0 := b.coef[0]];
    AcRoundTrip(ac, act, b.coef, 1, 0, cur, all, next);
  }

  lemma {:induction false} DcBitsAre(t: Token, ct: CodeTable)
    requires ct.WellFormed() && t.symbol < DC_CATEGORIES
    ensures DcBits(t, ct) == TokenBits(t, ct)
  {
  }
}
