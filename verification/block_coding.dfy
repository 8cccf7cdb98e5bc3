/** What the two passes of the encoder make of quantised blocks: symbols and extra bits (T.81, F.1.2). */
module BlockTokens {
  import opened Powers
  import opened BitStrings

  const BLOCK_SIZE := 64
  const ZRL := 0xF0
  const EOB := 0
  const AC_BITS := 15

  /** A Huffman symbol and the value that its extra bits tell; the low four bits of the symbol are their number. */
  datatype Token = Token(symbol: nat, value: int)

  function Abs(x: int): nat {
    if x < 0 then -x else x
  }

  /** The number of bits of t. */
  function NumBits(t: nat): nat {
    if t == 0 then 0 else 1 + NumBits(t / 2)
  }

  lemma {:induction false} NumBitsBounds(t: nat)
    ensures t < Pow2(NumBits(t))
    ensures t > 0 ==> Pow2(NumBits(t) - 1) <= t
  {
    if t > 0 {
      NumBitsBounds(t / 2);
    }
  }

  lemma {:induction false} NumBitsBelow(t: nat, n: nat)
    ensures t < Pow2(n) <==> NumBits(t) <= n
  {
    if t > 0 && n > 0 {
      NumBitsBelow(t / 2, n - 1);
    }
  }

  /** The low n bits of v in two's complement, as v & ((1 << n) - 1) gives them. */
  function LowBitsOf(v: int, n: nat): (r: nat)
    ensures r < Pow2(n)
  {
    v % Pow2(n)
  }

  /** The extra bits of a value: its own bits, or for a negative value those of the value less one. */
  function ExtraBits(v: int, n: nat): (b: seq<bool>)
    ensures |b| == n
  {
    ToBits(LowBitsOf(if v < 0 then v - 1 else v, n), n)
  }

  function DcToken(diff: int): Token {
    Token(NumBits(Abs(diff)), diff)
  }

  function AcToken(run: nat, c: int): Token {
    Token(run * 16 + NumBits(Abs(c)), c)
  }

  function ZeroRuns(n: nat): seq<Token> {
    if n == 0 then [] else [Token(ZRL, 0)] + ZeroRuns(n - 1)
  }

  /** The tokens of coefficients i.. after a run of zeros. */
  function AcTokens(coef: seq<int>, i: nat, run: nat): seq<Token>
    requires |coef| == BLOCK_SIZE && i <= BLOCK_SIZE
    decreases BLOCK_SIZE - i
  {
    if i == BLOCK_SIZE then (if run > 0 then [Token(EOB, 0)] else [])
    else if coef[i] == 0 then AcTokens(coef, i + 1, run + 1)
    else ZeroRuns(run / 16) + [AcToken(run % 16, coef[i])] + AcTokens(coef, i + 1, 0)
  }

  /** The AC tokens of a block. */
  function BlockAcTokens(coef: seq<int>): seq<Token>
    requires |coef| == BLOCK_SIZE
  {
    AcTokens(coef, 1, 0)
  }

  /** One block of quantised coefficients, in zigzag order, of an image component. */
  datatype Block = Block(component: nat, coef: seq<int>)

  const COMPONENTS := 3

  predicate Int16(x: int) {
    -0x8000 <= x < 0x8000
  }

  /** A block as the encoder holds it: 16-bit coefficients, and no AC value too large for a symbol. */
  ghost predicate IsBlock(b: Block) {
    b.component < COMPONENTS && AcInRange(b.coef) && Int16(b.coef[0])
  }

  /** Coefficients that a baseline AC symbol can describe. */
  ghost predicate AcInRange(coef: seq<int>) {
    |coef| == BLOCK_SIZE && forall i :: 1 <= i < BLOCK_SIZE ==> Abs(coef[i]) < Pow2(AC_BITS)
  }

  /** A symbol that pass one can count: end of block, a run of 16 zeros, or a run and a size. */
  predicate IsAcSymbol(s: nat) {
    s < 256 && (s == EOB || s == ZRL || s % 16 != 0)
  }

  lemma {:induction false} ZeroRunSymbols(n: nat)
    ensures forall t :: t in ZeroRuns(n) ==> t == Token(ZRL, 0)
  {
    if n > 0 {
      ZeroRunSymbols(n - 1);
    }
  }

  lemma {:induction false} AcSymbol(run: nat, c: int)
    requires run < 16 && c != 0 && Abs(c) < Pow2(AC_BITS)
    ensures IsAcSymbol(AcToken(run, c).symbol)
  {
    hide Pow2;
    var n := NumBits(Abs(c));
    NumBitsBelow(Abs(c), AC_BITS);
    assert 1 <= n <= 15;
  }

  lemma {:induction false} AcSymbols(coef: seq<int>, i: nat, run: nat)
    requires AcInRange(coef) && 1 <= i <= BLOCK_SIZE
    ensures forall t :: t in AcTokens(coef, i, run) ==> IsAcSymbol(t.symbol)
    decreases BLOCK_SIZE - i
  {
    hide Pow2, NumBits, ZeroRuns;
    if i < BLOCK_SIZE {
      if coef[i] == 0 {
        AcSymbols(coef, i + 1, run + 1);
      } else {
        ZeroRunSymbols(run / 16);
        AcSymbols(coef, i + 1, 0);
        AcSymbol(run % 16, coef[i]);
      }
    }
  }

  lemma {:induction false} BlockAcSymbols(coef: seq<int>)
    requires AcInRange(coef)
    ensures forall t :: t in BlockAcTokens(coef) ==> IsAcSymbol(t.symbol)
  {
    AcSymbols(coef, 1, 0);
  }

  /** A pass over the block has dealt with the tokens done and is at coefficient i after run zeros. */
  ghost predicate Progress(coef: seq<int>, done: seq<Token>, i: nat, run: nat)
    requires |coef| == BLOCK_SIZE && i <= BLOCK_SIZE
  {
    done + AcTokens(coef, i, run) == BlockAcTokens(coef)
  }

  lemma {:induction false} ProgressStart(coef: seq<int>)
    requires |coef| == BLOCK_SIZE
    ensures Progress(coef, [], 1, 0)
  {
  }

  lemma {:induction false} ProgressZero(coef: seq<int>, done: seq<Token>, i: nat, run: nat)
    requires |coef| == BLOCK_SIZE && i < BLOCK_SIZE && Progress(coef, done, i, run) && coef[i] == 0
    ensures Progress(coef, done, i + 1, run + 1)
  {
  }

  lemma {:induction false} ProgressZrl(coef: seq<int>, done: seq<Token>, i: nat, run: nat)
    requires |coef| == BLOCK_SIZE && i < BLOCK_SIZE && Progress(coef, done, i, run) && coef[i] != 0 && run >= 16
    ensures Progress(coef, done + [Token(ZRL, 0)], i, run - 16)
  {
    assert (run - 16) / 16 == run / 16 - 1 && (run - 16) % 16 == run % 16;
    var z, t, rest := ZeroRuns(run / 16 - 1), AcToken(run % 16, coef[i]), AcTokens(coef, i + 1, 0);
    assert AcTokens(coef, i, run) == [Token(ZRL, 0)] + (z + [t] + rest);
    assert done + AcTokens(coef, i, run) == done + [Token(ZRL, 0)] + (z + [t] + rest);
  }

  lemma {:induction false} ProgressCoefficient(coef: seq<int>, done: seq<Token>, i: nat, run: nat)
    requires |coef| == BLOCK_SIZE && i < BLOCK_SIZE && Progress(coef, done, i, run) && coef[i] != 0 && run < 16
    ensures Progress(coef, done + [AcToken(run, coef[i])], i + 1, 0)
    ensures AcToken(run, coef[i]) in BlockAcTokens(coef)
  {
    var t, rest := AcToken(run, coef[i]), AcTokens(coef, i + 1, 0);
    assert AcTokens(coef, i, run) == [t] + rest;
    assert done + ([t] + rest) == done + [t] + rest;
    assert (done + [t] + rest)[|done|] == t;
  }

  lemma {:induction false} ProgressEnd(coef: seq<int>, done: seq<Token>, run: nat)
    requires |coef| == BLOCK_SIZE && Progress(coef, done, BLOCK_SIZE, run)
    ensures BlockAcTokens(coef) == if run > 0 then done + [Token(EOB, 0)] else done
  {
  }
}
