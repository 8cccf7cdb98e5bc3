/** What the tokens of a block mean: the coefficients that they stand for (T.81, sections F.1.2.1 and F.1.2.2). */
module TokenMeaning {
  import opened Powers
  import opened BitStrings
  import opened BlockTokens

  // Single tokens.

  /** The size category n of a number: it has n bits. */
  ghost predicate HasSize(x: nat, n: nat) {
    if n == 0 then x == 0 else Pow2(n - 1) <= x < Pow2(n)
  }

  /** The symbol of a DC difference is its size, that of an AC coefficient 16 times the run of zeros and its size. */
  lemma {:induction false} TokensAre(run: nat, c: int, n: nat)
    ensures HasSize(if c < 0 then -c else c, n) <==> DcToken(c) == Token(n, c)
    ensures HasSize(if c < 0 then -c else c, n) <==> AcToken(run, c) == Token(16 * run + n, c)
  {
    var x := Abs(c);
    NumBitsBelow(x, n);
    if n > 0 {
      NumBitsBelow(x, n - 1);
    }
  }

  lemma {:induction false} ComplementBits(v: nat, n: nat)
    requires v < Pow2(n)
    ensures forall i :: 0 <= i < n ==> ToBits(Pow2(n) - 1 - v, n)[i] == !ToBits(v, n)[i]
  {
    if n > 0 {
      ComplementBits(v / 2, n - 1);
      assert (Pow2(n) - 1 - v) / 2 == Pow2(n - 1) - 1 - v / 2;
    }
  }

  lemma {:induction false} NegativeRest(v: int, m: nat)
    requires 0 < v < m
    ensures (0 - v - 1) % m == m - 1 - v && v % m == v
  {
    assert 0 - v - 1 == (-1) * m + (m - 1 - v);
  }

  /** The extra bits of a positive number are its own bits; those of the negative number are the opposite ones. */
  lemma {:induction false} ExtraBitsAre(v: int, n: nat)
    requires 0 < v && HasSize(v, n)
    ensures ExtraBits(v, n) == ToBits(v, n) && ToBits(v, n)[0]
    ensures forall i :: 0 <= i < n ==> ExtraBits(0 - v, n)[i] == !ToBits(v, n)[i]
  {
    hide ToBits, Pow2;
    NegativeRest(v, Pow2(n));
    ComplementBits(v, n);
    TopBit(v, n);
  }

  lemma {:induction false} TopBit(v: nat, n: nat)
    requires n > 0 && Pow2(n - 1) <= v < Pow2(n)
    ensures ToBits(v, n)[0]
  {
    if n > 1 {
      TopBit(v / 2, n - 1);
    }
  }

  // The tokens of a block.

  function NumberZeros(n: nat): (z: seq<int>)
    ensures |z| == n && forall i :: 0 <= i < n ==> z[i] == 0
  {
    seq(n, i => 0)
  }

  /** The coefficients that tokens stand for: a run of zeros and a value, or 16 zeros, or nothing more. */
  function Expanded(ts: seq<Token>): seq<int> {
    if ts == [] then []
    else if ts[0].symbol == 0 then []
    else if ts[0].symbol == 0xF0 then NumberZeros(16) + Expanded(ts[1..])
    else NumberZeros(ts[0].symbol / 16) + [ts[0].value] + Expanded(ts[1..])
  }

  /** No token follows the end of block, and a run of 16 zeros is followed by a coefficient or another run. */
  ghost predicate WellOrdered(ts: seq<Token>) {
    forall i :: 0 <= i < |ts| ==> WellPlaced(ts, i)
  }

  ghost predicate WellPlaced(ts: seq<Token>, i: nat)
    requires i < |ts|
  {
    && (ts[i].symbol == 0 ==> i == |ts| - 1)
    && (ts[i].symbol == 0xF0 ==> i + 1 < |ts| && ts[i + 1].symbol != 0)
  }

  lemma {:induction false} OneMoreInFront(t: Token, ts: seq<Token>)
    requires WellOrdered(ts) && t.symbol != 0 && (t.symbol == 0xF0 ==> ts != [] && ts[0].symbol != 0)
    ensures WellOrdered([t] + ts)
  {
    forall i | 0 <= i < |ts| + 1
      ensures WellPlaced([t] + ts, i)
    {
      if i > 0 {
        assert WellPlaced(ts, i - 1) && ([t] + ts)[i] == ts[i - 1];
      }
      assert i < |ts| ==> ([t] + ts)[i + 1] == ts[i];
    }
  }

  lemma {:induction false} OneRun(ts: seq<Token>)
    ensures Expanded([Token(ZRL, 0)] + ts) == NumberZeros(16) + Expanded(ts)
  {
    assert ([Token(ZRL, 0)] + ts)[1..] == ts;
  }

  /** Runs of 16 zeros in front of a coefficient. */
  lemma {:induction false} RunsInFront(n: nat, ts: seq<Token>)
    requires WellOrdered(ts) && ts != [] && ts[0].symbol != 0
    ensures Expanded(ZeroRuns(n) + ts) == NumberZeros(16 * n) + Expanded(ts)
    ensures WellOrdered(ZeroRuns(n) + ts) && (ZeroRuns(n) + ts)[0].symbol != 0
  {
    hide Expanded, WellOrdered;
    if n == 0 {
      assert ZeroRuns(n) + ts == ts;
    } else {
      var rest := ZeroRuns(n - 1) + ts;
      assert ZeroRuns(n) + ts == [Token(ZRL, 0)] + rest;
      RunsInFront(n - 1, ts);
      OneRun(rest);
      OneMoreInFront(Token(ZRL, 0), rest);
      assert NumberZeros(16 * n) == NumberZeros(16) + NumberZeros(16 * (n - 1));
    }
  }

  lemma {:induction false} ExpandedValue(run: nat, c: int, ts: seq<Token>)
    requires run < 16 && 0 < Abs(c) < Pow2(AC_BITS)
    ensures Expanded([AcToken(run, c)] + ts) == NumberZeros(run) + [c] + Expanded(ts)
    ensures AcToken(run, c).symbol != 0 && AcToken(run, c).symbol != 0xF0
  {
    hide Pow2;
    var n := NumBits(Abs(c));
    NumBitsBelow(Abs(c), AC_BITS);
    assert 1 <= n <= 15 && AcToken(run, c).symbol == 16 * run + n;
    assert ([AcToken(run, c)] + ts)[1..] == ts;
  }

  /** Tokens that stand for a run of zeros and then these coefficients; zeros at the end are left out. */
  ghost predicate StandFor(ts: seq<Token>, run: nat, coef: seq<int>) {
    var e := Expanded(ts);
    |e| <= run + |coef| && e + NumberZeros(run + |coef| - |e|) == NumberZeros(run) + coef
  }

  ghost predicate EndsBlock(ts: seq<Token>) {
    ts != [] && ts[|ts| - 1].symbol == 0
  }

  lemma {:induction false} Regrouped(z: seq<int>, c: int, e: seq<int>, p: seq<int>)
    ensures z + [c] + e + p == z + ([c] + (e + p))
  {
  }

  lemma {:induction false} SplitZeros(run: nat)
    ensures NumberZeros(16 * (run / 16)) + NumberZeros(run % 16) == NumberZeros(run)
  {
  }

  /** The tokens of a coefficient after a run of zeros, in front of others. */
  function InFront(run: nat, c: int, ts: seq<Token>): (all: seq<Token>)
    ensures |all| > |ts|
  {
    ZeroRuns(run / 16) + ([AcToken(run % 16, c)] + ts)
  }

  lemma {:induction false} InFrontExpands(run: nat, c: int, ts: seq<Token>)
    requires 0 < Abs(c) < Pow2(AC_BITS) && WellOrdered(ts)
    ensures WellOrdered(InFront(run, c, ts)) && (EndsBlock(InFront(run, c, ts)) <==> EndsBlock(ts))
    ensures Expanded(InFront(run, c, ts)) == NumberZeros(run) + [c] + Expanded(ts)
  {
    hide Expanded, WellOrdered, Pow2, NumBits;
    var t, e := AcToken(run % 16, c), Expanded(ts);
    ExpandedValue(run % 16, c, ts);
    OneMoreInFront(t, ts);
    RunsInFront(run / 16, [t] + ts);
    SplitZeros(run);
    var z := NumberZeros(16 * (run / 16));
    assert z + (NumberZeros(run % 16) + [c] + e) == z + NumberZeros(run % 16) + [c] + e;
    assert InFront(run, c, ts)[|InFront(run, c, ts)| - 1] == if ts == [] then t else ts[|ts| - 1];
  }

  lemma {:induction false} StandForMore(run: nat, c: int, ts: seq<Token>, coef: seq<int>)
    requires 0 < Abs(c) < Pow2(AC_BITS) && WellOrdered(ts) && StandFor(ts, 0, coef)
    ensures StandFor(InFront(run, c, ts), run, [c] + coef)
  {
    hide Expanded, WellOrdered, Pow2, NumBits, InFront;
    InFrontExpands(run, c, ts);
    var e := Expanded(ts);
    var p := NumberZeros(|coef| - |e|);
    assert NumberZeros(0) + coef == coef;
    Regrouped(NumberZeros(run), c, e, p);
  }

  lemma {:induction false} OneZeroMore(ts: seq<Token>, run: nat, coef: seq<int>)
    requires coef != [] && coef[0] == 0 && StandFor(ts, run + 1, coef[1..])
    ensures StandFor(ts, run, coef)
  {
    hide Expanded;
    assert NumberZeros(run) + coef == NumberZeros(run + 1) + coef[1..];
  }

  lemma {:induction false} TokensStep(coef: seq<int>, i: nat, run: nat)
    requires |coef| == BLOCK_SIZE && i < BLOCK_SIZE
    ensures AcTokens(coef, i, run) ==
      if coef[i] == 0 then AcTokens(coef, i + 1, run + 1) else InFront(run, coef[i], AcTokens(coef, i + 1, 0))
  {
  }

  lemma {:induction false} TokensFrom(coef: seq<int>, i: nat, run: nat)
    requires AcInRange(coef) && 1 <= i <= BLOCK_SIZE
    ensures WellOrdered(AcTokens(coef, i, run)) && StandFor(AcTokens(coef, i, run), run, coef[i..])
    ensures EndsBlock(AcTokens(coef, i, run)) <==> if i == BLOCK_SIZE then run > 0 else coef[BLOCK_SIZE - 1] == 0
    decreases BLOCK_SIZE - i
  {
    hide Pow2, NumBits, ZeroRuns, StandFor, WellOrdered, AcTokens, InFront, EndsBlock;
    if i == BLOCK_SIZE {
      LastTokens(coef, run);
    } else if coef[i] == 0 {
      TokensStep(coef, i, run);
      TokensFrom(coef, i + 1, run + 1);
      OneZeroMore(AcTokens(coef, i + 1, run + 1), run, coef[i..]);
    } else {
      var rest := AcTokens(coef, i + 1, 0);
      TokensStep(coef, i, run);
      TokensFrom(coef, i + 1, 0);
      StandForMore(run, coef[i], rest, coef[i + 1..]);
      InFrontExpands(run, coef[i], rest);
      assert coef[i..] == [coef[i]] + coef[i + 1..];
    }
  }

  lemma {:induction false} LastTokens(coef: seq<int>, run: nat)
    requires |coef| == BLOCK_SIZE
    ensures var ts := AcTokens(coef, BLOCK_SIZE, run);
      WellOrdered(ts) && StandFor(ts, run, coef[BLOCK_SIZE..]) && (EndsBlock(ts) <==> run > 0)
  {
    assert NumberZeros(run) + coef[BLOCK_SIZE..] == NumberZeros(run);
  }

  /**
   * The AC tokens of a block stand for its coefficients. Exactly if the last of them is zero, the tokens end with the
   * end of block, which comes nowhere else; no run of 16 zeros is told that no coefficient follows.
   */
  lemma {:induction false} BlockTokensAre(coef: seq<int>)
    requires AcInRange(coef)
    ensures var ts, e := BlockAcTokens(coef), Expanded(BlockAcTokens(coef));
      && |e| <= 63 && e + NumberZeros(63 - |e|) == coef[1..]
      && WellOrdered(ts) && (coef[63] == 0 <==> ts != [] && ts[|ts| - 1].symbol == 0)
  {
    hide Expanded, WellOrdered, AcTokens, Pow2;
    TokensFrom(coef, 1, 0);
    assert NumberZeros(0) + coef[1..] == coef[1..];
  }
}
