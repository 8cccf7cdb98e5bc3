/** How the decoder reads one block (T.81, section F.2.2). */
module BlockDecoder {
  import opened Powers
  import opened BitStrings
  import opened EntropyData
  import opened JpegBitReader
  import opened VlcTable
  import opened BlockTokens

  /** The symbol and value read at some position and the position behind it. */
  datatype Decoded = NoCode | Decoded(symbol: nat, value: int, next: nat)

  /** The value told by the n extra bits that read as v: negative if the first of them is zero. */
  function Extend(v: nat, n: nat): int {
    if n == 0 then 0 else if v < Pow2(n - 1) then v - Pow2(n) + 1 else v
  }

  /** The width n of the window is a parameter, so that the verifier does not unroll FromBits. */
  lemma {:induction false} WindowValue(all: seq<bool>, p: nat, n: nat)
    requires n == 16
    ensures FromBits(Window(all, p, n)) < VLC_ENTRIES
  {
    SpreadStart(n);
  }

  /** The number that the next 16 bits make. */
  ghost function Window16(all: seq<bool>, p: nat): (v: nat)
    ensures v < VLC_ENTRIES
  {
    WindowValue(all, p, 16);
    FromBits(Window(all, p, 16))
  }

  ghost function DecodeToken(table: seq<VlcCode>, all: seq<bool>, p: nat): Decoded
    requires |table| == VLC_ENTRIES
  {
    var entry := table[Window16(all, p)];
    if entry.bits == 0 then NoCode
    else
      var at, n := p + entry.bits, entry.code % 16;
      Decoded(entry.code, Extend(FromBits(Window(all, at, n)), n), at + n)
  }

  /** The coefficients of a block and the position behind it. */
  datatype DecodedBlock = BadBlock | DecodedBlock(coef: seq<int>, next: nat)

  /** The AC coefficients after number k; those read so far are in coef. */
  ghost function DecodeAc(table: seq<VlcCode>, all: seq<bool>, p: nat, coef: seq<int>, k: nat): (r: DecodedBlock)
    requires |table| == VLC_ENTRIES && |coef| == BLOCK_SIZE && k < BLOCK_SIZE
    ensures r.DecodedBlock? ==> |r.coef| == BLOCK_SIZE
    decreases BLOCK_SIZE - k
  {
    match DecodeToken(table, all, p)
    case NoCode => BadBlock
    case Decoded(s, v, next) =>
      var k' := k + s / 16 + 1;
      if s == EOB then DecodedBlock(coef, next)
      else if (s % 16 == 0 && s != ZRL) || k' > 63 then BadBlock
      else if k' < 63 then DecodeAc(table, all, next, coef[k' := v], k')
      else DecodedBlock(coef[k' := v], next)
  }

  /**
   * What an AC symbol s makes of the block: 0 ends it, 0xF0 leaves 16 coefficients zero, a run of zeros with a size is
   * followed by its value; a run of 1 to 14 zeros without a size is an error, and so is one that leads past number 63.
   */
  lemma {:induction false} AcSymbolRead(table: seq<VlcCode>, all: seq<bool>, p: nat, coef: seq<int>, k: nat, s: nat,
          v: int, next: nat)
    requires |table| == VLC_ENTRIES && |coef| == BLOCK_SIZE && k < BLOCK_SIZE
    requires DecodeToken(table, all, p) == Decoded(s, v, next)
    ensures s == 0 ==> DecodeAc(table, all, p, coef, k) == DecodedBlock(coef, next)
    ensures (exists r: nat :: 1 <= r <= 14 && s == 16 * r) ==> DecodeAc(table, all, p, coef, k) == BadBlock
    ensures s >= 16 * (63 - k) && s != 0 ==> DecodeAc(table, all, p, coef, k) == BadBlock
    ensures s == 0xF0 && k + 16 < 63 ==>
      DecodeAc(table, all, p, coef, k) == DecodeAc(table, all, next, coef[k + 16 := v], k + 16)
  {
    hide DecodeToken;
  }

  function ZeroBlock(): (b: seq<int>)
    ensures |b| == BLOCK_SIZE && forall i :: 0 <= i < BLOCK_SIZE ==> b[i] == 0
  {
    seq(BLOCK_SIZE, i => 0)
  }

  /** A block whose component's previous DC value is pred. */
  ghost function DecodeBlockAt(dc: seq<VlcCode>, ac: seq<VlcCode>, all: seq<bool>, p: nat, pred: int): (r: DecodedBlock)
    requires |dc| == VLC_ENTRIES && |ac| == VLC_ENTRIES
    ensures r.DecodedBlock? ==> |r.coef| == BLOCK_SIZE
  {
    match DecodeToken(dc, all, p)
    case NoCode => BadBlock
    case Decoded(s, diff, next) => DecodeAc(ac, all, next, ZeroBlock()[0 := pred + diff], 0)
  }

  // The zigzag order.

  /** Where the coefficients of the zigzag order are in the block, eight per row (T.81, Figure A.6). */
  const ZIGZAG: seq<seq<nat>> := [
    [0, 1, 8, 16, 9, 2, 3, 10], [17, 24, 32, 25, 18, 11, 4, 5], [12, 19, 26, 33, 40, 48, 41, 34],
    [27, 20, 13, 6, 7, 14, 21, 28],
    [35, 42, 49, 56, 57, 50, 43, 36], [29, 22, 15, 23, 30, 37, 44, 51], [58, 59, 52, 45, 38, 31, 39, 46],
    [53, 60, 61, 54, 47, 55, 62, 63]]

  /** Which coefficient of the zigzag order is at a place. */
  const UNZIGZAG: seq<seq<nat>> := [
    [0, 1, 5, 6, 14, 15, 27, 28], [2, 4, 7, 13, 16, 26, 29, 42], [3, 8, 12, 17, 25, 30, 41, 43],
    [9, 11, 18, 24, 31, 40, 44, 53],
    [10, 19, 23, 32, 39, 45, 52, 54], [20, 22, 33, 38, 46, 51, 55, 60], [21, 34, 37, 47, 50, 56, 59, 61],
    [35, 36, 48, 49, 57, 58, 62, 63]]

  ghost predicate RowsOfEight(t: seq<seq<nat>>) {
    |t| == 8 && forall i :: 0 <= i < 8 ==> |t[i]| == 8
  }

  lemma {:induction false} TableRows()
    ensures RowsOfEight(ZIGZAG) && RowsOfEight(UNZIGZAG)
  {
  }

  lemma {:induction false} ZigzagRows0To3(i: nat, j: nat)
    requires i < 4 && j < 8 && RowsOfEight(ZIGZAG) && RowsOfEight(UNZIGZAG)
    ensures var z := ZIGZAG[i][j]; z < BLOCK_SIZE && UNZIGZAG[z / 8][z % 8] == 8 * i + j
  {
  }

  lemma {:induction false} ZigzagRows4To7(i: nat, j: nat)
    requires 4 <= i < 8 && j < 8 && RowsOfEight(ZIGZAG) && RowsOfEight(UNZIGZAG)
    ensures var z := ZIGZAG[i][j]; z < BLOCK_SIZE && UNZIGZAG[z / 8][z % 8] == 8 * i + j
  {
  }

  lemma {:induction false} ZigzagInverse(i: nat, j: nat)
    requires i < 8 && j < 8 && RowsOfEight(ZIGZAG) && RowsOfEight(UNZIGZAG)
    ensures var z := ZIGZAG[i][j]; z < BLOCK_SIZE && UNZIGZAG[z / 8][z % 8] == 8 * i + j
  {
    hide ZIGZAG, UNZIGZAG;
    if i < 4 {
      ZigzagRows0To3(i, j);
    } else {
      ZigzagRows4To7(i, j);
    }
  }

  /** The place of coefficient k. */
  function ZZ(k: nat): (z: nat)
    requires k < BLOCK_SIZE
    ensures z < BLOCK_SIZE
  {
    TableRows();
    ZigzagInverse(k / 8, k % 8);
    ZIGZAG[k / 8][k % 8]
  }

  /** Which place follows z: the next up to the right or down to the left, at an edge the next along the edge. */
  ghost predicate ZigzagStep(z: nat, z': nat) {
    var r, c := z / 8, z % 8;
    if (r + c) % 2 == 0 then
      if r > 0 && c < 7 then z' == z - 7
      else if c < 7 then z' == z + 1
      else z' == z + 8
    else
      if r < 7 && c > 0 then z' == z + 7
      else if r < 7 then z' == z + 8
      else z' == z + 1
  }

  lemma {:induction false} WalkInRows0And1(i: nat, j: nat)
    requires i < 2 && j < 7 && RowsOfEight(ZIGZAG)
    ensures ZigzagStep(ZIGZAG[i][j], ZIGZAG[i][j + 1])
  {
  }

  lemma {:induction false} WalkInRows2And3(i: nat, j: nat)
    requires 2 <= i < 4 && j < 7 && RowsOfEight(ZIGZAG)
    ensures ZigzagStep(ZIGZAG[i][j], ZIGZAG[i][j + 1])
  {
  }

  lemma {:induction false} WalkInRows4And5(i: nat, j: nat)
    requires 4 <= i < 6 && j < 7 && RowsOfEight(ZIGZAG)
    ensures ZigzagStep(ZIGZAG[i][j], ZIGZAG[i][j + 1])
  {
  }

  lemma {:induction false} WalkInRows6And7(i: nat, j: nat)
    requires 6 <= i < 8 && j < 7 && RowsOfEight(ZIGZAG)
    ensures ZigzagStep(ZIGZAG[i][j], ZIGZAG[i][j + 1])
  {
  }

  lemma {:induction false} WalkInRow(i: nat, j: nat)
    requires i < 8 && j < 7 && RowsOfEight(ZIGZAG)
    ensures ZigzagStep(ZIGZAG[i][j], ZIGZAG[i][j + 1])
  {
    hide ZIGZAG, ZigzagStep;
    if i < 2 {
      WalkInRows0And1(i, j);
    } else if i < 4 {
      WalkInRows2And3(i, j);
    } else if i < 6 {
      WalkInRows4And5(i, j);
    } else {
      WalkInRows6And7(i, j);
    }
  }

  lemma {:induction false} WalkToNextRow(i: nat)
    requires i < 7 && RowsOfEight(ZIGZAG)
    ensures ZIGZAG[0][0] == 0 && ZigzagStep(ZIGZAG[i][7], ZIGZAG[i + 1][0])
  {
  }

  /** The coefficients come in zigzag order (T.81, figure A.6), which fixes the place of each of them. */
  lemma {:induction false} ZigzagWalk(k: nat)
    requires k < BLOCK_SIZE - 1
    ensures ZZ(0) == 0 && ZigzagStep(ZZ(k), ZZ(k + 1))
  {
    hide ZIGZAG, ZigzagStep;
    TableRows();
    WalkToNextRow(0);
    if k % 8 < 7 {
      WalkInRow(k / 8, k % 8);
    } else {
      WalkToNextRow(k / 8);
    }
  }

  /** No two coefficients share a place. */
  lemma {:induction false} ZigzagInjective(j: nat, k: nat)
    requires j < BLOCK_SIZE && k < BLOCK_SIZE && ZZ(j) == ZZ(k)
    ensures j == k
  {
    hide ZIGZAG, UNZIGZAG;
    TableRows();
    ZigzagInverse(j / 8, j % 8);
    ZigzagInverse(k / 8, k % 8);
  }

  /** The block holds the coefficients coef, multiplied by the quantisation table, in their places. */
  ghost predicate Dequantised(block: seq<int>, coef: seq<int>, q: seq<nat>) {
    && |block| == |coef| == |q| == BLOCK_SIZE
    && forall k :: 0 <= k < BLOCK_SIZE ==> block[ZZ(k)] == coef[k] * q[k]
  }

  /** Storing one coefficient. */
  lemma {:induction false} StoreCoefficient(block: seq<int>, coef: seq<int>, q: seq<nat>, k: nat, v: int)
    requires Dequantised(block, coef, q) && k < BLOCK_SIZE
    ensures Dequantised(block[ZZ(k) := v * q[k]], coef[k := v], q)
  {
    hide ZZ;
    forall j | 0 <= j < BLOCK_SIZE
      ensures block[ZZ(k) := v * q[k]][ZZ(j)] == coef[k := v][j] * q[j]
    {
      if ZZ(j) == ZZ(k) {
        ZigzagInjective(j, k);
      }
    }
  }

  // The decoder itself.

  /** Tables as DecodeDHT leaves them: no code longer than a window, symbols of one byte. */
  ghost predicate Usable(table: seq<VlcCode>) {
    |table| == VLC_ENTRIES && forall v :: 0 <= v < |table| ==> table[v].bits <= 16
  }

  /** Reads a code and the value that follows it; without a code, code0 is kept. */
  method GetVLC(r: BitReader, vlc: array<VlcCode>, code0: nat) returns (value: int, code: nat)
    requires r.Valid() && Usable(vlc[..])
    modifies r
    ensures r.Valid() && (old(r.error) != OK ==> r.error != OK)
    ensures match DecodeToken(vlc[..], r.all, old(r.Position()))
      case NoCode => r.error != OK
      case Decoded(s, v, next) =>
        code == s && value == v && r.Position() == next && OnlyReports(old(r.error), r.error, r.data)
  {
    hide BitReader.Valid, BitReader.Position, FromBits, Clean, Window, Pow2;
    WindowValue(r.all, r.Position(), 16);
    var window := r.ShowBits(16);
    assert vlc[..][window] == vlc[window];
    var bits := vlc[window].bits;
    if bits == 0 {
      r.Fail();
      return 0, code0;
    }
    r.SkipBits(bits);
    code := vlc[window].code;
    bits := code % 16;
    if bits == 0 {
      return 0, code;
    }
    var v := r.GetBits(bits);
    value := v;
    if v < Pow2(bits - 1) {
      value := value - Pow2(bits) + 1;
    }
  }

  method ClearBlock(block: array<int>)
    requires block.Length == BLOCK_SIZE
    modifies block
    ensures forall i :: 0 <= i < BLOCK_SIZE ==> block[i] == 0
  {
    for i := 0 to BLOCK_SIZE
      invariant forall j :: 0 <= j < i ==> block[j] == 0
    {
      block[i] := 0;
    }
  }

  /**
   * Decodes one block into its places. A block that cannot be read always leaves an error; one that
   * can leaves an error only if the data is malformed.
   */
  method DecodeBlock(r: BitReader, dc: array<VlcCode>, ac: array<VlcCode>, q: seq<nat>, dcpred0: int, block: array<int>)
      returns (dcpred: int)
    requires r.Valid() && r.error == OK && Usable(dc[..]) && Usable(ac[..])
    requires |q| == BLOCK_SIZE && block.Length == BLOCK_SIZE
    requires dc as object != block && ac as object != block
    modifies r, block
    ensures r.Valid()
    ensures match DecodeBlockAt(dc[..], ac[..], r.all, old(r.Position()), dcpred0)
      case BadBlock => r.error != OK
      case DecodedBlock(coef, next) =>
        && (Clean(r.data) ==> r.error == OK)
        && (r.error == OK ==> Dequantised(block[..], coef, q) && r.Position() == next && dcpred == coef[0])
  {
    hide BitReader.Valid, BitReader.Position, DecodeToken, Dequantised, Usable, Clean, Window, Pow2, ZZ;
    ClearBlock(block);
    EmptyBlock(block[..], q);
    UsableSize(dc[..]);
    UsableSize(ac[..]);
    ghost var spec := DecodeBlockAt(dc[..], ac[..], r.all, r.Position(), dcpred0);
    var value, code := GetVLC(r, dc, 0);
    dcpred := dcpred0 + value;
    StoreCoefficient(block[..], ZeroBlock(), q, 0, dcpred);
    FirstPlace();
    block[0] := dcpred * q[0];
    ghost var cur := ZeroBlock()[0 := dcpred];
    code := *;
    var coef := 0;
    while true
      invariant r.Valid() && coef < 63 && |cur| == BLOCK_SIZE && cur[0] == dcpred && Dequantised(block[..], cur, q)
      invariant r.error == OK ==> spec == DecodeAc(ac[..], r.all, r.Position(), cur, coef)
      invariant spec.DecodedBlock? && Clean(r.data) ==> r.error == OK
      decreases BLOCK_SIZE - coef
    {
      value, code := GetVLC(r, ac, code);
      if code == EOB { break; }
      if code % 16 == 0 && code != ZRL {
        r.Fail();
        return;
      }
      coef := coef + code / 16 + 1;
      if coef > 63 {
        r.Fail();
        return;
      }
      StoreCoefficient(block[..], cur, q, coef, value);
      block[ZZ(coef)] := value * q[coef];
      cur := cur[coef := value];
      if coef >= 63 { break; }
    }
  }

  lemma {:induction false} UsableSize(table: seq<VlcCode>)
    requires Usable(table)
    ensures |table| == VLC_ENTRIES
  {
  }

  lemma {:induction false} EmptyBlock(block: seq<int>, q: seq<nat>)
    requires |block| == |q| == BLOCK_SIZE && forall i :: 0 <= i < BLOCK_SIZE ==> block[i] == 0
    ensures Dequantised(block, ZeroBlock(), q)
  {
  }

  lemma {:induction false} FirstPlace()
    ensures ZZ(0) == 0
  {
  }
}
