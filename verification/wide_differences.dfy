/** What the decoder makes of a scan with a DC difference that the tables have no code for. */
module WideDifferences {
  import opened Powers
  import opened BitStrings
  import opened EntropyData
  import opened CodeSizeLists
  import opened CanonicalCodes
  import opened VlcTable
  import opened BlockTokens
  import opened BlockEncoder
  import opened BlockDecoder
  import opened BlockRoundTrip
  import opened ScanCoding
  import HuffmanTableOptimizer
  import opened TwoPassEncoder

  /** A table of symbols below 12 tells no value of more than 11 bits. */
  lemma {:induction false} SmallValue(table: seq<VlcCode>, l: seq<nat>, val: seq<nat>, all: seq<bool>, p: nat)
    requires VlcFor(table, l, val, 16) && forall i :: 0 <= i < |l| ==> val[i] < DC_CODES
    ensures match DecodeToken(table, all, p)
      case NoCode => true
      case Decoded(_, value, _) => Abs(value) < Pow2(DC_CODES - 1)
  {
    hide Start, Pow2, Window, FromBits;
    var v := Window16(all, p);
    if v < Start(l, |l|, 16) {
      var i := FindSlice(l, |l|, 16, v);
      assert MapsSlice(table, l, val, 16, i);
      var n, at := val[i] % 16, p + l[i];
      ExtendSmall(FromBits(Window(all, at, n)), n);
      Pow2Monotone(n, DC_CODES - 1);
    }
  }

  lemma {:induction false} ExtendSmall(v: nat, n: nat)
    requires v < Pow2(n)
    ensures Abs(Extend(v, n)) < Pow2(n)
  {
  }

  lemma {:induction false} AcKeepsDc(table: seq<VlcCode>, all: seq<bool>, p: nat, coef: seq<int>, k: nat)
    requires |table| == VLC_ENTRIES && |coef| == BLOCK_SIZE && k < BLOCK_SIZE
    ensures match DecodeAc(table, all, p, coef, k)
      case BadBlock => true
      case DecodedBlock(r, _) => r[0] == coef[0]
    decreases BLOCK_SIZE - k
  {
    hide DecodeToken;
    match DecodeToken(table, all, p)
    case NoCode =>
    case Decoded(s, v, next) =>
      var k' := k + s / 16 + 1;
      if s != EOB && (s % 16 != 0 || s == ZRL) && k' < 63 {
        AcKeepsDc(table, all, next, coef[k' := v], k');
      }
  }

  /** Such a table cannot tell a DC value whose difference has 12 bits or more. */
  lemma {:induction false} DcDiffers(dc: seq<VlcCode>, ac: seq<VlcCode>, l: seq<nat>, val: seq<nat>, all: seq<bool>,
          p: nat, pred: int, x: int)
    requires VlcFor(dc, l, val, 16) && |ac| == VLC_ENTRIES && forall i :: 0 <= i < |l| ==> val[i] < DC_CODES
    requires NumBits(Abs(x - pred)) >= DC_CODES
    ensures match DecodeBlockAt(dc, ac, all, p, pred)
      case BadBlock => true
      case DecodedBlock(coef, _) => coef[0] != x
  {
    hide DecodeToken, DecodeAc, NumBits, Pow2;
    SmallValue(dc, l, val, all, p);
    NumBitsBelow(Abs(x - pred), DC_CODES - 1);
    match DecodeToken(dc, all, p)
    case NoCode =>
    case Decoded(s, diff, next) =>
      AcKeepsDc(ac, all, next, ZeroBlock()[0 := pred + diff], 0);
  }

  /** What is read first stays what it is when more is read. */
  lemma {:induction false} DecodedPrefix(vlc: seq<seq<VlcCode>>, all: seq<bool>, a: seq<nat>, b: seq<nat>)
    requires FourLookups(vlc)
    ensures match DecodeBlocks(vlc, all, a + b)
      case BadScan => true
      case DecodedScan(bs, _) =>
        match DecodeBlocks(vlc, all, a)
        case BadScan => false
        case DecodedScan(as', _) => as' <= bs && |bs| == |as'| + |b|
  {
    hide DecodeBlockAt, Pred, DecodeBlocks;
    if b == [] {
      assert a + b == a;
    } else {
      var n := |b| - 1;
      DecodedPrefix(vlc, all, a, b[..n]);
      OneMoreBlock(vlc, all, a + b[..n], b[n]);
      assert a + b == a + b[..n] + [b[n]];
    }
  }

  /** The first block whose DC difference is too large. */
  lemma {:induction false} FirstWide(scan: seq<Block>) returns (i: nat)
    requires IsScan(scan) && !DcInRange(scan)
    ensures i < |scan| && DcCategory(scan, i) >= DC_CATEGORIES && IsScan(scan[..i]) && DcInRange(scan[..i])
  {
    hide DcCategory, IsBlock;
    var n := |scan| - 1;
    assert IsScan(scan[..n]);
    forall k | 0 <= k < n
      ensures DcCategory(scan[..n], k) == DcCategory(scan, k)
    {
      SameCategory(scan, n, k);
    }
    if DcInRange(scan[..n]) {
      i := n;
    } else {
      i := FirstWide(scan[..n]);
      assert scan[..n][..i] == scan[..i];
    }
  }

  lemma {:induction false} SameCategory(scan: seq<Block>, n: nat, k: nat)
    requires IsScan(scan) && k < n <= |scan| && IsScan(scan[..n])
    ensures DcCategory(scan[..n], k) == DcCategory(scan, k)
  {
    assert scan[..n][..k] == scan[..k];
  }

  lemma {:induction false} ScanGrows(scan: seq<Block>, i: nat, tables: seq<CodeTable>)
    requires IsScan(scan) && i <= |scan| && FourCodeTables(tables)
    ensures IsScan(scan[..i]) && forall t :: ScanTokens(scan[..i], t) <= ScanTokens(scan, t)
    ensures ScanBits(scan[..i], tables) <= ScanBits(scan, tables)
  {
    hide IsBlock, ScanTokens, ScanBits, TableTokens, BlockBits, Pred;
    if i < |scan| {
      var n := |scan| - 1;
      NextBlock(scan, n);
      assert scan[..n + 1] == scan && scan[..n][..i] == scan[..i];
      ScanGrows(scan[..n], i, tables);
    } else {
      assert scan[..i] == scan;
    }
  }

  /** The blocks before it have codes. */
  lemma {:induction false} PrefixHasCodes(scan: seq<Block>, i: nat, bits: seq<seq<nat>>, val: seq<seq<nat>>,
          tables: seq<CodeTable>)
    requires IsScan(scan) && i <= |scan| && IsScan(scan[..i]) && DcInRange(scan[..i])
      && TablesOfScan(scan, bits, val, tables)
    ensures ScanHasCodes(scan[..i], tables)
  {
    hide ListsFor, TableFrom, ScanTokens, IsScan, DcCategory, Occurrences, ScanBits;
    ScanGrows(scan, i, tables);
    forall t, k | 0 <= t < 4 && 0 <= k < |ScanTokens(scan[..i], t)|
      ensures var s := ScanTokens(scan[..i], t)[k].symbol; s < 256 && tables[t].sizes[s] > 0
    {
      var x := ScanTokens(scan[..i], t)[k];
      assert x == ScanTokens(scan, t)[k];
      SymbolsOfTable(scan, t);
      if t < 2 {
        var j := DcTokenFrom(scan[..i], t, x);
      }
      Among(ScanTokens(scan, t), x);
      CodeIffCounted(ScanTokens(scan, t), t, bits[t], val[t], tables[t], x.symbol);
    }
  }

  /** The lookup tables for DC are those of the lists. */
  ghost predicate DcTablesRead(scan: seq<Block>, bits: seq<seq<nat>>, val: seq<seq<nat>>, vlc: seq<seq<VlcCode>>)
    requires IsScan(scan)
  {
    && |bits| == |val| == |vlc| == 4
    && forall t :: 0 <= t < 2 && ScanTokens(scan, t) != [] ==>
         && |bits[t]| == 1 + MAX_CODE_SIZE && |Sizes(bits[t])| <= |val[t]|
         && VlcFor(vlc[t], Sizes(bits[t]), val[t][..|Sizes(bits[t])|], MAX_CODE_SIZE)
  }

  /**
   * If some DC difference has 12 bits or more, the scan is not read back: reading fails, or the first block with such a
   * difference comes back with another DC value.
   */
  lemma {:induction false} WideDifferenceMisread(scan: seq<Block>, bits: seq<seq<nat>>, val: seq<seq<nat>>,
          tables: seq<CodeTable>, vlc: seq<seq<VlcCode>>, all: seq<bool>)
    returns (i: nat)
    requires IsScan(scan) && !DcInRange(scan) && TablesOfScan(scan, bits, val, tables) && AllInvert(vlc, tables)
    requires ScanBits(scan, tables) <= all && DcTablesRead(scan, bits, val, vlc)
    ensures i < |scan|
    ensures match DecodeBlocks(vlc, all, Components(scan))
      case BadScan => true
      case DecodedScan(bs, _) => i < |bs| && |bs[i].coef| == BLOCK_SIZE && bs[i].coef[0] != scan[i].coef[0]
  {
    hide IsBlock, DcInRange, ScanHasCodes, Inverts, ScanTokens, ScanBits, TablesOfScan, DecodeBlockAt, DecodeBlocks;
    hide Pred, Sizes;
    hide ListsFor, TableFrom, VlcFor, NumBits, Occurrences;
    i := FirstWide(scan);
    var s, b := scan[..i], scan[i];
    var c := b.component;
    assert IsBlock(b);
    BlockFacts(b);
    assert FourCodeTables(tables);
    PrefixHasCodes(scan, i, bits, val, tables);
    ScanGrows(scan, i, tables);
    ScanReadsBack(vlc, tables, s, all);
    OneMoreBlock(vlc, all, Components(s), c);
    var x := DcTokenOf(scan, i);
    var t := TableClass(c);
    ListedSymbolsSmall(scan, t, bits, val, tables);
    ScanFull(s);
    DcDiffers(vlc[t], vlc[2 + t], Sizes(bits[t]), val[t][..|Sizes(bits[t])|], all, |ScanBits(s, tables)|, Pred(s, c),
      b.coef[0]);
    var done := Components(s) + [c];
    var rest := Components(scan)[i + 1..];
    assert Components(scan) == done + rest;
    DecodedPrefix(vlc, all, done, rest);
  }

  lemma {:induction false} ListedSymbolsSmall(scan: seq<Block>, t: nat, bits: seq<seq<nat>>, val: seq<seq<nat>>,
          tables: seq<CodeTable>)
    requires IsScan(scan) && t < 2 && TablesOfScan(scan, bits, val, tables) && ScanTokens(scan, t) != []
    ensures |bits[t]| == 1 + MAX_CODE_SIZE && |Sizes(bits[t])| <= |val[t]|
    ensures forall k :: 0 <= k < |Sizes(bits[t])| ==> val[t][..|Sizes(bits[t])|][k] < DC_CODES
  {
    hide Sizes, ScanTokens, Occurrences, HuffmanTableOptimizer.OptimizedTable;
    var n := |Sizes(bits[t])|;
    assert ListsFor(ScanTokens(scan, t), t, bits[t], val[t]);
    forall k | 0 <= k < n
      ensures val[t][..n][k] < DC_CODES
    {
      assert val[t][k] < 256 && val[t][..n][k] in val[t][..n];
    }
  }
}
