/** A scan of blocks: what the encoder counts and writes for it, what the decoder reads from it. */
module ScanCoding {
  import opened Powers
  import opened VlcTable
  import opened BlockTokens
  import opened BlockEncoder
  import opened BlockDecoder
  import opened BlockRoundTrip

  ghost predicate IsScan(scan: seq<Block>) {
    forall i :: 0 <= i < |scan| ==> IsBlock(scan[i])
  }

  ghost predicate FullBlocks(scan: seq<Block>) {
    forall i :: 0 <= i < |scan| ==> |scan[i].coef| == BLOCK_SIZE
  }

  lemma {:induction false} ScanFull(scan: seq<Block>)
    requires IsScan(scan)
    ensures FullBlocks(scan)
  {
  }

  /** The DC value of the last block of component c. */
  ghost function Pred(scan: seq<Block>, c: nat): int
    requires FullBlocks(scan)
  {
    if scan == [] then 0
    else if scan[|scan| - 1].component == c then scan[|scan| - 1].coef[0]
    else Pred(scan[..|scan| - 1], c)
  }

  lemma {:induction false} PredInt16(scan: seq<Block>, c: nat)
    requires IsScan(scan)
    ensures Int16(Pred(scan, c))
  {
    if scan != [] {
      PredInt16(scan[..|scan| - 1], c);
      assert IsBlock(scan[|scan| - 1]);
    }
  }

  lemma {:induction false} PredStep(scan: seq<Block>, c: nat)
    requires FullBlocks(scan) && scan != []
    ensures var b := scan[|scan| - 1];
      Pred(scan, c) == if b.component == c then b.coef[0] else Pred(scan[..|scan| - 1], c)
  {
  }

  /** The tokens of the scan that table t codes. */
  ghost function ScanTokens(scan: seq<Block>, t: nat): seq<Token>
    requires IsScan(scan)
  {
    if scan == [] then []
    else
      var s, b := scan[..|scan| - 1], scan[|scan| - 1];
      assert IsBlock(b);
      ScanTokens(s, t) + TableTokens(b, Pred(s, b.component), t)
  }

  /** The bits of the scan. */
  ghost function ScanBits(scan: seq<Block>, tables: seq<CodeTable>): seq<bool>
    requires IsScan(scan) && FourCodeTables(tables)
  {
    if scan == [] then []
    else
      var s, b := scan[..|scan| - 1], scan[|scan| - 1];
      PredInt16(s, b.component);
      ScanBits(s, tables) + BlockBits(b, Pred(s, b.component), tables)
  }

  /** Which component each block belongs to. */
  function Components(scan: seq<Block>): (c: seq<nat>)
    ensures |c| == |scan|
  {
    seq(|scan|, i requires 0 <= i < |scan| => scan[i].component)
  }

  datatype DecodedScan = BadScan | DecodedScan(blocks: seq<Block>, next: nat)

  ghost predicate FourLookups(vlc: seq<seq<VlcCode>>) {
    |vlc| == 4 && forall t :: 0 <= t < 4 ==> |vlc[t]| == VLC_ENTRIES
  }

  /** The blocks, of the given components, that the decoder reads. */
  ghost function DecodeBlocks(vlc: seq<seq<VlcCode>>, all: seq<bool>, components: seq<nat>): (r: DecodedScan)
    requires FourLookups(vlc)
    ensures r.DecodedScan? ==> FullBlocks(r.blocks)
  {
    if components == [] then DecodedScan([], 0)
    else
      var c := components[|components| - 1];
      match DecodeBlocks(vlc, all, components[..|components| - 1])
      case BadScan => BadScan
      case DecodedScan(blocks, next) =>
        match DecodeBlockAt(vlc[TableClass(c)], vlc[2 + TableClass(c)], all, next, Pred(blocks, c))
        case BadBlock => BadScan
        case DecodedBlock(coef, next') =>
          DecodedScan(blocks + [Block(c, coef)], next')
  }

  /** Reading one more block. */
  lemma {:induction false} OneMoreBlock(vlc: seq<seq<VlcCode>>, all: seq<bool>, components: seq<nat>, c: nat)
    requires FourLookups(vlc)
    ensures match DecodeBlocks(vlc, all, components)
      case BadScan => DecodeBlocks(vlc, all, components + [c]) == BadScan
      case DecodedScan(blocks, next) =>
        match DecodeBlockAt(vlc[TableClass(c)], vlc[2 + TableClass(c)], all, next, Pred(blocks, c))
        case BadBlock => DecodeBlocks(vlc, all, components + [c]) == BadScan
        case DecodedBlock(coef, next') =>
          DecodeBlocks(vlc, all, components + [c]) == DecodedScan(blocks + [Block(c, coef)], next')
  {
    hide DecodeBlockAt, Pred;
    assert (components + [c])[..|components|] == components;
  }

  /** The blocks that are read belong to the given components. */
  lemma {:induction false} DecodedComponents(vlc: seq<seq<VlcCode>>, all: seq<bool>, components: seq<nat>)
    requires FourLookups(vlc)
    ensures match DecodeBlocks(vlc, all, components)
      case BadScan => true
      case DecodedScan(blocks, _) => Components(blocks) == components
  {
    hide DecodeBlockAt, Pred, DecodeBlocks;
    if components == [] {
      NoBlocks(vlc, all);
    } else {
      var n := |components| - 1;
      DecodedComponents(vlc, all, components[..n]);
      OneMoreBlock(vlc, all, components[..n], components[n]);
      assert components[..n] + [components[n]] == components;
    }
  }

  /** DC differences that a baseline table has codes for. */
  ghost predicate DcInRange(scan: seq<Block>)
    requires IsScan(scan)
  {
    forall i :: 0 <= i < |scan| ==> DcCategory(scan, i) < DC_CATEGORIES
  }

  /** The number of bits of the DC difference of block i. */
  ghost function DcCategory(scan: seq<Block>, i: nat): nat
    requires IsScan(scan) && i < |scan|
  {
    assert IsBlock(scan[i]);
    NumBits(Abs(scan[i].coef[0] - Pred(scan[..i], scan[i].component)))
  }

  /** These are the differences from -2047 to 2047. */
  lemma {:induction false} DcInRangeIs(scan: seq<Block>)
    requires IsScan(scan) && FullBlocks(scan)
    ensures DcInRange(scan) <==>
      forall i :: 0 <= i < |scan| ==> -2048 < scan[i].coef[0] - Pred(scan[..i], scan[i].component) < 2048
  {
    hide Pred, NumBits;
    forall i | 0 <= i < |scan|
      ensures DcCategory(scan, i) < DC_CATEGORIES <==>
        -2048 < scan[i].coef[0] - Pred(scan[..i], scan[i].component) < 2048
    {
      ElevenBits(Abs(scan[i].coef[0] - Pred(scan[..i], scan[i].component)), 11);
    }
  }

  lemma {:induction false} ElevenBits(x: nat, n: nat)
    requires n == 11
    ensures NumBits(x) <= n <==> x < 2048
  {
    assert Pow2(8) == 256 && Pow2(11) == 2048;
    NumBitsBelow(x, n);
  }

  /** Every symbol of the scan has a code. */
  ghost predicate ScanHasCodes(scan: seq<Block>, tables: seq<CodeTable>)
    requires IsScan(scan) && FourCodeTables(tables)
  {
    forall t :: 0 <= t < 4 ==> HaveCodes(ScanTokens(scan, t), tables[t])
  }

  /** The decoder's tables invert those of the encoder. */
  ghost predicate AllInvert(vlc: seq<seq<VlcCode>>, tables: seq<CodeTable>) {
    FourLookups(vlc) && FourCodeTables(tables) && forall t :: 0 <= t < 4 ==> Inverts(vlc[t], tables[t])
  }

  lemma {:induction false} HaveCodesParts(a: seq<Token>, b: seq<Token>, ct: CodeTable)
    requires ct.WellFormed() && HaveCodes(a + b, ct)
    ensures HaveCodes(a, ct) && HaveCodes(b, ct)
  {
    var ts := a + b;
    assert forall i :: 0 <= i < |a| ==> ts[i] == a[i];
    assert forall i :: 0 <= i < |b| ==> ts[i + |a|] == b[i];
  }

  /** What holds for a scan holds for it without its last block. */
  lemma {:induction false} WithoutLast(scan: seq<Block>, tables: seq<CodeTable>)
    requires IsScan(scan) && scan != [] && FourCodeTables(tables) && DcInRange(scan) && ScanHasCodes(scan, tables)
    ensures var s, b := scan[..|scan| - 1], scan[|scan| - 1];
      && IsScan(s) && IsBlock(b) && DcInRange(s) && ScanHasCodes(s, tables)
      && BlockHasCodes(b, Pred(s, b.component), tables)
      && NumBits(Abs(b.coef[0] - Pred(s, b.component))) < DC_CATEGORIES
  {
    hide HaveCodes, NumBits, IsBlock, BlockAcTokens, CodeTable.WellFormed;
    var n := |scan| - 1;
    var s, b := scan[..n], scan[n];
    assert IsBlock(b);
    BlockFacts(b);
    ScanFull(scan);
    forall i | 0 <= i < n
      ensures DcCategory(s, i) < DC_CATEGORIES
    {
      assert s[..i] == scan[..i] && DcCategory(s, i) == DcCategory(scan, i);
    }
    assert DcCategory(scan, n) < DC_CATEGORIES;
    var pred := Pred(s, b.component);
    forall t | 0 <= t < 4
      ensures HaveCodes(ScanTokens(s, t), tables[t]) && HaveCodes(TableTokens(b, pred, t), tables[t])
    {
      HaveCodesParts(ScanTokens(s, t), TableTokens(b, pred, t), tables[t]);
    }
    var c := TableClass(b.component);
    assert HaveCodes(TableTokens(b, pred, c), tables[c]) && HaveCodes(TableTokens(b, pred, 2 + c), tables[2 + c]);
  }

  lemma {:induction false} NoBlocks(vlc: seq<seq<VlcCode>>, all: seq<bool>)
    requires FourLookups(vlc)
    ensures DecodeBlocks(vlc, all, []) == DecodedScan([], 0)
  {
  }

  /** The decoder reads back the blocks of a scan and ends where their bits end. */
  lemma {:induction false} ScanReadsBack(vlc: seq<seq<VlcCode>>, tables: seq<CodeTable>, scan: seq<Block>,
          all: seq<bool>)
    requires AllInvert(vlc, tables) && IsScan(scan) && DcInRange(scan) && ScanHasCodes(scan, tables)
    requires ScanBits(scan, tables) <= all
    ensures DecodeBlocks(vlc, all, Components(scan)) == DecodedScan(scan, |ScanBits(scan, tables)|)
  {
    hide HaveCodes, NumBits, IsBlock, BlockAcTokens, CodeTable.WellFormed, DcInRange, ScanHasCodes, BlockHasCodes;
    hide BlockBits, Inverts;
    hide ScanTokens, DecodeBlockAt, TableTokens, DecodeBlocks, Pred;
    if scan == [] {
      NoBlocks(vlc, all);
    } else {
      var n := |scan| - 1;
      var s, b := scan[..n], scan[n];
      WithoutLast(scan, tables);
      ScanFull(s);
      PredInt16(s, b.component);
      var bits, more := ScanBits(s, tables), BlockBits(b, Pred(s, b.component), tables);
      assert ScanBits(scan, tables) == bits + more;
      ReadsBoth(all, 0, bits, more);
      ScanReadsBack(vlc, tables, s, all);
      assert Components(scan) == Components(s) + [b.component];
      OneMoreBlock(vlc, all, Components(s), b.component);
      var c := TableClass(b.component);
      BlockFacts(b);
      BlockReadsBack(vlc[c], vlc[2 + c], tables, b, Pred(s, b.component), all, |bits|);
      assert s + [b] == scan;
    }
  }
}
