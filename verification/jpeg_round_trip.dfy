/** Decoding what the encoder wrote. */
module JpegRoundTrip {
  import opened MachineNumbers
  import opened BitStrings
  import CanonicalCodes
  import opened CodeSizeLists
  import opened HuffmanTableOptimizer
  import opened HuffmanCodeTable
  import opened StuffedBits
  import opened EntropyData
  import opened VlcTable
  import opened BlockTokens
  import opened BlockEncoder
  import opened BlockRoundTrip
  import opened ScanCoding
  import opened HuffmanSegments
  import opened TableSegments
  import opened WideDifferences
  import opened TwoPassEncoder
  import opened JpegBitReader
  import opened BlockDecoder
  import opened ScanDecoder

  /** The lists of a table as they are found in its segment. */
  ghost function ListsOf(bits: seq<nat>, val: seq<nat>): TableLists
    requires |bits| == 1 + MAX_CODE_SIZE && |Sizes(bits)| <= |val|
  {
    Lists(bits, val[..|Sizes(bits)|])
  }

  /** A well-formed segment that gives these lists, for table t only. */
  ghost predicate SegmentFor(dht: seq<Byte>, t: nat, lists: TableLists) {
    && StartsWithTables(dht) && LengthOf(dht) == |dht| - 2 && SegmentResult(FirstBody(dht)) == OK
    && forall u :: SegmentTable(FirstBody(dht), u) == if u == t then lists else Absent
  }

  /** The decoder accepts the segment of table t, which gives lists for this lookup table only. */
  lemma {:induction false} SegmentReadsBack(ts: seq<Token>, t: nat, bits: seq<nat>, val: seq<nat>)
    requires t < 4 && ListsFor(ts, t, bits, val) && ByteLists(bits, val)
    ensures |Sizes(bits)| <= |val| && SegmentFor(SegmentOf(bits, val, t), t, ListsOf(bits, val))
  {
    hide SegmentResult, SegmentTable, Sizes, ValidTable, TableBytes, Occurrences, OptimizedTable;
    var body := TableBytes(bits, val, t % 2, t >= 2);
    TableBytesReadBack(bits, val, t % 2, t >= 2);
    LengthField(|Sizes(bits)|);
    assert FirstBody(SegmentOf(bits, val, t)) == body;
  }

  /** The segments in the order in which they are written. */
  function WrittenTables(dhts: seq<seq<Byte>>, n: nat): seq<Byte>
    requires |dhts| == 4
  {
    dhts[0] + dhts[2] + if n > 1 then dhts[1] + dhts[3] else []
  }

  /** The decoder accepts the segments, and each table in use is given as it was made. */
  lemma {:induction false} WrittenReadBack(dhts: seq<seq<Byte>>, n: nat, lists: seq<TableLists>)
    requires |dhts| == |lists| == 4
    requires forall t :: 0 <= t < 4 && TableUsed(t, n) ==> lists[t].Lists? && SegmentFor(dhts[t], t, lists[t])
    ensures var s := WrittenTables(dhts, n);
      && TablesResult(s) == OK
      && forall t :: 0 <= t < 4 && TableUsed(t, n) ==> TablesGiven(s, t) == lists[t]
  {
    hide SegmentResult, SegmentTable, TablesResult, TablesGiven, FirstBody;
    NoTables();
    var none: seq<Byte> := [];
    if n > 1 {
      FirstSegment(dhts[3], none);
      FirstSegment(dhts[1], dhts[3] + none);
      FirstSegment(dhts[2], dhts[1] + (dhts[3] + none));
      FirstSegment(dhts[0], dhts[2] + (dhts[1] + (dhts[3] + none)));
      assert WrittenTables(dhts, n) == dhts[0] + (dhts[2] + (dhts[1] + (dhts[3] + none)));
    } else {
      FirstSegment(dhts[2], none);
      FirstSegment(dhts[0], dhts[2] + none);
      assert WrittenTables(dhts, n) == dhts[0] + (dhts[2] + none);
    }
  }

  lemma {:induction false} NoTables()
    ensures TablesResult([]) == OK && forall t :: TablesGiven([], t) == Absent
  {
  }

  /** A lookup table without any codes, as a new decoder has it. */
  function Cleared(): seq<VlcCode> {
    seq(VLC_ENTRIES, i => VlcCode(0, 0))
  }

  /** The lookup tables as ReadTables leaves them. */
  ghost predicate TablesRead(vlc: seq<seq<VlcCode>>, s: seq<Byte>)
    requires TablesResult(s) == OK
  {
    FourLookups(vlc) && forall t :: 0 <= t < 4 ==> TableAsGiven(vlc[t], Cleared(), TablesGiven(s, t))
  }

  /** The lookup table inverts the encoder's code table. */
  lemma {:induction false} ReadTableInverts(scan: seq<Block>, t: nat, bits: seq<nat>, val: seq<nat>, ct: CodeTable,
          dht: seq<Byte>, table: seq<VlcCode>)
    requires IsScan(scan) && t < 4 && TableDone(scan, t, bits, val, ct, dht) && |Sizes(bits)| <= |val|
    requires TableAsGiven(table, Cleared(), ListsOf(bits, val))
    ensures Inverts(table, ct)
  {
    hide Sizes, ValidTable, Occurrences, ScanTokens, IsScan, CodesOf, VlcFor, Inverts, ByteLists, SegmentOf;
    hide OptimizedTable;
    var l := Sizes(bits);
    ListsLength(ScanTokens(scan, t), t, bits, val);
    TableInverts(table, l, val, val[..|l|], ct, MAX_CODE_SIZE);
  }

  lemma {:induction false} ListsLength(ts: seq<Token>, t: nat, bits: seq<nat>, val: seq<nat>)
    requires ListsFor(ts, t, bits, val)
    ensures |bits| == 1 + MAX_CODE_SIZE && |Sizes(bits)| <= |val|
      && val[..|Sizes(bits)|][..|Sizes(bits)|] == val[..|Sizes(bits)|]
  {
  }

  lemma {:induction false} UnusedInverts(table: seq<VlcCode>)
    requires |table| == VLC_ENTRIES
    ensures Inverts(table, NoCodes())
  {
  }

  /** The segments that the encoder wrote give the lists that it made; the lookup tables invert its code tables. */
  lemma {:induction false} EncodedTablesRead(scan: seq<Block>, n: nat, bits: seq<seq<nat>>, val: seq<seq<nat>>,
          tables: seq<CodeTable>, dhts: seq<seq<Byte>>, data: seq<Byte>, vlc: seq<seq<VlcCode>>)
    requires IsScan(scan) && Encoded(scan, n, bits, val, tables, dhts, data)
    ensures TablesResult(WrittenTables(dhts, n)) == OK
    ensures TablesRead(vlc, WrittenTables(dhts, n)) ==>
      && AllInvert(vlc, tables)
      && forall t :: 0 <= t < 4 && TableUsed(t, n) ==>
           && |bits[t]| == 1 + MAX_CODE_SIZE && |Sizes(bits[t])| <= |val[t]|
           && TableAsGiven(vlc[t], Cleared(), ListsOf(bits[t], val[t]))
  {
    hide TableAsGiven, Inverts, IsScan, ScanTokens, TablesResult, TablesGiven, SegmentFor, WrittenTables, SegmentOf;
    hide Sizes;
    hide ListsFor, TableFrom, ByteLists, ScanData, Cleared, CodeTable.WellFormed;
    forall t | 0 <= t < 4 && TableUsed(t, n)
      ensures |bits[t]| == 1 + MAX_CODE_SIZE && |Sizes(bits[t])| <= |val[t]|
      ensures SegmentFor(dhts[t], t, ListsOf(bits[t], val[t]))
    {
      ListsLength(ScanTokens(scan, t), t, bits[t], val[t]);
      SegmentReadsBack(ScanTokens(scan, t), t, bits[t], val[t]);
    }
    var lists := seq(4, t requires 0 <= t < 4 => if TableUsed(t, n) then ListsOf(bits[t], val[t]) else Absent);
    WrittenReadBack(dhts, n, lists);
    if TablesRead(vlc, WrittenTables(dhts, n)) {
      forall t | 0 <= t < 4
        ensures Inverts(vlc[t], tables[t])
        ensures TableUsed(t, n) ==> TableAsGiven(vlc[t], Cleared(), ListsOf(bits[t], val[t]))
      {
        if TableUsed(t, n) {
          assert lists[t] == ListsOf(bits[t], val[t]);
          ReadTableInverts(scan, t, bits[t], val[t], tables[t], dhts[t], vlc[t]);
        } else {
          UnusedInverts(vlc[t]);
        }
      }
    }
  }

  /**
   * Decoding the data of a scan with the tables read from its segments gives exactly the blocks that
   * were encoded, whatever lies behind the data's end, if no DC difference was too large.
   */
  lemma {:induction false} EncodedScanReadsBack(scan: seq<Block>, n: nat, bits: seq<seq<nat>>, val: seq<seq<nat>>,
          tables: seq<CodeTable>, dhts: seq<seq<Byte>>, data: seq<Byte>, vlc: seq<seq<VlcCode>>)
    requires IsScan(scan) && Encoded(scan, n, bits, val, tables, dhts, data) && DcInRange(scan)
    requires forall i :: 0 <= i < |scan| ==> TableUsed(TableClass(scan[i].component), n)
    requires AllInvert(vlc, tables)
    ensures Clean(data)
      && DecodeBlocks(vlc, Unstuff(data), Components(scan)) == DecodedScan(scan, |ScanBits(scan, tables)|)
  {
    hide TableDone, Inverts, IsScan, DcInRange, ScanHasCodes, ScanTokens, DecodeBlocks;
    hide ScanBits, Stuff, PackBytes, ToBits, Unstuff, Clean;
    UsedTokens(scan, n);
    EncodedTables(scan, n, bits, val, tables, dhts, data);
    CodesIffDcInRange(scan, bits, val, tables);
    var k := UnstuffScan(ScanBits(scan, tables));
    ScanReadsBack(vlc, tables, scan, Unstuff(data));
  }

  /** ... and if one was too large, it does not give those blocks. */
  lemma {:induction false} EncodedScanMisread(scan: seq<Block>, n: nat, bits: seq<seq<nat>>, val: seq<seq<nat>>,
          tables: seq<CodeTable>, dhts: seq<seq<Byte>>, data: seq<Byte>, vlc: seq<seq<VlcCode>>)
    returns (i: nat)
    requires IsScan(scan) && Encoded(scan, n, bits, val, tables, dhts, data) && !DcInRange(scan)
    requires forall i :: 0 <= i < |scan| ==> TableUsed(TableClass(scan[i].component), n)
    requires AllInvert(vlc, tables) && forall t :: 0 <= t < 4 && TableUsed(t, n) ==>
               && |bits[t]| == 1 + MAX_CODE_SIZE && |Sizes(bits[t])| <= |val[t]|
               && TableAsGiven(vlc[t], Cleared(), ListsOf(bits[t], val[t]))
    ensures i < |scan|
    ensures match DecodeBlocks(vlc, Unstuff(data), Components(scan))
      case BadScan => true
      case DecodedScan(bs, _) => i < |bs| && |bs[i].coef| == BLOCK_SIZE && bs[i].coef[0] != scan[i].coef[0]
  {
    hide TableDone, Inverts, IsScan, DcInRange, ScanHasCodes, ScanTokens, DecodeBlocks, Sizes, VlcFor;
    hide ScanBits, Stuff, PackBytes, ToBits, Unstuff, Clean;
    UsedTokens(scan, n);
    EncodedTables(scan, n, bits, val, tables, dhts, data);
    var k := UnstuffScan(ScanBits(scan, tables));
    i := WideDifferenceMisread(scan, bits, val, tables, vlc, Unstuff(data));
  }

  /** Tables that are not in use have no tokens. */
  lemma {:induction false} UsedTokens(scan: seq<Block>, n: nat)
    requires IsScan(scan) && forall i :: 0 <= i < |scan| ==> TableUsed(TableClass(scan[i].component), n)
    ensures forall t :: 0 <= t < 4 && !TableUsed(t, n) ==> ScanTokens(scan, t) == []
  {
    hide BlockAcTokens, Pred;
    if scan != [] {
      var m := |scan| - 1;
      NextBlock(scan, m);
      assert scan[..m + 1] == scan;
      UsedTokens(scan[..m], n);
    }
  }

  lemma {:induction false} EncodedTables(scan: seq<Block>, n: nat, bits: seq<seq<nat>>, val: seq<seq<nat>>,
          tables: seq<CodeTable>, dhts: seq<seq<Byte>>, data: seq<Byte>)
    requires IsScan(scan) && Encoded(scan, n, bits, val, tables, dhts, data)
    requires forall t :: 0 <= t < 4 && !TableUsed(t, n) ==> ScanTokens(scan, t) == []
    ensures TablesOfScan(scan, bits, val, tables)
  {
    hide ScanTokens, ListsFor, TableFrom;
  }

  // The decoder's side, from segments to blocks.

  /** A table that inverts codes of up to m = 16 bits, and is empty elsewhere, is usable. */
  lemma {:induction false} VlcForUsable(table: seq<VlcCode>, l: seq<nat>, val: seq<nat>, m: nat)
    requires m == 16 && VlcFor(table, l, val, m)
    ensures Usable(table)
  {
    forall v | 0 <= v < |table|
      ensures table[v].bits <= 16
    {
      if v < CanonicalCodes.Start(l, |l|, m) {
        var p := FindSlice(l, |l|, m, v);
        assert MapsSlice(table, l, val, m, p);
      }
    }
  }

  /** Tables read from segments, and cleared tables, are usable. */
  lemma {:induction false} ReadTablesUsable(table: seq<VlcCode>, given: TableLists)
    requires |table| == VLC_ENTRIES && TableAsGiven(table, Cleared(), given)
    ensures Usable(table)
  {
    if given.Lists? {
      VlcForUsable(table, Sizes(given.bits), given.val, MAX_CODE_SIZE);
    }
  }

  /** The lookup tables as a new decoder has them. */
  method ClearedTables() returns (vlctab: seq<array<VlcCode>>)
    ensures fresh(vlctab) && FourTables(vlctab) && forall t :: 0 <= t < 4 ==> vlctab[t][..] == Cleared()
  {
    var v0, v1 := new VlcCode[VLC_ENTRIES](i => VlcCode(0, 0)), new VlcCode[VLC_ENTRIES](i => VlcCode(0, 0));
    var v2, v3 := new VlcCode[VLC_ENTRIES](i => VlcCode(0, 0)), new VlcCode[VLC_ENTRIES](i => VlcCode(0, 0));
    vlctab := [v0, v1, v2, v3];
    assert v0[..] == Cleared() && v1[..] == Cleared() && v2[..] == Cleared() && v3[..] == Cleared();
  }

  /** With the lookup tables vlc, read from the segments s, the data gives these blocks or an error. */
  ghost predicate ImageDecoded(vlc: seq<seq<VlcCode>>, s: seq<Byte>, data: seq<Byte>, q: seq<seq<nat>>,
          order: seq<nat>, error: DecodeResult, blocks: seq<seq<int>>)
    requires TablesResult(s) == OK
  {
    TablesRead(vlc, s)
    && match DecodeBlocks(vlc, Unstuff(data), order)
       case BadScan => error != OK
       case DecodedScan(bs, next) => (Clean(data) ==> error == OK) && (error == OK ==> BlocksAre(blocks, bs, q))
  }

  /** Decodes a scan from the segments of its tables, any bytes, and its data, any bytes as well. */
  method DecodeImage(s: seq<Byte>, data: seq<Byte>, q: seq<seq<nat>>, comps: seq<Sampling>, w: nat, h: nat)
      returns (error: DecodeResult, blocks: seq<seq<int>>)
    requires |comps| == |q| <= COMPONENTS && forall c :: 0 <= c < |q| ==> |q[c]| == BLOCK_SIZE
    ensures TablesResult(s) != OK ==> error == TablesResult(s)
    ensures TablesResult(s) == OK ==> exists vlc :: ImageDecoded(vlc, s, data, q, ScanOrder(comps, w, h), error, blocks)
  {
    hide TablesResult, TablesGiven, TableAsGiven, Usable, DecodeBlocks, BlocksAre, Clean, Unstuff, ScanOrder;
    hide BitReader.Valid, Cleared;
    blocks := [];
    var vlctab := ClearedTables();
    error := ReadTables(s, vlctab);
    if error != OK {
      return;
    }
    ghost var vlc := Lookups(vlctab);
    forall t | 0 <= t < 4
      ensures Usable(vlctab[t][..])
    {
      ReadTablesUsable(vlctab[t][..], TablesGiven(s, t));
    }
    var dcpred, block := new int[|q|](i => 0), new int[BLOCK_SIZE];
    var r := new BitReader(data);
    assert Lookups(vlctab) == vlc && TablesRead(vlc, s);
    blocks := DecodeScan(r, vlctab, q, dcpred, block, comps, w, h);
    error := r.error;
    assert ImageDecoded(vlc, s, data, q, ScanOrder(comps, w, h), error, blocks);
  }

  /**
   * Encoding a scan and decoding it again gives the same blocks, dequantised, without an error, exactly if no DC
   * difference has more than 11 bits: for every list of blocks in the order of the image's MCUs. (A quantisation table
   * that multiplies DC values by zero would hide that they differ.)
   */
  method EncodeThenDecode(scan: seq<Block>, n: nat, q: seq<seq<nat>>, comps: seq<Sampling>, w: nat, h: nat)
      returns (error: DecodeResult, blocks: seq<seq<int>>)
    requires IsScan(scan) && (n == 1 || n == 3) && ScanFits(scan, n)
    requires |comps| == |q| == n && (forall c :: 0 <= c < n ==> |q[c]| == BLOCK_SIZE)
    requires Components(scan) == ScanOrder(comps, w, h)
    ensures DcInRange(scan) ==> error == OK && BlocksAre(blocks, scan, q)
    ensures (forall c :: 0 <= c < n ==> q[c][0] > 0) && error == OK && BlocksAre(blocks, scan, q) ==> DcInRange(scan)
  {
    hide TableDone, DecodeBlocks, BlocksAre, Clean, Unstuff, ScanOrder, ScanTokens, IsScan, DcInRange, Components;
    hide TablesResult, AllInvert, TableAsGiven, Encoded, Sizes, WrittenTables, TablesGiven;
    var dhts, data := EncodeScan(scan, n);
    ghost var bits, val, tables :| Encoded(scan, n, bits, val, tables, dhts, data);
    assert |dhts| == 4 by {
      FourSegments(scan, n, bits, val, tables, dhts, data);
    }
    var s := WrittenTables(dhts, n);
    error, blocks := DecodeImage(s, data, q, comps, w, h);
    EncodedTablesRead(scan, n, bits, val, tables, dhts, data, []);
    ghost var vlc :| ImageDecoded(vlc, s, data, q, ScanOrder(comps, w, h), error, blocks);
    EncodedTablesRead(scan, n, bits, val, tables, dhts, data, vlc);
    OrderUsesTables(scan, comps, w, h, n);
    if DcInRange(scan) {
      EncodedScanReadsBack(scan, n, bits, val, tables, dhts, data, vlc);
    } else {
      ghost var i := EncodedScanMisread(scan, n, bits, val, tables, dhts, data, vlc);
      if error == OK && BlocksAre(blocks, scan, q) {
        ghost var bs := DecodeBlocks(vlc, Unstuff(data), ScanOrder(comps, w, h)).blocks;
        DecodedComponents(vlc, Unstuff(data), ScanOrder(comps, w, h));
        ScanFull(scan);
        DcValuesTold(blocks, scan, bs, q, i);
      }
    }
  }

  lemma {:induction false} FourSegments(scan: seq<Block>, n: nat, bits: seq<seq<nat>>, val: seq<seq<nat>>,
          tables: seq<CodeTable>, dhts: seq<seq<Byte>>, data: seq<Byte>)
    requires IsScan(scan) && Encoded(scan, n, bits, val, tables, dhts, data)
    ensures |dhts| == |bits| == |val| == 4
  {
  }

  /** Dequantised DC values tell the DC values apart. */
  lemma {:induction false} DcValuesTold(blocks: seq<seq<int>>, scan: seq<Block>, bs: seq<Block>, q: seq<seq<nat>>,
          i: nat)
    requires BlocksAre(blocks, scan, q) && BlocksAre(blocks, bs, q) && i < |scan| && i < |bs|
    requires |scan[i].coef| == |bs[i].coef| == BLOCK_SIZE && scan[i].coef[0] != bs[i].coef[0]
    requires Components(scan) == Components(bs)
    ensures exists c :: 0 <= c < |q| && |q[c]| == BLOCK_SIZE && q[c][0] == 0
  {
    var c := scan[i].component;
    assert Components(scan)[i] == Components(bs)[i];
    FirstPlace();
    var x, y := scan[i].coef[0], bs[i].coef[0];
    assert x * q[c][0] == y * q[c][0];
    SameProduct(x, y, q[c][0]);
  }

  lemma {:induction false} SameProduct(x: int, y: int, q: nat)
    requires x * q == y * q && x != y
    ensures q == 0
  {
  }

  /** All components in the order are among those of the image. */
  lemma {:induction false} OrderUsesTables(scan: seq<Block>, comps: seq<Sampling>, w: nat, h: nat, n: nat)
    requires Components(scan) == ScanOrder(comps, w, h) && |comps| == n
    ensures forall i :: 0 <= i < |scan| ==> TableUsed(TableClass(scan[i].component), n)
  {
    McuPartBelow(comps, n);
    RepeatedBelow(McuPart(comps, n), w, n);
    RepeatedBelow(Repeated(McuPart(comps, n), w), h, n);
    forall i | 0 <= i < |scan|
      ensures scan[i].component < n
    {
      assert Components(scan)[i] == scan[i].component;
    }
  }

  ghost predicate AllBelow(s: seq<nat>, n: nat) {
    forall i :: 0 <= i < |s| ==> s[i] < n
  }

  lemma {:induction false} RepeatedBelow(s: seq<nat>, k: nat, n: nat)
    requires AllBelow(s, n)
    ensures AllBelow(Repeated(s, k), n)
  {
    if k > 0 {
      RepeatedBelow(s, k - 1, n);
    }
  }

  lemma {:induction false} McuPartBelow(comps: seq<Sampling>, k: nat)
    requires k <= |comps|
    ensures AllBelow(McuPart(comps, k), k)
  {
    if k > 0 {
      McuPartBelow(comps, k - 1);
      RepeatedBelow([k - 1], comps[k - 1].ssx, k);
      RepeatedBelow(Repeated([k - 1], comps[k - 1].ssx), comps[k - 1].ssy, k);
    }
  }
}
