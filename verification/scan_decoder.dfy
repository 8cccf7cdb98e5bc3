/** Decoding a scan, MCU by MCU. */
module ScanDecoder {
  import opened EntropyData
  import opened JpegBitReader
  import opened VlcTable
  import opened BlockTokens
  import opened BlockEncoder
  import opened BlockDecoder
  import opened ScanCoding

  /** How many blocks of a component an MCU has, across and down. */
  datatype Sampling = Sampling(ssx: nat, ssy: nat)

  // The order in which the decoder reads blocks: component numbers.

  /** s, n times over. */
  function Repeated(s: seq<nat>, n: nat): seq<nat> {
    if n == 0 then [] else Repeated(s, n - 1) + s
  }

  /** The blocks of the first k components of an MCU. */
  function McuPart(comps: seq<Sampling>, k: nat): seq<nat>
    requires k <= |comps|
  {
    if k == 0 then [] else McuPart(comps, k - 1) + Repeated(Repeated([k - 1], comps[k - 1].ssx), comps[k - 1].ssy)
  }

  /** The blocks of a scan of h rows of w MCUs. */
  function ScanOrder(comps: seq<Sampling>, w: nat, h: nat): seq<nat> {
    Repeated(Repeated(McuPart(comps, |comps|), w), h)
  }

  lemma {:induction false} RepeatedPrefix(s: seq<nat>, k: nat, n: nat)
    requires k <= n
    ensures Repeated(s, k) <= Repeated(s, n)
  {
    if k < n {
      RepeatedPrefix(s, k, n - 1);
    }
  }

  lemma {:induction false} McuPartPrefix(comps: seq<Sampling>, k: nat, n: nat)
    requires k <= n <= |comps|
    ensures McuPart(comps, k) <= McuPart(comps, n)
  {
    if k < n {
      McuPartPrefix(comps, k, n - 1);
    }
  }

  /** The encoder's order of the blocks of one MCU of a colour image. */
  function EncoderMcu(h: nat, v: nat): seq<nat> {
    if h == 1 && v == 1 then [0, 1, 2]
    else if h == 2 && v == 1 then [0, 0, 1, 2]
    else if h == 2 && v == 2 then [0, 0, 0, 0, 1, 2]
    else []
  }

  lemma {:induction false} RepeatedFew(s: seq<nat>, n: nat)
    requires 1 <= n <= 2
    ensures Repeated(s, n) == if n == 1 then s else s + s
  {
    assert Repeated(s, 0) == [] && Repeated(s, 1) == [] + s;
  }

  /** Encoder and decoder agree on the order of the blocks of an MCU, for each subsampling. */
  lemma {:induction false} McuOrderAgrees(h: nat, v: nat)
    requires (h == 1 && v == 1) || (h == 2 && v == 1) || (h == 2 && v == 2)
    ensures McuPart([Sampling(h, v), Sampling(1, 1), Sampling(1, 1)], 3) == EncoderMcu(h, v)
  {
    hide Repeated;
    var comps := [Sampling(h, v), Sampling(1, 1), Sampling(1, 1)];
    RepeatedFew([0], h);
    RepeatedFew(Repeated([0], h), v);
    RepeatedFew([1], 1);
    RepeatedFew([2], 1);
    assert McuPart(comps, 1) == Repeated(Repeated([0], h), v);
    assert McuPart(comps, 2) == McuPart(comps, 1) + [1];
  }

  /** ... and for greyscale images. */
  lemma {:induction false} GreyOrderAgrees()
    ensures McuPart([Sampling(1, 1)], 1) == [0]
  {
    RepeatedFew([0], 1);
  }

  // The state while blocks are read.

  /** The lookup tables as values. */
  ghost function Lookups(vlctab: seq<array<VlcCode>>): (vlc: seq<seq<VlcCode>>)
    requires FourTables(vlctab)
    reads vlctab
    ensures FourLookups(vlc)
  {
    [vlctab[0][..], vlctab[1][..], vlctab[2][..], vlctab[3][..]]
  }

  /** The dequantised blocks are those of bs. */
  ghost predicate BlocksAre(blocks: seq<seq<int>>, bs: seq<Block>, q: seq<seq<nat>>) {
    |blocks| == |bs| && forall k :: 0 <= k < |bs| ==>
      bs[k].component < |q| && Dequantised(blocks[k], bs[k].coef, q[bs[k].component])
  }

  /** The predictors after the blocks bs. */
  ghost predicate Predicts(dcpred: seq<int>, bs: seq<Block>)
    requires FullBlocks(bs)
  {
    forall c :: 0 <= c < |dcpred| ==> dcpred[c] == Pred(bs, c)
  }

  /** What may be said of the decoder after the blocks of the components done: status, blocks, predictors, position. */
  ghost predicate Progressing(spec: DecodedScan, ok: bool, clean: bool, position: nat, blocks: seq<seq<int>>,
          q: seq<seq<nat>>, dcpred: seq<int>)
    requires spec.DecodedScan? ==> FullBlocks(spec.blocks)
  {
    match spec
    case BadScan => !ok
    case DecodedScan(bs, next) =>
      (clean ==> ok) && (ok ==> BlocksAre(blocks, bs, q) && Predicts(dcpred, bs) && position == next)
  }

  /** A scan that starts badly is bad. */
  lemma {:induction false} BadStart(vlc: seq<seq<VlcCode>>, all: seq<bool>, a: seq<nat>, b: seq<nat>)
    requires FourLookups(vlc)
    ensures DecodeBlocks(vlc, all, a) == BadScan ==> DecodeBlocks(vlc, all, a + b) == BadScan
  {
    hide DecodeBlockAt, Pred;
    if b == [] {
      assert a + b == a;
    } else {
      var n := |b| - 1;
      BadStart(vlc, all, a, b[..n]);
      OneMoreBlock(vlc, all, a + b[..n], b[n]);
      assert a + b == a + b[..n] + [b[n]];
    }
  }

  /** The decoder's state, when the blocks of the components done have been read. */
  ghost predicate Reading(r: BitReader, vlctab: seq<array<VlcCode>>, q: seq<seq<nat>>, dcpred: array<int>,
          blocks: seq<seq<int>>, done: seq<nat>)
    requires FourTables(vlctab)
    reads r, vlctab, dcpred
  {
    && r.Valid()
    && Progressing(DecodeBlocks(Lookups(vlctab), r.all, done), r.error == OK, Clean(r.data), r.Position(),
                   blocks, q, dcpred[..])
  }

  /** The tables the decoder has been given, and the places it writes to. */
  ghost predicate Ready(r: BitReader, vlctab: seq<array<VlcCode>>, q: seq<seq<nat>>, dcpred: array<int>,
          block: array<int>)
    reads vlctab
  {
    && FourTables(vlctab) && (forall t :: 0 <= t < 4 ==> Usable(vlctab[t][..]))
    && dcpred.Length == |q| <= COMPONENTS && (forall c :: 0 <= c < |q| ==> |q[c]| == BLOCK_SIZE)
    && block.Length == BLOCK_SIZE && dcpred != block
    && forall t :: 0 <= t < 4 ==> vlctab[t] as object != dcpred && vlctab[t] as object != block
  }

  /** Having failed early, the decoder has failed. */
  lemma {:induction false} FailedEarly(r: BitReader, vlctab: seq<array<VlcCode>>, q: seq<seq<nat>>, dcpred: array<int>,
          blocks: seq<seq<int>>, done: seq<nat>, total: seq<nat>)
    requires FourTables(vlctab) && Reading(r, vlctab, q, dcpred, blocks, done) && r.error != OK && done <= total
    ensures Reading(r, vlctab, q, dcpred, blocks, total)
  {
    hide DecodeBlocks, Lookups, BitReader.Valid;
    BadStart(Lookups(vlctab), r.all, done, total[|done|..]);
    assert done + total[|done|..] == total;
  }

  /** One more block and its DC value. */
  lemma {:induction false} OneMore(blocks: seq<seq<int>>, bs: seq<Block>, q: seq<seq<nat>>, dcpred: seq<int>, c: nat,
          coef: seq<int>, block: seq<int>)
    requires FullBlocks(bs) && BlocksAre(blocks, bs, q) && Predicts(dcpred, bs) && c < |q| == |dcpred|
      && |coef| == BLOCK_SIZE
    requires Dequantised(block, coef, q[c])
    ensures FullBlocks(bs + [Block(c, coef)]) && BlocksAre(blocks + [block], bs + [Block(c, coef)], q)
    ensures Predicts(dcpred[c := coef[0]], bs + [Block(c, coef)])
  {
    hide Pred, Dequantised;
    var bs' := bs + [Block(c, coef)];
    forall x | 0 <= x < |dcpred|
      ensures dcpred[c := coef[0]][x] == Pred(bs', x)
    {
      assert bs'[..|bs|] == bs;
      PredStep(bs', x);
    }
  }

  /** Decodes the next block, which belongs to component c. */
  method DecodeNext(r: BitReader, vlctab: seq<array<VlcCode>>, q: seq<seq<nat>>, dcpred: array<int>, block: array<int>,
          c: nat, blocks: seq<seq<int>>, ghost done: seq<nat>)
    returns (blocks': seq<seq<int>>)
    requires Ready(r, vlctab, q, dcpred, block) && c < |q| && r.error == OK
    requires Reading(r, vlctab, q, dcpred, blocks, done)
    modifies r, dcpred, block
    ensures Reading(r, vlctab, q, dcpred, blocks', done + [c])
  {
    hide DecodeBlocks, BitReader.Valid, BitReader.Position, DecodeBlockAt, Dequantised, Clean, Usable, Pred, BlocksAre;
    ghost var vlc := Lookups(vlctab);
    ghost var spec := DecodeBlocks(vlc, r.all, done);
    OneMoreBlock(vlc, r.all, done, c);
    var t := TableClass(c);
    assert vlc[t] == vlctab[t][..] && vlc[2 + t] == vlctab[2 + t][..];
    assert spec.DecodedScan? && spec.next == r.Position() && dcpred[..][c] == Pred(spec.blocks, c);
    ghost var one := DecodeBlockAt(vlc[t], vlc[2 + t], r.all, r.Position(), dcpred[c]);
    var d := DecodeBlock(r, vlctab[t], vlctab[2 + t], q[c], dcpred[c], block);
    ghost var preds := dcpred[..];
    dcpred[c] := d;
    blocks' := blocks + [block[..]];
    assert Lookups(vlctab) == vlc && dcpred[..] == preds[c := d];
    if r.error == OK {
      OneMore(blocks, spec.blocks, q, preds, c, one.coef, block[..]);
    }
  }

  /** The blocks of a component in one row of an MCU. */
  method DecodeRow(r: BitReader, vlctab: seq<array<VlcCode>>, q: seq<seq<nat>>, dcpred: array<int>, block: array<int>,
          c: nat, ssx: nat, blocks0: seq<seq<int>>, ghost done: seq<nat>)
    returns (blocks: seq<seq<int>>)
    requires Ready(r, vlctab, q, dcpred, block) && c < |q| && r.error == OK
    requires Reading(r, vlctab, q, dcpred, blocks0, done)
    modifies r, dcpred, block
    ensures Reading(r, vlctab, q, dcpred, blocks, done + Repeated([c], ssx))
  {
    hide Reading;
    ghost var unit := [c];
    blocks := blocks0;
    assert done + Repeated(unit, 0) == done;
    for sbx := 0 to ssx
      invariant Ready(r, vlctab, q, dcpred, block) && r.error == OK
      invariant Reading(r, vlctab, q, dcpred, blocks, done + Repeated(unit, sbx))
    {
      ghost var before := done + Repeated(unit, sbx);
      blocks := DecodeNext(r, vlctab, q, dcpred, block, c, blocks, before);
      assert before + unit == done + Repeated(unit, sbx + 1);
      if r.error != OK {
        RepeatedPrefix(unit, sbx + 1, ssx);
        FailedEarly(r, vlctab, q, dcpred, blocks, before + unit, done + Repeated(unit, ssx));
        return;
      }
    }
  }

  /** The blocks of a component in an MCU. */
  method DecodeComponent(r: BitReader, vlctab: seq<array<VlcCode>>, q: seq<seq<nat>>, dcpred: array<int>,
          block: array<int>, c: nat, ssx: nat, ssy: nat, blocks0: seq<seq<int>>, ghost done: seq<nat>)
    returns (blocks: seq<seq<int>>)
    requires Ready(r, vlctab, q, dcpred, block) && c < |q| && r.error == OK
    requires Reading(r, vlctab, q, dcpred, blocks0, done)
    modifies r, dcpred, block
    ensures Reading(r, vlctab, q, dcpred, blocks, done + Repeated(Repeated([c], ssx), ssy))
  {
    hide Reading;
    ghost var unit := Repeated([c], ssx);
    blocks := blocks0;
    assert done + Repeated(unit, 0) == done;
    for sby := 0 to ssy
      invariant Ready(r, vlctab, q, dcpred, block) && r.error == OK
      invariant Reading(r, vlctab, q, dcpred, blocks, done + Repeated(unit, sby))
    {
      ghost var before := done + Repeated(unit, sby);
      blocks := DecodeRow(r, vlctab, q, dcpred, block, c, ssx, blocks, before);
      assert before + unit == done + Repeated(unit, sby + 1);
      if r.error != OK {
        RepeatedPrefix(unit, sby + 1, ssy);
        FailedEarly(r, vlctab, q, dcpred, blocks, before + unit, done + Repeated(unit, ssy));
        return;
      }
    }
  }

  /** The blocks of one MCU. */
  method DecodeMcu(r: BitReader, vlctab: seq<array<VlcCode>>, q: seq<seq<nat>>, dcpred: array<int>, block: array<int>,
          comps: seq<Sampling>, blocks0: seq<seq<int>>, ghost done: seq<nat>)
    returns (blocks: seq<seq<int>>)
    requires Ready(r, vlctab, q, dcpred, block) && |comps| == |q| && r.error == OK
    requires Reading(r, vlctab, q, dcpred, blocks0, done)
    modifies r, dcpred, block
    ensures Reading(r, vlctab, q, dcpred, blocks, done + McuPart(comps, |comps|))
  {
    hide Reading;
    blocks := blocks0;
    assert done + McuPart(comps, 0) == done;
    for i := 0 to |comps|
      invariant Ready(r, vlctab, q, dcpred, block) && r.error == OK
      invariant Reading(r, vlctab, q, dcpred, blocks, done + McuPart(comps, i))
    {
      ghost var before, more := done + McuPart(comps, i), Repeated(Repeated([i], comps[i].ssx), comps[i].ssy);
      blocks := DecodeComponent(r, vlctab, q, dcpred, block, i, comps[i].ssx, comps[i].ssy, blocks, before);
      assert before + more == done + McuPart(comps, i + 1);
      if r.error != OK {
        McuPartPrefix(comps, i + 1, |comps|);
        FailedEarly(r, vlctab, q, dcpred, blocks, before + more, done + McuPart(comps, |comps|));
        return;
      }
    }
  }

  /** A row of w MCUs. */
  method DecodeMcuRow(r: BitReader, vlctab: seq<array<VlcCode>>, q: seq<seq<nat>>, dcpred: array<int>,
          block: array<int>, comps: seq<Sampling>, w: nat, blocks0: seq<seq<int>>, ghost done: seq<nat>)
    returns (blocks: seq<seq<int>>)
    requires Ready(r, vlctab, q, dcpred, block) && |comps| == |q| && r.error == OK
    requires Reading(r, vlctab, q, dcpred, blocks0, done)
    modifies r, dcpred, block
    ensures Reading(r, vlctab, q, dcpred, blocks, done + Repeated(McuPart(comps, |comps|), w))
  {
    hide Reading;
    ghost var unit := McuPart(comps, |comps|);
    blocks := blocks0;
    assert done + Repeated(unit, 0) == done;
    for mbx := 0 to w
      invariant Ready(r, vlctab, q, dcpred, block) && r.error == OK
      invariant Reading(r, vlctab, q, dcpred, blocks, done + Repeated(unit, mbx))
    {
      ghost var before := done + Repeated(unit, mbx);
      blocks := DecodeMcu(r, vlctab, q, dcpred, block, comps, blocks, before);
      assert before + unit == done + Repeated(unit, mbx + 1);
      if r.error != OK {
        RepeatedPrefix(unit, mbx + 1, w);
        FailedEarly(r, vlctab, q, dcpred, blocks, before + unit, done + Repeated(unit, w));
        return;
      }
    }
  }

  /** h rows of w MCUs. */
  method DecodeMcuRows(r: BitReader, vlctab: seq<array<VlcCode>>, q: seq<seq<nat>>, dcpred: array<int>,
          block: array<int>, comps: seq<Sampling>, w: nat, h: nat, blocks0: seq<seq<int>>, ghost done: seq<nat>)
    returns (blocks: seq<seq<int>>)
    requires Ready(r, vlctab, q, dcpred, block) && |comps| == |q| && r.error == OK
    requires Reading(r, vlctab, q, dcpred, blocks0, done)
    modifies r, dcpred, block
    ensures Reading(r, vlctab, q, dcpred, blocks, done + Repeated(Repeated(McuPart(comps, |comps|), w), h))
  {
    hide Reading;
    ghost var unit := Repeated(McuPart(comps, |comps|), w);
    blocks := blocks0;
    assert done + Repeated(unit, 0) == done;
    for mby := 0 to h
      invariant Ready(r, vlctab, q, dcpred, block) && r.error == OK
      invariant Reading(r, vlctab, q, dcpred, blocks, done + Repeated(unit, mby))
    {
      ghost var before := done + Repeated(unit, mby);
      blocks := DecodeMcuRow(r, vlctab, q, dcpred, block, comps, w, blocks, before);
      assert before + unit == done + Repeated(unit, mby + 1);
      if r.error != OK {
        RepeatedPrefix(unit, mby + 1, h);
        FailedEarly(r, vlctab, q, dcpred, blocks, before + unit, done + Repeated(unit, h));
        return;
      }
    }
  }

  /**
   * Decodes a scan of h rows of w MCUs. If the blocks of the scan can be read at all, and unless the
   * data is malformed, the result is the dequantised blocks; if they cannot, an error is reported.
   */
  method DecodeScan(r: BitReader, vlctab: seq<array<VlcCode>>, q: seq<seq<nat>>, dcpred: array<int>, block: array<int>,
          comps: seq<Sampling>, w: nat, h: nat)
    returns (blocks: seq<seq<int>>)
    requires Ready(r, vlctab, q, dcpred, block) && |comps| == |q| && r.Valid() && r.Position() == 0 && r.error == OK
    requires forall c :: 0 <= c < dcpred.Length ==> dcpred[c] == 0
    modifies r, dcpred, block
    ensures match DecodeBlocks(Lookups(vlctab), r.all, ScanOrder(comps, w, h))
      case BadScan => r.error != OK
      case DecodedScan(bs, next) => (Clean(r.data) ==> r.error == OK) && (r.error == OK ==> BlocksAre(blocks, bs, q))
  {
    hide BlocksAre, Clean;
    NoBlocks(Lookups(vlctab), r.all);
    NothingRead(q, dcpred[..]);
    blocks := DecodeMcuRows(r, vlctab, q, dcpred, block, comps, w, h, [], []);
    assert [] + ScanOrder(comps, w, h) == ScanOrder(comps, w, h);
  }

  lemma {:induction false} NothingRead(q: seq<seq<nat>>, dcpred: seq<int>)
    requires forall c :: 0 <= c < |dcpred| ==> dcpred[c] == 0
    ensures BlocksAre([], [], q) && Predicts(dcpred, [])
  {
  }
}
