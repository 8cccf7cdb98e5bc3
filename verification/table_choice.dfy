/** Which tables code which blocks: 0 and 2 those of component 0, 1 and 3 those of components 1 and 2. */
module TableChoice {
  import opened BlockTokens
  import opened BlockEncoder
  import opened ScanCoding

  /** The blocks of component 0, in order. */
  ghost function Luminance(scan: seq<Block>): seq<Block> {
    if scan == [] then []
    else Luminance(scan[..|scan| - 1]) + if scan[|scan| - 1].component == 0 then [scan[|scan| - 1]] else []
  }

  /** The blocks of the other components. */
  ghost function Chrominance(scan: seq<Block>): seq<Block> {
    if scan == [] then []
    else Chrominance(scan[..|scan| - 1]) + if scan[|scan| - 1].component != 0 then [scan[|scan| - 1]] else []
  }

  /** One DC token per block: the difference from the block before it of the same component. */
  ghost function DcTokens(blocks: seq<Block>): (ts: seq<Token>)
    requires FullBlocks(blocks)
    ensures |ts| == |blocks|
  {
    if blocks == [] then []
    else
      var s, b := blocks[..|blocks| - 1], blocks[|blocks| - 1];
      DcTokens(s) + [DcToken(b.coef[0] - Pred(s, b.component))]
  }

  /** The AC tokens of the blocks, one block after the other. */
  ghost function AcTokensOf(blocks: seq<Block>): (ts: seq<Token>)
    requires FullBlocks(blocks)
  {
    if blocks == [] then []
    else AcTokensOf(blocks[..|blocks| - 1]) + BlockAcTokens(blocks[|blocks| - 1].coef)
  }

  /** The predictor of a component: the DC value of its last block, at first zero. */
  lemma {:induction false} PredIs(scan: seq<Block>, c: nat, i: nat)
    requires FullBlocks(scan) && i <= |scan| && forall j :: i <= j < |scan| ==> scan[j].component != c
    ensures i > 0 && scan[i - 1].component == c ==> Pred(scan, c) == scan[i - 1].coef[0]
    ensures i == 0 ==> Pred(scan, c) == 0
  {
    if i < |scan| {
      PredIs(scan[..|scan| - 1], c, i);
    }
  }

  lemma {:induction false} FilteredNext(scan: seq<Block>)
    requires scan != []
    ensures var s, b := scan[..|scan| - 1], scan[|scan| - 1];
      if b.component == 0 then Luminance(scan) == Luminance(s) + [b] && Chrominance(scan) == Chrominance(s)
      else Chrominance(scan) == Chrominance(s) + [b] && Luminance(scan) == Luminance(s)
  {
  }

  lemma {:induction false} PredNext(blocks: seq<Block>, b: Block, c: nat)
    requires FullBlocks(blocks) && |b.coef| == BLOCK_SIZE
    ensures FullBlocks(blocks + [b])
    ensures Pred(blocks + [b], c) == if b.component == c then b.coef[0] else Pred(blocks, c)
  {
    assert (blocks + [b])[..|blocks|] == blocks;
  }

  lemma {:induction false} LuminanceFull(scan: seq<Block>)
    requires FullBlocks(scan)
    ensures FullBlocks(Luminance(scan)) && Pred(Luminance(scan), 0) == Pred(scan, 0)
  {
    if scan != [] {
      var n := |scan| - 1;
      LuminanceFull(scan[..n]);
      FilteredNext(scan);
      PredNext(Luminance(scan[..n]), scan[n], 0);
    }
  }

  lemma {:induction false} ChrominanceFull(scan: seq<Block>, c: nat)
    requires FullBlocks(scan)
    ensures FullBlocks(Chrominance(scan)) && (c != 0 ==> Pred(Chrominance(scan), c) == Pred(scan, c))
  {
    if scan != [] {
      var n := |scan| - 1;
      ChrominanceFull(scan[..n], c);
      FilteredNext(scan);
      PredNext(Chrominance(scan[..n]), scan[n], c);
    }
  }

  lemma {:induction false} FilteredFull(scan: seq<Block>)
    requires IsScan(scan)
    ensures FullBlocks(Luminance(scan)) && FullBlocks(Chrominance(scan))
  {
    ScanFull(scan);
    LuminanceFull(scan);
    ChrominanceFull(scan, 0);
  }

  lemma {:induction false} OneMoreDc(blocks: seq<Block>, b: Block)
    requires FullBlocks(blocks) && |b.coef| == BLOCK_SIZE
    ensures FullBlocks(blocks + [b])
    ensures DcTokens(blocks + [b]) == DcTokens(blocks) + [DcToken(b.coef[0] - Pred(blocks, b.component))]
    ensures AcTokensOf(blocks + [b]) == AcTokensOf(blocks) + BlockAcTokens(b.coef)
  {
    hide DcToken, BlockAcTokens, Pred;
    assert (blocks + [b])[..|blocks|] == blocks;
  }

  /**
   * Tables 0 and 2 code the blocks of component 0 and no others, tables 1 and 3 those of components 1 and 2: the
   * former their DC differences, the latter their AC coefficients.
   */
  lemma {:induction false} TokensOfTables(scan: seq<Block>)
    requires IsScan(scan)
    ensures FullBlocks(Luminance(scan)) && FullBlocks(Chrominance(scan))
    ensures ScanTokens(scan, 0) == DcTokens(Luminance(scan)) && ScanTokens(scan, 1) == DcTokens(Chrominance(scan))
    ensures ScanTokens(scan, 2) == AcTokensOf(Luminance(scan)) && ScanTokens(scan, 3) == AcTokensOf(Chrominance(scan))
  {
    hide IsBlock, BlockAcTokens, DcToken, Pred, DcTokens, AcTokensOf, Luminance, Chrominance;
    FilteredFull(scan);
    if scan == [] {
      NothingFiltered();
      NoTokensOfNothing();
    } else {
      var n := |scan| - 1;
      var s, b := scan[..n], scan[n];
      TokensOfTables(s);
      ScanFull(s);
      BlockFacts(b);
      LuminanceFull(s);
      ChrominanceFull(s, b.component);
      FilteredNext(scan);
      OneMoreDc(Luminance(s), b);
      OneMoreDc(Chrominance(s), b);
    }
  }

  lemma {:induction false} NothingFiltered()
    ensures Luminance([]) == [] && Chrominance([]) == []
  {
  }

  lemma {:induction false} NoTokensOfNothing()
    ensures DcTokens([]) == [] && AcTokensOf([]) == []
  {
  }

  /** Leaving the blocks of component 0 out changes nothing for tables 1 and 3, nor the other way round. */
  lemma {:induction false} OtherBlocksDoNotMatter(scan: seq<Block>)
    requires IsScan(scan)
    ensures IsScan(Luminance(scan)) && IsScan(Chrominance(scan))
    ensures ScanTokens(Luminance(scan), 0) == ScanTokens(scan, 0) && ScanTokens(Luminance(scan), 1) == []
    ensures ScanTokens(Luminance(scan), 2) == ScanTokens(scan, 2) && ScanTokens(Luminance(scan), 3) == []
    ensures ScanTokens(Chrominance(scan), 1) == ScanTokens(scan, 1) && ScanTokens(Chrominance(scan), 0) == []
    ensures ScanTokens(Chrominance(scan), 3) == ScanTokens(scan, 3) && ScanTokens(Chrominance(scan), 2) == []
  {
    hide ScanTokens, DcTokens, AcTokensOf;
    TokensOfTables(scan);
    FilteredAgain(scan);
    TokensOfTables(Luminance(scan));
    TokensOfTables(Chrominance(scan));
    NoTokensOfNothing();
  }

  lemma {:induction false} FilteredAgain(scan: seq<Block>)
    requires IsScan(scan)
    ensures IsScan(Luminance(scan)) && IsScan(Chrominance(scan))
    ensures Luminance(Luminance(scan)) == Luminance(scan) && Chrominance(Chrominance(scan)) == Chrominance(scan)
    ensures Luminance(Chrominance(scan)) == [] && Chrominance(Luminance(scan)) == []
  {
    hide IsBlock, Luminance, Chrominance;
    if scan == [] {
      NothingFiltered();
    } else {
      var n := |scan| - 1;
      var l, c, b := Luminance(scan[..n]), Chrominance(scan[..n]), scan[n];
      FilteredAgain(scan[..n]);
      FilteredNext(scan);
      FilteredNext(l + [b]);
      FilteredNext(c + [b]);
      assert (l + [b])[..|l|] == l && (c + [b])[..|c|] == c;
    }
  }
}
