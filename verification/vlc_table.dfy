/** The decoder's flat lookup tables and the DHT segments they are built from. */
module VlcTable {
  import opened MachineNumbers
  import opened Powers
  import opened CodeLengths
  import opened CodeSizeLists
  import opened CanonicalCodes

  datatype DecodeResult = OK | Unsupported | SyntaxError

  /** What a 16-bit window stands for: the size of the code it begins with (0 if none) and its symbol. */
  datatype VlcCode = VlcCode(bits: nat, code: nat)

  const VLC_ENTRIES := 0x1_0000

  /** The table maps every window in a symbol's slice of the code space to that symbol. */
  ghost predicate MapsSlices(table: seq<VlcCode>, l: seq<nat>, val: seq<nat>, m: nat)
    requires AtMost(l, m)
  {
    && |table| == VLC_ENTRIES && |l| <= |val| && Start(l, |l|, m) <= VLC_ENTRIES
    && forall p :: 0 <= p < |l| ==> MapsSlice(table, l, val, m, p)
  }

  ghost predicate MapsSlice(table: seq<VlcCode>, l: seq<nat>, val: seq<nat>, m: nat, p: nat)
    requires AtMost(l, m) && p < |l| <= |val|
  {
    forall v :: Start(l, p, m) <= v < Start(l, p + 1, m) && v < |table| ==> table[v] == VlcCode(l[p], val[p])
  }

  /** Every window below the end of the used code space is in some slice. */
  lemma {:induction false} FindSlice(l: seq<nat>, n: nat, m: nat, v: nat) returns (p: nat)
    requires AtMost(l, m) && n <= |l| && v < Start(l, n, m)
    ensures p < n && Start(l, p, m) <= v < Start(l, p + 1, m)
  {
    if n == 0 {
      assert false;
    } else if Start(l, n - 1, m) <= v {
      p := n - 1;
    } else {
      p := FindSlice(l, n - 1, m, v);
    }
  }

  /** ... and every other window to no symbol. */
  ghost predicate VlcFor(table: seq<VlcCode>, l: seq<nat>, val: seq<nat>, m: nat) {
    && AtMost(l, m) && MapsSlices(table, l, val, m)
    && forall v :: Start(l, |l|, m) <= v < |table| ==> table[v].bits == 0
  }

  lemma {:induction false} StartPrefix(a: seq<nat>, b: seq<nat>, p: nat, m: nat)
    requires AtMost(a, m) && AtMost(b, m) && p <= |a|
    ensures AtMost(a + b, m) && Start(a + b, p, m) == Start(a, p, m)
  {
    assert (a + b)[..p] == a[..p];
  }

  /** Giving the next slice to one more symbol. */
  lemma {:induction false} OneMoreSlice(t: seq<VlcCode>, t': seq<VlcCode>, l: seq<nat>, val: seq<nat>, m: nat, x: nat)
    requires AtMost(l, m) && x <= m && |l| < |val| && MapsSlices(t, l, val, m) && |t'| == |t|
    requires Start(l, |l|, m) + Pow2(m - x) <= VLC_ENTRIES
    requires forall v :: 0 <= v < |t| ==>
               t'[v] == if Start(l, |l|, m) <= v < Start(l, |l|, m) + Pow2(m - x) then VlcCode(x, val[|l|]) else t[v]
    ensures AtMost(l + [x], m) && MapsSlices(t', l + [x], val, m)
    ensures Start(l + [x], |l| + 1, m) == Start(l, |l|, m) + Pow2(m - x)
  {
    var k := l + [x];
    StartPrefix(l, [x], |l|, m);
    StartNext(k, |l|, m);
    forall p | 0 <= p < |k|
      ensures MapsSlice(t', k, val, m, p)
    {
      StartPrefix(l, [x], p, m);
      if p < |l| {
        StartPrefix(l, [x], p + 1, m);
        StartMonotone(l, p + 1, |l|, m);
        assert MapsSlice(t, l, val, m, p);
      }
    }
  }

  /** Enters one code of size codelen into the next spread entries. */
  method FillCode(vlc: array<VlcCode>, at: nat, spread: nat, codelen: nat, code: nat)
    requires vlc.Length == VLC_ENTRIES && at + spread <= VLC_ENTRIES
    modifies vlc
    ensures forall v :: 0 <= v < VLC_ENTRIES ==>
              vlc[..][v] == if at <= v < at + spread then VlcCode(codelen, code) else old(vlc[..][v])
  {
    var v, j := at, spread;
    while j > 0
      invariant 0 <= j <= spread && v == at + spread - j
      invariant forall u :: 0 <= u < VLC_ENTRIES ==>
        vlc[u] == if at <= u < v then VlcCode(codelen, code) else old(vlc[u])
    {
      vlc[v] := VlcCode(codelen, code);
      v := v + 1;
      j := j - 1;
    }
  }

  /** Enters the codes of one size; they take the next currcnt slices. */
  method FillSize(vlc: array<VlcCode>, at: nat, spread: nat, codelen: nat, currcnt: nat, pos: seq<nat>,
          ghost l: seq<nat>, ghost val: seq<nat>, ghost m: nat)
    returns (at': nat)
    requires vlc.Length == VLC_ENTRIES && codelen <= m && spread == Pow2(m - codelen) && AtMost(l, m)
    requires MapsSlices(vlc[..], l, val, m) && at == Start(l, |l|, m)
    requires |l| + currcnt <= |val| && currcnt <= |pos| && val[|l|..|l| + currcnt] == pos[..currcnt]
    requires at + currcnt * spread <= VLC_ENTRIES
    modifies vlc
    ensures AtMost(l + Repeat(codelen, currcnt), m)
    ensures MapsSlices(vlc[..], l + Repeat(codelen, currcnt), val, m)
    ensures at' == at + currcnt * spread == Start(l + Repeat(codelen, currcnt), |l| + currcnt, m)
  {
    at' := at;
    ghost var k := l;
    assert l + Repeat(codelen, 0) == l;
    for i := 0 to currcnt
      invariant AtMost(k, m) && k == l + Repeat(codelen, i) && |k| == |l| + i
      invariant at' == at + i * spread == Start(k, |k|, m) && MapsSlices(vlc[..], k, val, m)
    {
      ghost var t := vlc[..];
      NextProduct(i, currcnt, spread);
      assert val[|l|..|l| + currcnt][i] == pos[..currcnt][i];
      FillCode(vlc, at', spread, codelen, pos[i]);
      OneMoreSlice(t, vlc[..], k, val, m, codelen);
      k := k + [codelen];
      assert k == l + Repeat(codelen, i + 1);
      at' := at' + spread;
    }
  }

  lemma {:induction false} NextProduct(i: nat, n: nat, s: nat)
    requires i < n
    ensures (i + 1) * s == i * s + s <= n * s
  {
  }

  /** The lists of a DHT table are usable: enough bytes for the symbols, and no overfull code space. */
  ghost predicate ListsFit(bits: seq<nat>, available: nat)
    requires |bits| == 1 + MAX_CODE_SIZE
  {
    |Sizes(bits)| <= available && Kraft(Sizes(bits), MAX_CODE_SIZE) <= VLC_ENTRIES
  }

  lemma {:induction false} KraftOfRepeat(l: seq<nat>, x: nat, n: nat, m: nat)
    requires AtMost(l, m) && x <= m
    ensures AtMost(l + Repeat(x, n), m)
    ensures Kraft(l + Repeat(x, n), m) == Kraft(l, m) + n * Pow2(m - x)
  {
    KraftRepeat(x, n, m);
    TimesIsProduct(Pow2(m - x), n);
    KraftConcat(l, Repeat(x, n), m);
  }

  lemma {:induction false} SizesGrow(bits: seq<nat>, k: nat, m: nat)
    requires k <= m < |bits|
    ensures SizeList(bits, k) <= SizeList(bits, m)
    ensures Kraft(SizeList(bits, k), m) <= Kraft(SizeList(bits, m), m)
  {
    SizesPrefix(bits, k, m);
    var a, c := SizeList(bits, k), SizeList(bits, m);
    assert c == a + c[|a|..];
    KraftConcat(a, c[|a|..], m);
  }

  lemma {:induction false} SizesPrefix(bits: seq<nat>, k: nat, m: nat)
    requires k <= m < |bits|
    ensures SizeList(bits, k) <= SizeList(bits, m)
  {
    if k < m {
      SizesPrefix(bits, k, m - 1);
    }
  }

  lemma {:induction false} StartIsKraft(l: seq<nat>, m: nat)
    requires AtMost(l, m)
    ensures Start(l, |l|, m) == Kraft(l, m)
  {
    assert l[..|l|] == l;
  }

  lemma {:induction false} NoLongerSizes(bits: seq<nat>, k: nat, m: nat)
    requires k <= m < |bits| && forall j :: k < j <= m ==> bits[j] == 0
    ensures SizeList(bits, m) == SizeList(bits, k)
  {
    if k < m {
      NoLongerSizes(bits, k, m - 1);
    }
  }

  /** Two codes of one bit are accepted, if there are two symbols for them; there is no room for a third code. */
  lemma {:induction false} FullTableFits(bits: seq<nat>, more: seq<nat>, m: nat)
    requires m == MAX_CODE_SIZE && |bits| == m + 1 && bits[1] == 2 && (forall j :: 1 < j <= m ==> bits[j] == 0)
    requires more == bits[m := 1]
    ensures ListsFit(bits, 2) && !ListsFit(bits, 1) && !ListsFit(more, 3)
  {
    hide Pow2;
    NoLongerSizes(bits, 1, m);
    NoLongerSizes(more, 1, m - 1);
    TwoOfOne(bits);
    TwoOfOne(more);
    SpreadStart(m);
    HalvesOfSpace(m);
    assert SizeList(more, m) == [1, 1] + Repeat(m, 1);
    assert Repeat(m, 1) == [m];
    assert Kraft([m], m) == Pow2(m - m) && [1, 1][1..] == [1] && [1][1..] == [];
    KraftConcat([1, 1], [m], m);
  }

  lemma {:induction false} TwoOfOne(bits: seq<nat>)
    requires |bits| > 1 && bits[1] == 2
    ensures SizeList(bits, 1) == [1, 1]
  {
    assert SizeList(bits, 0) == [];
    assert Repeat(1, 2) == Repeat(1, 1) + [1] && Repeat(1, 1) == Repeat(1, 0) + [1];
  }

  lemma {:induction false} HalvesOfSpace(m: nat)
    requires m > 0
    ensures Pow2(m - 1) + Pow2(m - 1) == Pow2(m) && Pow2(m - m) == 1
  {
  }

  /** The state of the filling loop when the sizes up to k are done. */
  ghost predicate Filling(t: seq<VlcCode>, bits: seq<nat>, k: nat, pos: seq<nat>, consumed: nat, at: nat, m: nat) {
    && k <= m < |bits| && consumed == |SizeList(bits, k)| <= |pos| && at == Kraft(SizeList(bits, k), m) <= VLC_ENTRIES
    && MapsSlices(t, SizeList(bits, k), pos, m)
  }

  lemma {:induction false} FillingStep(bits: seq<nat>, k: nat, consumed: nat, at: nat, available: nat, m: nat)
    requires k < m && |bits| == m + 1 && m == MAX_CODE_SIZE
    requires consumed == |SizeList(bits, k)| && at == Kraft(SizeList(bits, k), m)
    ensures SizeList(bits, k + 1) == SizeList(bits, k) + Repeat(k + 1, bits[k + 1])
    ensures |SizeList(bits, k + 1)| == consumed + bits[k + 1]
    ensures Kraft(SizeList(bits, k + 1), m) == at + bits[k + 1] * Pow2(m - (k + 1))
    ensures consumed + bits[k + 1] > available || at + bits[k + 1] * Pow2(m - (k + 1)) > VLC_ENTRIES ==>
      !ListsFit(bits, available)
  {
    hide Kraft, Pow2, Repeat;
    KraftOfRepeat(SizeList(bits, k), k + 1, bits[k + 1], m);
    SizesGrow(bits, k + 1, m);
  }

  lemma {:induction false} FillingStarts(t: seq<VlcCode>, bits: seq<nat>, pos: seq<nat>, m: nat)
    requires m < |bits| && |t| == VLC_ENTRIES
    ensures Filling(t, bits, 0, pos, 0, 0, m)
  {
  }

  lemma {:induction false} FillingContinues(t: seq<VlcCode>, t': seq<VlcCode>, bits: seq<nat>, k: nat, pos: seq<nat>,
          consumed: nat, at: nat, at': nat, m: nat)
    requires Filling(t, bits, k, pos, consumed, at, m) && k < m
    requires var l := SizeList(bits, k) + Repeat(k + 1, bits[k + 1]);
      && l == SizeList(bits, k + 1) && consumed + bits[k + 1] <= |pos| && AtMost(l, m) && MapsSlices(t', l, pos, m)
      && at' == Start(l, |l|, m) <= VLC_ENTRIES
    ensures Filling(t', bits, k + 1, pos, consumed + bits[k + 1], at', m)
  {
    StartIsKraft(SizeList(bits, k + 1), m);
  }

  lemma {:induction false} FillingEnds(t: seq<VlcCode>, bits: seq<nat>, pos: seq<nat>, consumed: nat, at: nat, m: nat)
    requires Filling(t, bits, m, pos, consumed, at, m) && |bits| == m + 1 && m == MAX_CODE_SIZE
    ensures ListsFit(bits, |pos|) && consumed == |Sizes(bits)| && at == Kraft(Sizes(bits), m)
    ensures AtMost(Sizes(bits), m) && MapsSlices(t, Sizes(bits), pos, m)
  {
  }

  /** Marks the windows from at on as standing for no symbol. */
  method ClearRest(vlc: array<VlcCode>, at: nat, ghost l: seq<nat>, ghost val: seq<nat>, ghost m: nat)
    requires vlc.Length == VLC_ENTRIES && AtMost(l, m) && MapsSlices(vlc[..], l, val, m)
      && at == Kraft(l, m) <= VLC_ENTRIES
    modifies vlc
    ensures VlcFor(vlc[..], l, val, m)
  {
    ghost var t := vlc[..];
    var v, remain := at, VLC_ENTRIES - at;
    while remain > 0
      invariant 0 <= remain && v == VLC_ENTRIES - remain && at <= v
      invariant forall u :: 0 <= u < at ==> vlc[u] == t[u]
      invariant forall u :: at <= u < v ==> vlc[u].bits == 0
    {
      vlc[v] := vlc[v].(bits := 0);
      v := v + 1;
      remain := remain - 1;
    }
    StartIsKraft(l, m);
    forall p | 0 <= p < |l|
      ensures MapsSlice(vlc[..], l, val, m, p)
    {
      assert MapsSlice(t, l, val, m, p);
      StartMonotone(l, p + 1, |l|, m);
    }
  }

  /** Builds one lookup table from the counts per size and the symbols that follow them in the segment. */
  method FillTable(vlc: array<VlcCode>, counts: seq<nat>, pos: seq<nat>) returns (error: DecodeResult, consumed: nat)
    requires vlc.Length == VLC_ENTRIES && |counts| == MAX_CODE_SIZE
    modifies vlc
    ensures error == if ListsFit([0] + counts, |pos|) then OK else SyntaxError
    ensures error == OK ==>
      consumed == |Sizes([0] + counts)| && VlcFor(vlc[..], Sizes([0] + counts), pos, MAX_CODE_SIZE)
  {
    hide Filling, ListsFit, Sizes, MapsSlices, Pow2, Kraft, AtMost, Ascending, Repeat, SizeList, Start, VlcFor;
    ghost var bits: seq<nat>, m: nat := [0] + counts, MAX_CODE_SIZE;
    consumed := 0;
    var spread: nat, at: nat := VLC_ENTRIES, 0;
    FillingStarts(vlc[..], bits, pos, m);
    SpreadStart(m);
    var codelen := 1;
    while codelen <= 16
      invariant 1 <= codelen <= 17 && spread == Pow2(m - (codelen - 1))
      invariant Filling(vlc[..], bits, codelen - 1, pos, consumed, at, m) && at <= VLC_ENTRIES && consumed <= |pos|
      decreases 17 - codelen
    {
      SpreadHalves(m - codelen);
      spread := spread / 2;
      var currcnt := counts[codelen - 1];
      assert bits[codelen] == currcnt;
      FillingFacts(vlc[..], bits, codelen - 1, pos, consumed, at, m);
      FillingStep(bits, codelen - 1, consumed, at, |pos|, m);
      if |pos| - consumed < currcnt {
        return SyntaxError, consumed;
      }
      if VLC_ENTRIES - at - currcnt * spread < 0 {
        return SyntaxError, consumed;
      }
      ghost var t, at0 := vlc[..], at;
      at := FillSize(vlc, at, spread, codelen, currcnt, pos[consumed..], SizeList(bits, codelen - 1), pos, m);
      FillingContinues(t, vlc[..], bits, codelen - 1, pos, consumed, at0, at, m);
      consumed := consumed + currcnt;
      codelen := codelen + 1;
    }
    FillingEnds(vlc[..], bits, pos, consumed, at, m);
    ClearRest(vlc, at, Sizes(bits), pos, m);
    error := OK;
  }

  lemma {:induction false} FillingFacts(t: seq<VlcCode>, bits: seq<nat>, k: nat, pos: seq<nat>, consumed: nat, at: nat,
          m: nat)
    requires Filling(t, bits, k, pos, consumed, at, m)
    ensures consumed == |SizeList(bits, k)| && AtMost(SizeList(bits, k), m)
    ensures at == Kraft(SizeList(bits, k), m) == Start(SizeList(bits, k), |SizeList(bits, k)|, m)
    ensures MapsSlices(t, SizeList(bits, k), pos, m)
  {
    StartIsKraft(SizeList(bits, k), m);
  }

  /** A window of m bits has an entry; m is a parameter so that the verifier does not unroll Pow2. */
  lemma {:induction false} SpreadStart(m: nat)
    requires m == 16
    ensures Pow2(m) == VLC_ENTRIES
  {
    assert Pow2(8) == 256;
    Pow2Add(8, 8);
  }

  lemma {:induction false} SpreadHalves(n: nat)
    ensures Pow2(n + 1) / 2 == Pow2(n)
  {
  }

  // The segment.

  /** Header bits that must be zero, or that baseline coding does not allow. */
  function HeaderError(header: Byte): DecodeResult {
    var i := header as bv8;
    if i & 0xEC != 0 then SyntaxError else if i & 0x02 != 0 then Unsupported else OK
  }

  /** Table 0 or 1 for DC, 2 or 3 for AC. */
  function TableIndex(header: Byte): (t: nat)
    ensures t < 4
  {
    var i := header as bv8;
    ((i | (i >> 3)) & 3) as nat
  }

  /** The headers of baseline coding, and which tables they announce. */
  lemma {:induction false} HeaderMeaning(header: Byte)
    ensures HeaderError(header) == OK <==> header in {0, 1, 16, 17}
    ensures HeaderError(header) == Unsupported <==> header in {2, 3, 18, 19}
    ensures TableIndex(0) == 0 && TableIndex(1) == 1 && TableIndex(16) == 2 && TableIndex(17) == 3
  {
  }

  const DHT_HEADER := 17

  /** The counts per size of the first table in a segment, with an entry for size zero. */
  function FirstBits(seg: seq<Byte>): (bits: seq<nat>)
    requires |seg| >= DHT_HEADER
    ensures |bits| == 1 + MAX_CODE_SIZE
  {
    [0] + seg[1..DHT_HEADER]
  }

  /** What the decoder reports for a segment. */
  ghost function SegmentResult(seg: seq<Byte>): DecodeResult {
    if seg == [] then OK
    else if |seg| < DHT_HEADER then SyntaxError
    else if HeaderError(seg[0]) != OK then HeaderError(seg[0])
    else if !ListsFit(FirstBits(seg), |seg| - DHT_HEADER) then SyntaxError
    else SegmentResult(seg[DHT_HEADER + |Sizes(FirstBits(seg))|..])
  }

  lemma {:induction false} SegmentStep(seg: seq<Byte>, pos: nat, consumed: nat)
    requires pos + DHT_HEADER <= |seg| && consumed == |Sizes(FirstBits(seg[pos..]))|
    requires HeaderError(seg[pos]) == OK && ListsFit(FirstBits(seg[pos..]), |seg| - pos - DHT_HEADER)
    ensures pos + DHT_HEADER + consumed <= |seg|
    ensures SegmentResult(seg[pos..]) == SegmentResult(seg[pos + DHT_HEADER + consumed..])
    ensures SegmentResult(seg[pos..]) == OK ==> forall t ::
      SegmentTable(seg[pos..], t) ==
        (var later := SegmentTable(seg[pos + DHT_HEADER + consumed..], t);
         if later.Lists? || TableIndex(seg[pos]) != t then later
         else Lists(FirstBits(seg[pos..]), seg[pos + DHT_HEADER..]))
  {
    var rest := seg[pos..];
    assert rest[0] == seg[pos];
    assert rest[DHT_HEADER + consumed..] == seg[pos + DHT_HEADER + consumed..];
    assert rest[DHT_HEADER..] == seg[pos + DHT_HEADER..];
  }

  datatype TableLists = Absent | Lists(bits: seq<nat>, val: seq<nat>)

  /** The lists of the last table for index t in a well-formed segment. */
  ghost function SegmentTable(seg: seq<Byte>, t: nat): (r: TableLists)
    requires SegmentResult(seg) == OK
    ensures r.Lists? ==> |r.bits| == 1 + MAX_CODE_SIZE
  {
    if seg == [] then Absent
    else
      var bits := FirstBits(seg);
      var rest := seg[DHT_HEADER + |Sizes(bits)|..];
      var later := SegmentTable(rest, t);
      if later.Lists? || TableIndex(seg[0]) != t then later else Lists(bits, seg[DHT_HEADER..])
  }

  ghost predicate TableAsGiven(vlc: seq<VlcCode>, before: seq<VlcCode>, given: TableLists) {
    match given
    case Absent => vlc == before
    case Lists(bits, val) => |bits| == 1 + MAX_CODE_SIZE && VlcFor(vlc, Sizes(bits), val, MAX_CODE_SIZE)
  }

  ghost predicate FourTables(vlctab: seq<array<VlcCode>>)
    reads vlctab
  {
    && |vlctab| == 4 && (forall t :: 0 <= t < 4 ==> vlctab[t].Length == VLC_ENTRIES)
    && forall t, u :: 0 <= t < u < 4 ==> vlctab[t] != vlctab[u]
  }

  /**
   * Reads the tables of one DHT segment (without its length field) into the lookup tables. Returns
   * whether the segment is well-formed; if so, each table given in it replaces the one of its index.
   */
  method DecodeDHT(seg: seq<Byte>, vlctab: seq<array<VlcCode>>) returns (error: DecodeResult)
    requires FourTables(vlctab)
    modifies vlctab
    ensures error == SegmentResult(seg)
    ensures error == OK ==> forall t :: 0 <= t < 4 ==>
              TableAsGiven(vlctab[t][..], old(vlctab[t][..]), SegmentTable(seg, t))
  {
    var pos := 0;
    hide Sizes, ListsFit, VlcFor, SegmentResult, SegmentTable, HeaderError, TableIndex;
    assert seg[0..] == seg;
    while |seg| - pos >= DHT_HEADER
      invariant 0 <= pos <= |seg|
      invariant SegmentResult(seg) == SegmentResult(seg[pos..])
      invariant SegmentResult(seg) == OK ==> forall t :: 0 <= t < 4 ==>
                  Pending(seg, pos, t, vlctab[t][..], old(vlctab[t][..]))
      decreases |seg| - pos
    {
      var header := seg[pos];
      ghost var bits := FirstBits(seg[pos..]);
      assert bits == [0] + seg[pos + 1..pos + DHT_HEADER];
      HeaderDecides(seg[pos..]);
      if HeaderError(header) != OK {
        return HeaderError(header);
      }
      var consumed;
      error, consumed := FillTable(vlctab[TableIndex(header)], seg[pos + 1..pos + DHT_HEADER], seg[pos + DHT_HEADER..]);
      if error != OK {
        return;
      }
      SegmentStep(seg, pos, consumed);
      pos := pos + DHT_HEADER + consumed;
    }
    SegmentEnd(seg[pos..]);
    error := if pos < |seg| then SyntaxError else OK;
  }

  /** While the segment is read: index t is either given again later or already as it should be. */
  ghost predicate Pending(seg: seq<Byte>, pos: nat, t: nat, vlc: seq<VlcCode>, before: seq<VlcCode>)
    requires pos <= |seg| && SegmentResult(seg) == OK == SegmentResult(seg[pos..])
  {
    if SegmentTable(seg[pos..], t).Lists? then SegmentTable(seg, t) == SegmentTable(seg[pos..], t)
    else TableAsGiven(vlc, before, SegmentTable(seg, t))
  }

  lemma {:induction false} HeaderDecides(rest: seq<Byte>)
    requires |rest| >= DHT_HEADER
    ensures HeaderError(rest[0]) != OK ==> SegmentResult(rest) == HeaderError(rest[0])
    ensures HeaderError(rest[0]) == OK && !ListsFit(FirstBits(rest), |rest| - DHT_HEADER) ==>
      SegmentResult(rest) == SyntaxError
  {
  }

  lemma {:induction false} SegmentEnd(rest: seq<Byte>)
    requires |rest| < DHT_HEADER
    ensures SegmentResult(rest) == if rest == [] then OK else SyntaxError
    ensures rest == [] ==> forall t :: SegmentTable(rest, t) == Absent
  {
  }
}
