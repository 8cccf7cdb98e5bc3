/** The DHT segments that the encoder writes and the decoder reads (T.81, section B.2.4.2). */
module HuffmanSegments {
  import opened MachineNumbers
  import opened CodeSizeLists
  import opened HuffmanCodeTable
  import opened VlcTable

  const MARKER := 0xFF
  const DHT := 0xC4

  /** Lists whose entries are bytes. */
  ghost predicate ByteLists(bits: seq<nat>, val: seq<nat>) {
    && |bits| == 1 + MAX_CODE_SIZE && (forall i :: 0 <= i <= MAX_CODE_SIZE ==> bits[i] < 256)
    && |Sizes(bits)| <= |val| && |Sizes(bits)| <= 256 && (forall p :: 0 <= p < |Sizes(bits)| ==> val[p] < 256)
  }

  /** The low byte of a number. */
  function LowByte(x: nat): Byte {
    x % 256
  }

  /** A number as two bytes. */
  function Word(x: nat): (w: seq<Byte>)
    ensures |w| == 2
  {
    [LowByte(x / 256), LowByte(x)]
  }

  function BytesOf(s: seq<nat>): (b: seq<Byte>)
    ensures |b| == |s| && forall i :: 0 <= i < |s| && s[i] < 256 ==> b[i] == s[i]
  {
    seq(|s|, i requires 0 <= i < |s| => LowByte(s[i]))
  }

  /** The bytes that describe a table: class and index, codes per size, symbols. */
  ghost function TableBytes(bits: seq<nat>, val: seq<nat>, index: nat, ac: bool): (seg: seq<Byte>)
    requires ByteLists(bits, val) && index < 2
    ensures |seg| == DHT_HEADER + |Sizes(bits)|
  {
    [LowByte(index + if ac then 16 else 0)] + BytesOf(bits[1..]) + BytesOf(val[..|Sizes(bits)|])
  }

  ghost function DhtSegment(bits: seq<nat>, val: seq<nat>, index: nat, ac: bool): seq<Byte>
    requires ByteLists(bits, val) && index < 2
  {
    [MARKER, DHT] + Word(2 + DHT_HEADER + |Sizes(bits)|) + TableBytes(bits, val, index, ac)
  }

  /** A segment, byte for byte. */
  lemma {:induction false} SegmentBytes(bits: seq<nat>, val: seq<nat>, index: nat, ac: bool)
    requires ByteLists(bits, val) && index < 2
    ensures var seg, n := DhtSegment(bits, val, index, ac), |Sizes(bits)|;
      && |seg| == 21 + n && seg[0] == 0xFF && seg[1] == 0xC4 && (seg[2] as int) * 256 + seg[3] == 19 + n
      && seg[4] == (if ac then 16 else 0) + index
      && (forall i :: 1 <= i <= 16 ==> seg[4 + i] == bits[i])
      && forall i :: 0 <= i < n ==> seg[21 + i] == val[i]
  {
    hide Sizes, BytesOf;
    assert Word(19 + |Sizes(bits)|) == [LowByte((19 + |Sizes(bits)|) / 256), LowByte(19 + |Sizes(bits)|)];
  }

  lemma {:induction false} SizeListLength(bits: seq<nat>, k: nat)
    requires k < |bits|
    ensures k > 0 ==> |SizeList(bits, k)| == |SizeList(bits, k - 1)| + bits[k]
    ensures |SizeList(bits, 0)| == 0
  {
  }

  /** The number of codes. */
  method CountCodes(bits: array<nat>) returns (length: nat)
    requires bits.Length == 1 + MAX_CODE_SIZE
    ensures length == |Sizes(bits[..])|
  {
    hide SizeList;
    ghost var b := bits[..];
    length := 0;
    SizeListLength(b, 0);
    for i := 1 to MAX_CODE_SIZE + 1
      invariant length == |SizeList(b, i - 1)|
    {
      SizeListLength(b, i);
      length := length + bits[i];
    }
  }

  lemma {:induction false} BytesOfMore(s: seq<nat>, a: nat, i: nat)
    requires a <= i < |s|
    ensures BytesOf(s[a..i + 1]) == BytesOf(s[a..i]) + [LowByte(s[i])]
  {
  }

  /** Writes the entries from..to of a list. */
  method EmitBytes(stream: seq<Byte>, list: array<nat>, from: nat, to: nat) returns (stream': seq<Byte>)
    requires from <= to <= list.Length
    ensures stream' == stream + BytesOf(list[from..to])
  {
    hide BytesOf;
    stream' := stream;
    NoBytes();
    for i := from to to
      invariant stream' == stream + BytesOf(list[..][from..i])
    {
      BytesOfMore(list[..], from, i);
      stream' := stream' + [LowByte(list[i])];
    }
    assert list[..][from..to] == list[from..to];
  }

  lemma {:induction false} NoBytes()
    ensures BytesOf([]) == []
  {
  }

  /** Writes a table to the stream. */
  method EmitDht(bits: array<nat>, val: array<nat>, index: nat, ac: bool) returns (stream: seq<Byte>)
    requires ByteLists(bits[..], val[..]) && index < 2
    ensures stream == DhtSegment(bits[..], val[..], index, ac)
  {
    hide Sizes, BytesOf;
    stream := [MARKER, DHT];
    var length := CountCodes(bits);
    stream := stream + Word(length + 2 + 1 + 16);
    stream := stream + [LowByte(index + if ac then 16 else 0)];
    stream := EmitBytes(stream, bits, 1, 1 + MAX_CODE_SIZE);
    stream := EmitBytes(stream, val, 0, length);
    assert bits[1..1 + MAX_CODE_SIZE] == bits[..][1..] && val[0..length] == val[..][..length];
  }

  /** Which lookup table a DHT header selects. */
  lemma {:induction false} HeaderSelects(index: nat, ac: bool)
    requires index < 2
    ensures var h := LowByte(index + if ac then 16 else 0);
      HeaderError(h) == OK && TableIndex(h) == index + if ac then 2 else 0
  {
    if ac {
      if index == 0 {
        var i := 16 as bv8;
        assert i & 0xEC == 0 && i & 0x02 == 0 && (i | (i >> 3)) & 3 == 2;
      } else {
        var i := 17 as bv8;
        assert i & 0xEC == 0 && i & 0x02 == 0 && (i | (i >> 3)) & 3 == 3;
      }
    } else if index == 0 {
      var i := 0 as bv8;
      assert i & 0xEC == 0 && i & 0x02 == 0 && (i | (i >> 3)) & 3 == 0;
    } else {
      var i := 1 as bv8;
      assert i & 0xEC == 0 && i & 0x02 == 0 && (i | (i >> 3)) & 3 == 1;
    }
  }

  /** The length field tells the decoder where the segment ends. */
  lemma {:induction false} LengthField(n: nat)
    requires n <= 256
    ensures var w := Word(2 + DHT_HEADER + n); (w[0] as int) * 256 + w[1] == 2 + DHT_HEADER + n
  {
  }

  /** The decoder accepts the table and takes from it the lists that the encoder put in. */
  lemma {:induction false} TableBytesReadBack(bits: seq<nat>, val: seq<nat>, index: nat, ac: bool)
    requires ByteLists(bits, val) && bits[0] == 0 && index < 2 && ValidTable(Sizes(bits), val, MAX_CODE_SIZE)
    ensures var seg, n := TableBytes(bits, val, index, ac), |Sizes(bits)|;
      && SegmentResult(seg) == OK
      && forall t ::
           SegmentTable(seg, t) == if t == index + (if ac then 2 else 0) then Lists(bits, val[..n]) else Absent
  {
    hide Sizes, ListsFit, SegmentResult, SegmentTable, HeaderError, TableIndex, ValidTable;
    var seg, n := TableBytes(bits, val, index, ac), |Sizes(bits)|;
    HeaderSelects(index, ac);
    assert FirstBits(seg) == bits;
    assert seg[DHT_HEADER..] == val[..n];
    ValidFits(bits, val, MAX_CODE_SIZE);
    assert seg[0..] == seg && seg[DHT_HEADER + n..] == [];
    SegmentEnd([]);
    SegmentStep(seg, 0, n);
  }

  lemma {:induction false} ValidFits(bits: seq<nat>, val: seq<nat>, m: nat)
    requires |bits| == 1 + MAX_CODE_SIZE && m == MAX_CODE_SIZE && ValidTable(Sizes(bits), val, m)
    ensures ListsFit(bits, |Sizes(bits)|)
  {
    SpreadStart(m);
  }
}
