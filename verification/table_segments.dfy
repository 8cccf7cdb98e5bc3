/** The DHT segments of a file, one after the other, as the decoder reads them. */
module TableSegments {
  import opened MachineNumbers
  import opened VlcTable

  const SEGMENT_PREFIX := 4
  const DHT_MARKER: seq<Byte> := [0xFF, 0xC4]

  /** The length field of a segment; it counts itself. */
  function LengthOf(s: seq<Byte>): (n: nat)
    requires |s| >= SEGMENT_PREFIX
  {
    (s[2] as int) * 256 + s[3]
  }

  /** The first segment is a DHT segment and all there. */
  predicate StartsWithTables(s: seq<Byte>) {
    |s| >= SEGMENT_PREFIX && s[..2] == DHT_MARKER && 2 <= LengthOf(s) <= |s| - 2
  }

  /** What DecodeDHT is given of the first segment: everything after the marker and the length. */
  function FirstBody(s: seq<Byte>): seq<Byte>
    requires StartsWithTables(s)
  {
    s[SEGMENT_PREFIX..2 + LengthOf(s)]
  }

  /** What the decoder reports for these segments. */
  ghost function TablesResult(s: seq<Byte>): DecodeResult
    decreases |s|
  {
    if s == [] then OK
    else if !StartsWithTables(s) then SyntaxError
    else if SegmentResult(FirstBody(s)) != OK then SegmentResult(FirstBody(s))
    else TablesResult(s[2 + LengthOf(s)..])
  }

  function Later(x: TableLists, y: TableLists): TableLists {
    if y.Lists? then y else x
  }

  /** The lists that the last table for index t has. */
  ghost function TablesGiven(s: seq<Byte>, t: nat): TableLists
    requires TablesResult(s) == OK
    decreases |s|
  {
    if s == [] then Absent
    else Later(SegmentTable(FirstBody(s), t), TablesGiven(s[2 + LengthOf(s)..], t))
  }

  /** Cuts out what the length field of a segment covers, without marker and length. */
  method DecodeLength(s: seq<Byte>) returns (error: DecodeResult, body: seq<Byte>)
    requires |s| >= 2 && s[..2] == DHT_MARKER
    ensures error == if StartsWithTables(s) then OK else SyntaxError
    ensures error == OK <==> |s| >= 4 && 2 <= (s[2] as int) * 256 + s[3] <= |s| - 2
    ensures error == OK ==> body == FirstBody(s) && |body| == (s[2] as int) * 256 + s[3] - 2 && body <= s[4..]
  {
    if |s| < SEGMENT_PREFIX {
      return SyntaxError, [];
    }
    var length := (s[2] as int) * 256 + s[3];
    if length > |s| - 2 || length < 2 {
      return SyntaxError, [];
    }
    return OK, s[SEGMENT_PREFIX..2 + length];
  }

  /**
   * Reads DHT segments until none are left or one of them is malformed. Each table given in them replaces the one of
   * its index, later ones those before.
   */
  method ReadTables(s: seq<Byte>, vlctab: seq<array<VlcCode>>) returns (error: DecodeResult)
    requires FourTables(vlctab)
    modifies vlctab
    ensures error == TablesResult(s)
    ensures error == OK ==>
      forall t :: 0 <= t < 4 ==> TableAsGiven(vlctab[t][..], old(vlctab[t][..]), TablesGiven(s, t))
  {
    hide SegmentResult, SegmentTable, VlcFor, FirstBody;
    var rest := s;
    ghost var given := [Absent, Absent, Absent, Absent];
    while rest != []
      invariant TablesResult(s) == TablesResult(rest) && |given| == 4
      invariant TablesResult(s) == OK ==> forall t :: 0 <= t < 4 ==>
        TablesGiven(s, t) == Later(given[t], TablesGiven(rest, t))
      invariant forall t :: 0 <= t < 4 ==> TableAsGiven(vlctab[t][..], old(vlctab[t][..]), given[t])
      decreases |rest|
    {
      if |rest| < 2 || rest[..2] != DHT_MARKER {
        return SyntaxError;
      }
      var body;
      error, body := DecodeLength(rest);
      if error != OK {
        return;
      }
      label before:
      error := DecodeDHT(body, vlctab);
      if error != OK {
        return;
      }
      ghost var was := given;
      given := seq(4, t requires 0 <= t < 4 => Later(was[t], SegmentTable(FirstBody(rest), t)));
      forall t | 0 <= t < 4
        ensures TableAsGiven(vlctab[t][..], old(vlctab[t][..]), given[t])
      {
        assert TableAsGiven(vlctab[t][..], old@before(vlctab[t][..]), SegmentTable(FirstBody(rest), t));
      }
      rest := rest[2 + LengthOf(rest)..];
    }
    error := OK;
  }

  /** A well-formed segment in front of others. */
  lemma {:induction false} FirstSegment(dht: seq<Byte>, rest: seq<Byte>)
    requires StartsWithTables(dht) && LengthOf(dht) == |dht| - 2 && SegmentResult(FirstBody(dht)) == OK
    ensures TablesResult(dht + rest) == TablesResult(rest)
    ensures TablesResult(rest) == OK ==>
      forall t :: TablesGiven(dht + rest, t) == Later(SegmentTable(FirstBody(dht), t), TablesGiven(rest, t))
  {
    hide SegmentResult, SegmentTable;
    var s := dht + rest;
    assert LengthOf(s) == LengthOf(dht) && s[..2] == dht[..2];
    assert FirstBody(s) == FirstBody(dht) && s[2 + LengthOf(s)..] == rest;
  }
}
