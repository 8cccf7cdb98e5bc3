/** Event routes: how they are ordered, written and read. */
module Routes {
  import opened MachineNumbers
  import opened PackedNumbers
  import opened ValueCodec
  import opened IoBuffer
  import opened ByteStrings

  datatype Route =
    | LocalService(id: seq<Byte>)
    | RemoteAddr(addr: int)
    | ObjectHandlerPolled(handler: seq<Byte>)
    | Socket(socket: int)
    | ObjectHandlerThreaded(handler: seq<Byte>)
    | Thread(thread: int)
    | Listener(listener: nat)

  const LISTENER := 7

  function Tag(r: Route): (t: nat)
    ensures 1 <= t <= 7
  {
    match r
    case LocalService(_) => 1
    case RemoteAddr(_) => 2
    case ObjectHandlerPolled(_) => 3
    case Socket(_) => 4
    case ObjectHandlerThreaded(_) => 5
    case Thread(_) => 6
    case Listener(_) => LISTENER
  }

  /** What an entry says besides its type: a string or a number. */
  datatype Payload = Text(s: seq<Byte>) | Number(n: int)

  function PayloadOf(r: Route): Payload {
    match r
    case LocalService(id) => Text(id)
    case RemoteAddr(addr) => Number(addr)
    case ObjectHandlerPolled(h) => Text(h)
    case Socket(id) => Number(id)
    case ObjectHandlerThreaded(h) => Text(h)
    case Thread(id) => Number(id)
    case Listener(id) => Number(id)
  }

  // The order.

  predicate PayloadLess(a: Payload, b: Payload) {
    match (a, b)
    case (Text(s), Text(t)) => TextLess(s, t)
    case (Number(m), Number(n)) => m < n
    case _ => false
  }

  /** Entries compare by type first. */
  predicate EntryLess(a: Route, b: Route) {
    Tag(a) < Tag(b) || (Tag(a) == Tag(b) && PayloadLess(PayloadOf(a), PayloadOf(b)))
  }

  lemma {:induction false} SameEntry(a: Route, b: Route)
    ensures Tag(a) == Tag(b) && PayloadOf(a) == PayloadOf(b) <==> a == b
    ensures Tag(a) == Tag(b) ==> (PayloadOf(a).Text? <==> PayloadOf(b).Text?)
  {
  }

  lemma {:induction false} EntryTrichotomy(a: Route, b: Route)
    ensures (EntryLess(a, b) || EntryLess(b, a) || a == b) && !(EntryLess(a, b) && EntryLess(b, a))
      && !(a == b && EntryLess(a, b))
  {
    SameEntry(a, b);
    if PayloadOf(a).Text? && PayloadOf(b).Text? {
      TextTrichotomy(PayloadOf(a).s, PayloadOf(b).s);
    }
  }

  lemma {:induction false} EntryTransitive(a: Route, b: Route, c: Route)
    requires EntryLess(a, b) && EntryLess(b, c)
    ensures EntryLess(a, c)
  {
    if PayloadOf(a).Text? && PayloadOf(b).Text? && PayloadOf(c).Text? && TextLess(PayloadOf(a).s, PayloadOf(b).s)
       && TextLess(PayloadOf(b).s, PayloadOf(c).s) {
      TextTransitive(PayloadOf(a).s, PayloadOf(b).s, PayloadOf(c).s);
    }
  }

  /** Lists of the same length compare by the first entry that differs. */
  predicate EntriesLess(a: seq<Route>, b: seq<Route>)
    requires |a| == |b|
  {
    a != [] && (EntryLess(a[0], b[0]) || (a[0] == b[0] && EntriesLess(a[1..], b[1..])))
  }

  lemma {:induction false} EntriesTrichotomy(a: seq<Route>, b: seq<Route>)
    requires |a| == |b|
    ensures (EntriesLess(a, b) || EntriesLess(b, a) || a == b) && !(EntriesLess(a, b) && EntriesLess(b, a))
    ensures !(a == b && EntriesLess(a, b))
  {
    if a != [] {
      EntryTrichotomy(a[0], b[0]);
      EntriesTrichotomy(a[1..], b[1..]);
      assert a == [a[0]] + a[1..] && b == [b[0]] + b[1..];
    }
  }

  lemma {:induction false} EntriesTransitive(a: seq<Route>, b: seq<Route>, c: seq<Route>)
    requires |a| == |b| == |c| && EntriesLess(a, b) && EntriesLess(b, c)
    ensures EntriesLess(a, c)
  {
    if EntryLess(a[0], b[0]) && EntryLess(b[0], c[0]) {
      EntryTransitive(a[0], b[0], c[0]);
    } else if a[0] == b[0] && b[0] == c[0] {
      EntriesTransitive(a[1..], b[1..], c[1..]);
    }
  }

  /** Longer routes come first; among routes of one length, the greater does: what operator< computes. */
  predicate RouteLess(a: seq<Route>, b: seq<Route>) {
    |b| < |a| || (|a| == |b| && EntriesLess(b, a))
  }

  /** A strict total order: of two routes exactly one comes first, unless they are equal. */
  lemma {:induction false} RouteTrichotomy(a: seq<Route>, b: seq<Route>)
    ensures (RouteLess(a, b) || RouteLess(b, a) || a == b) && !(RouteLess(a, b) && RouteLess(b, a)) && !RouteLess(a, a)
    ensures !RouteLess(a, b) && !RouteLess(b, a) <==> a == b
  {
    if |a| == |b| {
      EntriesTrichotomy(a, b);
    }
    EntriesTrichotomy(a, a);
  }

  lemma {:induction false} RouteTransitive(a: seq<Route>, b: seq<Route>, c: seq<Route>)
    requires RouteLess(a, b) && RouteLess(b, c)
    ensures RouteLess(a, c)
  {
    if |a| == |b| == |c| {
      EntriesTransitive(c, b, a);
    }
  }

  /** Up to entry i the routes agree; there a's is of a later type, or of the same and greater. */
  ghost predicate GreaterAt(a: seq<Route>, b: seq<Route>, i: int) {
    && 0 <= i < |a| == |b| && a[..i] == b[..i]
    && match (a[i], b[i])
       case (LocalService(x), LocalService(y)) => TextLess(y, x)
       case (RemoteAddr(x), RemoteAddr(y)) => y < x
       case (ObjectHandlerPolled(x), ObjectHandlerPolled(y)) => TextLess(y, x)
       case (Socket(x), Socket(y)) => y < x
       case (ObjectHandlerThreaded(x), ObjectHandlerThreaded(y)) => TextLess(y, x)
       case (Thread(x), Thread(y)) => y < x
       case (Listener(x), Listener(y)) => y < x
       case (x, y) => Later(x, y)
  }

  /** The order of the types. */
  ghost predicate Later(x: Route, y: Route) {
    match y
    case LocalService(_) => !x.LocalService?
    case RemoteAddr(_) => !x.LocalService? && !x.RemoteAddr?
    case ObjectHandlerPolled(_) => x.Socket? || x.ObjectHandlerThreaded? || x.Thread? || x.Listener?
    case Socket(_) => x.ObjectHandlerThreaded? || x.Thread? || x.Listener?
    case ObjectHandlerThreaded(_) => x.Thread? || x.Listener?
    case Thread(_) => x.Listener?
    case Listener(_) => false
  }

  /** A longer route comes before a shorter one; of two of one length, the one that is greater where they differ. */
  lemma {:induction false} RouteLessWhere(a: seq<Route>, b: seq<Route>)
    ensures RouteLess(a, b) <==> |a| > |b| || exists i :: GreaterAt(a, b, i)
  {
    hide EntryLess, GreaterAt;
    if |a| == |b| {
      if EntriesLess(b, a) {
        var i := FirstGreater(a, b);
        assert GreaterAt(a, b, i);
      }
      forall i | GreaterAt(a, b, i)
        ensures EntriesLess(b, a)
      {
        PlaceOfGreater(a, b, i);
        GreaterDecides(a, b, i);
      }
    } else if exists i :: GreaterAt(a, b, i) {
      NoPlaceToDiffer(a, b);
    }
  }

  lemma {:induction false} NoPlaceToDiffer(a: seq<Route>, b: seq<Route>)
    requires exists i :: GreaterAt(a, b, i)
    ensures |a| == |b|
  {
  }

  lemma {:induction false} EntryLessIs(a: seq<Route>, b: seq<Route>, i: nat)
    requires i < |a| == |b| && a[..i] == b[..i]
    ensures EntryLess(b[i], a[i]) <==> GreaterAt(a, b, i)
  {
    hide TextLess;
  }

  lemma {:induction false} PlaceOfGreater(a: seq<Route>, b: seq<Route>, i: int)
    requires GreaterAt(a, b, i)
    ensures 0 <= i < |a| == |b| && a[..i] == b[..i] && EntryLess(b[i], a[i])
  {
    EntryLessIs(a, b, i);
    hide EntryLess;
  }

  lemma {:induction false} FirstGreater(a: seq<Route>, b: seq<Route>) returns (i: nat)
    requires |a| == |b| && EntriesLess(b, a)
    ensures GreaterAt(a, b, i)
  {
    hide EntryLess, GreaterAt;
    i := FirstPlace(a, b);
    EntryLessIs(a, b, i);
  }

  lemma {:induction false} FirstPlace(a: seq<Route>, b: seq<Route>) returns (i: nat)
    requires |a| == |b| && EntriesLess(b, a)
    ensures i < |a| && a[..i] == b[..i] && EntryLess(b[i], a[i])
  {
    hide EntryLess;
    if EntryLess(b[0], a[0]) {
      i := 0;
    } else {
      var j := FirstPlace(a[1..], b[1..]);
      i := j + 1;
      assert a[..i] == [a[0]] + a[1..][..j] && b[..i] == [b[0]] + b[1..][..j];
    }
  }

  lemma {:induction false} GreaterDecides(a: seq<Route>, b: seq<Route>, i: nat)
    requires i < |a| == |b| && a[..i] == b[..i] && EntryLess(b[i], a[i])
    ensures EntriesLess(b, a)
  {
    hide EntryLess;
    if i > 0 {
      assert a[0] == a[..i][0] == b[..i][0] == b[0];
      assert a[1..][..i - 1] == a[..i][1..] == b[..i][1..] == b[1..][..i - 1];
      GreaterDecides(a[1..], b[1..], i - 1);
    }
  }

  // Writing and reading.

  predicate NoListener(rs: seq<Route>) {
    forall i :: 0 <= i < |rs| ==> !rs[i].Listener?
  }

  /** The type of the payload of an entry with this tag. */
  function PayloadType(tag: int): Type {
    if tag == 1 || tag == 3 || tag == 5 then String
    else if tag == 6 then SInt(32)
    else SInt(64)
  }

  function PayloadValue(r: Route): Value {
    match PayloadOf(r)
    case Text(s) => Bytes(s)
    case Number(n) => Num(n)
  }

  /** The payload is one that can be written. */
  ghost predicate Writable(r: Route) {
    GoodType(PayloadType(Tag(r))) && HasType(PayloadValue(r), PayloadType(Tag(r)))
  }

  ghost predicate AllWritable(rs: seq<Route>) {
    forall i :: 0 <= i < |rs| ==> Writable(rs[i])
  }

  /** No string is too long for the writer. */
  ghost predicate ShortText(r: Route)
    requires Writable(r)
  {
    StringsShort(PayloadValue(r), PayloadType(Tag(r)))
  }

  ghost predicate AllShort(rs: seq<Route>)
    requires AllWritable(rs)
  {
    forall i :: 0 <= i < |rs| ==> ShortText(rs[i])
  }

  /** An entry is its tag, as a 32-bit number, and its payload. */
  ghost function EncodeRoute(r: Route): seq<Byte>
    requires Writable(r)
  {
    Encode(Num(Tag(r)), SInt(32)) + Encode(PayloadValue(r), PayloadType(Tag(r)))
  }

  ghost function EncodeEntries(rs: seq<Route>): seq<Byte>
    requires AllWritable(rs)
  {
    if rs == [] then [] else EncodeEntries(rs[..|rs| - 1]) + EncodeRoute(rs[|rs| - 1])
  }

  ghost function EncodeRoutes(rs: seq<Route>): seq<Byte>
    requires AllWritable(rs) && |rs| < UINT64_RANGE
  {
    Encode(Num(|rs|), UInt(64)) + EncodeEntries(rs)
  }

  datatype Unpacked = Failed | Unpacked(routes: seq<Route>, rest: seq<Byte>)

  /** The entry that a tag and a payload make. */
  function MakeRoute(tag: int, v: Value): Route
    requires 1 <= tag <= 6 && (if PayloadType(tag).String? then v.Bytes? else v.Num?)
  {
    if tag == 1 then LocalService(v.s)
    else if tag == 2 then RemoteAddr(v.n)
    else if tag == 3 then ObjectHandlerPolled(v.s)
    else if tag == 4 then Socket(v.n)
    else if tag == 5 then ObjectHandlerThreaded(v.s)
    else Thread(v.n)
  }

  /** Reads n entries; a listener is an error, and an unknown tag is passed over. */
  function UnpackEntries(n: nat, s: seq<Byte>, acc: seq<Route>): Unpacked
    decreases n
  {
    if n == 0 then Unpacked(acc, s)
    else
      match Decode(SInt(32), s)
      case Short => Failed
      case Parsed(t, r) =>
        if t.n == LISTENER then Failed
        else if !(1 <= t.n <= 6) then UnpackEntries(n - 1, r, acc)
        else
          match Decode(PayloadType(t.n), r)
          case Short => Failed
          case Parsed(v, r') => UnpackEntries(n - 1, r', acc + [MakeRoute(t.n, v)])
  }

  /** Reads a route behind the entries that are already there. */
  function UnpackRoute(s: seq<Byte>, before: seq<Route>): Unpacked {
    match Decode(UInt(64), s)
    case Short => Failed
    case Parsed(n, r) => UnpackEntries(n.n, r, before)
  }

  lemma {:induction false} EncodeEntriesConcat(a: seq<Route>, b: seq<Route>)
    requires AllWritable(a) && AllWritable(b)
    ensures AllWritable(a + b) && EncodeEntries(a + b) == EncodeEntries(a) + EncodeEntries(b)
  {
    hide Writable, EncodeRoute;
    if b == [] {
      assert a + b == a;
    } else {
      assert (a + b)[..|a + b| - 1] == a + b[..|b| - 1];
      EncodeEntriesConcat(a, b[..|b| - 1]);
    }
  }

  /** The first entry is read, the rest remain. */
  lemma {:induction false} EntryReadsBack(r: Route, n: nat, more: seq<Byte>, acc: seq<Route>)
    requires Writable(r) && !r.Listener? && n > 0
    ensures UnpackEntries(n, EncodeRoute(r) + more, acc) == UnpackEntries(n - 1, more, acc + [r])
  {
    hide Encode, Decode, HasType;
    TagReadsBack(r);
    var t, p := Encode(Num(Tag(r)), SInt(32)), Encode(PayloadValue(r), PayloadType(Tag(r)));
    assert EncodeRoute(r) + more == t + (p + more);
    ValueRoundTrip(Num(Tag(r)), SInt(32), p + more);
    ValueRoundTrip(PayloadValue(r), PayloadType(Tag(r)), more);
  }

  lemma {:induction false} TagReadsBack(r: Route)
    requires Writable(r)
    ensures GoodType(SInt(32)) && HasType(Num(Tag(r)), SInt(32)) && SizesFit(Num(Tag(r)), SInt(32))
    ensures SizesFit(PayloadValue(r), PayloadType(Tag(r))) && StringsShort(Num(Tag(r)), SInt(32))
  {
  }

  lemma {:induction false} EntriesReadBack(rs: seq<Route>, rest: seq<Byte>, acc: seq<Route>)
    requires AllWritable(rs) && NoListener(rs)
    ensures UnpackEntries(|rs|, EncodeEntries(rs) + rest, acc) == Unpacked(acc + rs, rest)
  {
    hide UnpackEntries, EncodeEntries, EncodeRoute, Writable;
    NoEntries(rest, acc);
    if rs == [] {
      assert [] + rest == rest && acc + [] == acc;
    } else {
      var r, t := rs[0], rs[1..];
      assert rs == [r] + t;
      assert Writable(rs[0]);
      EncodeEntriesConcat([r], t);
      OneEntry(r);
      assert EncodeEntries(rs) + rest == EncodeRoute(r) + (EncodeEntries(t) + rest);
      EntryReadsBack(r, |rs|, EncodeEntries(t) + rest, acc);
      EntriesReadBack(t, rest, acc + [r]);
      assert acc + [r] + t == acc + rs;
    }
  }

  lemma {:induction false} NoEntries(s: seq<Byte>, acc: seq<Route>)
    ensures UnpackEntries(0, s, acc) == Unpacked(acc, s) && EncodeEntries([]) == []
  {
  }

  lemma {:induction false} OneEntry(r: Route)
    requires Writable(r)
    ensures EncodeEntries([r]) == EncodeRoute(r)
  {
    hide Writable, EncodeRoute;
    assert [r][..0] == [];
  }

  /**
   * A route without listeners is read back, whatever follows it, behind what the receiving route already holds:
   * it comes back as it was exactly if that route is empty.
   */
  lemma {:induction false} RouteRoundTrip(rs: seq<Route>, rest: seq<Byte>, before: seq<Route>)
    requires AllWritable(rs) && NoListener(rs) && |rs| < UINT64_RANGE
    ensures UnpackRoute(EncodeRoutes(rs) + rest, before) == Unpacked(before + rs, rest)
    ensures UnpackRoute(EncodeRoutes(rs) + rest, before) == Unpacked(rs, rest) <==> before == []
  {
    hide Encode, Decode, EncodeEntries, UnpackEntries, Writable;
    var n := Encode(Num(|rs|), UInt(64));
    assert EncodeRoutes(rs) + rest == n + (EncodeEntries(rs) + rest);
    SizeReadsBack(|rs|);
    ValueRoundTrip(Num(|rs|), UInt(64), EncodeEntries(rs) + rest);
    EntriesReadBack(rs, rest, before);
    if before == [] {
      assert before + rs == rs;
    }
  }

  lemma {:induction false} SizeReadsBack(n: UInt64)
    ensures GoodType(UInt(64)) && HasType(Num(n), UInt(64)) && SizesFit(Num(n), UInt(64))
      && StringsShort(Num(n), UInt(64))
  {
  }

  lemma {:induction false} EntriesMore(rs: seq<Route>, i: nat)
    requires AllWritable(rs) && i < |rs|
    ensures AllWritable(rs[..i]) && AllWritable(rs[..i + 1]) && Writable(rs[i])
    ensures EncodeEntries(rs[..i + 1]) == EncodeEntries(rs[..i]) + EncodeRoute(rs[i])
  {
    hide Writable, EncodeRoute;
    assert rs[..i + 1][..i] == rs[..i];
  }

  /** An entry in bytes: the number of its type, then its string or number. */
  lemma {:induction false} EntryBytes(r: Route)
    requires Writable(r)
    ensures match r
      case LocalService(id) => EncodeRoute(r) == [1] + PackedNumber(|id|) + id
      case RemoteAddr(n) => EncodeRoute(r) == [2] + PackedNumber(n % 0x1_0000_0000_0000_0000)
      case ObjectHandlerPolled(h) => EncodeRoute(r) == [3] + PackedNumber(|h|) + h
      case Socket(n) => EncodeRoute(r) == [4] + PackedNumber(n % 0x1_0000_0000_0000_0000)
      case ObjectHandlerThreaded(h) => EncodeRoute(r) == [5] + PackedNumber(|h|) + h
      case Thread(n) =>
        EncodeRoute(r) == [6] + PackedNumber(n % 0x1_0000_0000_0000_0000) && -0x8000_0000 <= n < 0x8000_0000
      case Listener(_) => true
  {
    TagByte(Tag(r));
    hide PackedNumber;
    assert EncodeRoute(r) == [Tag(r)] + Encode(PayloadValue(r), PayloadType(Tag(r)));
  }

  lemma {:induction false} TagByte(tag: nat)
    requires 1 <= tag <= 7
    ensures HasType(Num(tag), SInt(32)) && Encode(Num(tag), SInt(32)) == [tag]
  {
    assert tag % UINT64_RANGE == tag && tag / 128 == 0;
  }

  /** A type of 7 is an error; any other that is not one of the six is passed over, its payload taken for an entry. */
  lemma {:induction false} TagRead(tag: nat, n: nat, more: seq<Byte>, acc: seq<Route>)
    requires tag < 0x8000_0000 && n > 0
    ensures tag == 7 ==> UnpackEntries(n, PackedNumber(tag) + more, acc) == Failed
    ensures tag == 0 || tag > 7 ==>
      UnpackEntries(n, PackedNumber(tag) + more, acc) == UnpackEntries(n - 1, more, acc)
  {
    hide PackedNumber, ParseNumber;
    assert HasType(Num(tag), SInt(32)) && Encode(Num(tag), SInt(32)) == PackedNumber(tag);
    ValueRoundTrip(Num(tag), SInt(32), more);
    hide Decode;
  }

  /** What two lists have in common at the front decides nothing. */
  lemma {:induction false} SameFront(a: seq<Route>, b: seq<Route>, i: nat)
    requires |a| == |b| && i <= |a| && a[..i] == b[..i]
    ensures EntriesLess(a, b) == EntriesLess(a[i..], b[i..])
  {
    hide EntryLess;
    if i > 0 {
      assert a[0] == a[..i][0] == b[..i][0] == b[0];
      EntryTrichotomy(a[0], b[0]);
      assert a[1..][..i - 1] == a[..i][1..] == b[..i][1..] == b[1..][..i - 1];
      SameFront(a[1..], b[1..], i - 1);
      assert a[1..][i - 1..] == a[i..] && b[1..][i - 1..] == b[i..];
    } else {
      assert a[0..] == a && b[0..] == b;
    }
  }

  /** Two routes of one length are the same up to a place where both hold a listener. */
  ghost predicate ListenersMeet(a: seq<Route>, b: seq<Route>) {
    |a| == |b| && exists i :: 0 <= i < |a| && a[..i] == b[..i] && a[i].Listener? && b[i].Listener?
  }

  /** The entries behind a common front without listeners: if they differ, they decide. */
  lemma {:induction false} FirstDifference(a: seq<Route>, b: seq<Route>, i: nat)
    requires |a| == |b| && i < |a| && a[..i] == b[..i] && NoListener(a[..i])
    ensures a[i].Listener? && b[i].Listener? ==> ListenersMeet(a, b)
    ensures a[i] != b[i] ==> EntriesLess(b, a) == EntryLess(b[i], a[i])
    ensures a[i] != b[i] && !(a[i].Listener? && b[i].Listener?) ==> !ListenersMeet(a, b)
  {
    hide EntryLess;
    SameFront(b, a, i);
    EntryTrichotomy(b[i], a[i]);
    forall j | i < j < |a| && a[..j] == b[..j]
      ensures a[i] == b[i]
    {
      assert a[i] == a[..j][i];
    }
  }

  lemma {:induction false} TagsDecide(a: Route, b: Route)
    requires Tag(a) != Tag(b)
    ensures a != b && EntryLess(a, b) == (Tag(a) < Tag(b))
  {
  }

  lemma {:induction false} PayloadsDecide(a: Route, b: Route)
    requires Tag(a) == Tag(b) && PayloadOf(a) != PayloadOf(b)
    ensures a != b && EntryLess(a, b) == PayloadLess(PayloadOf(a), PayloadOf(b))
  {
  }

  class RouteT {
    var container: seq<Route>

    constructor ()
      ensures container == []
    {
      container := [];
    }

    method PushFront(r: Route)
      modifies this
      ensures container == [r] + old(container)
    {
      container := [r] + container;
    }

    /** Takes the first entry out; from an empty route there is none to take. */
    method PopFront() returns (ok: bool, r: Route)
      modifies this
      ensures ok == (old(container) != [])
      ensures if ok then old(container) == [r] + container else container == old(container)
    {
      if |container| == 0 {
        return false, Listener(0);
      }
      r := container[0];
      container := container[1..];
      ok := true;
    }

    /** Writes the route; on a listener it stops. */
    method Pack(o: OutBuffer) returns (ok: bool)
      requires o.Valid() && AllWritable(container) && AllShort(container) && |container| < UINT64_RANGE
      modifies o, o.buffer
      ensures o.Valid() && ok == NoListener(container)
      ensures ok ==> o.Contents() == old(o.Contents()) + EncodeRoutes(container)
    {
      hide Writable, EncodeRoute, Encode, HasType, OutBuffer.Valid, StringsShort, ShortText;
      SizeReadsBack(|container|);
      o.Put(Num(|container|), UInt(64));
      ghost var start := o.Contents();
      assert container[..0] == [] && start + [] == start;
      for i := 0 to |container|
        invariant o.Valid() && (o.buffer == old(o.buffer) || fresh(o.buffer)) && container == old(container)
        invariant AllWritable(container[..i]) && NoListener(container[..i])
        invariant o.Contents() == start + EncodeEntries(container[..i])
      {
        EntriesMore(container, i);
        assert ShortText(container[i]);
        ok := PackEntry(o, container[i]);
        if !ok {
          return;
        }
      }
      assert container[..|container|] == container;
      ok := true;
    }

    /** Writes one entry; a listener cannot be written. */
    static method PackEntry(o: OutBuffer, r: Route) returns (ok: bool)
      requires o.Valid() && Writable(r) && ShortText(r)
      modifies o, o.buffer
      ensures o.Valid() && ok == !r.Listener? && (o.buffer == old(o.buffer) || fresh(o.buffer))
      ensures ok ==> o.Contents() == old(o.Contents()) + EncodeRoute(r)
    {
      hide Encode;
      TagReadsBack(r);
      if r.Listener? {
        return false;
      }
      o.Put(Num(Tag(r)), SInt(32));
      o.Put(PayloadValue(r), PayloadType(Tag(r)));
      ok := true;
    }

    /** Reads a route behind what is there; on an error the entries read so far stay. */
    method Unpack(i: InBuffer) returns (ok: bool)
      requires i.Valid()
      modifies this, i
      ensures i.Valid()
      ensures match UnpackRoute(old(i.Rest()), old(container))
        case Failed => !ok
        case Unpacked(rs, rest) => ok && container == rs && i.Rest() == rest
    {
      hide Decode, UnpackEntries;
      var v;
      ok, v := i.Get(UInt(64));
      if !ok {
        return;
      }
      NumberDecoded(UInt(64), old(i.Rest()));
      ok := UnpackAll(i, v.n);
    }

    method UnpackAll(i: InBuffer, sz: nat) returns (ok: bool)
      requires i.Valid()
      modifies this, i
      ensures i.Valid()
      ensures match UnpackEntries(sz, old(i.Rest()), old(container))
        case Failed => !ok
        case Unpacked(rs, rest) => ok && container == rs && i.Rest() == rest
    {
      hide Decode;
      for j := 0 to sz
        invariant i.Valid()
        invariant UnpackEntries(sz - j, i.Rest(), container) == UnpackEntries(sz, old(i.Rest()), old(container))
      {
        var t;
        NumberDecoded(SInt(32), i.Rest());
        ok, t := i.Get(SInt(32));
        if !ok {
          return;
        }
        if t.n == LISTENER {
          return false;
        }
        if 1 <= t.n <= 6 {
          var v;
          PayloadDecoded(t.n, i.Rest());
          ok, v := i.Get(PayloadType(t.n));
          if !ok {
            return;
          }
          container := container + [MakeRoute(t.n, v)];
        }
      }
      ok := true;
    }

    /** Compares two routes; where two listeners stand at one place, there is no order. */
    method Less(a: RouteT) returns (threw: bool, less: bool)
      ensures threw == ListenersMeet(container, a.container)
      ensures !threw ==> less == RouteLess(container, a.container)
    {
      hide EntryLess;
      if |a.container| != |container| {
        return false, |a.container| < |container|;
      }
      for i := 0 to |container|
        invariant container[..i] == a.container[..i] && NoListener(container[..i])
      {
        FirstDifference(container, a.container, i);
        less := false;
        if Tag(a.container[i]) != Tag(container[i]) {
          TagsDecide(a.container[i], container[i]);
          return false, Tag(a.container[i]) < Tag(container[i]);
        }
        if a.container[i].Listener? {
          return true, false;
        }
        SameEntry(a.container[i], container[i]);
        if PayloadOf(a.container[i]) != PayloadOf(container[i]) {
          PayloadsDecide(a.container[i], container[i]);
          return false, PayloadLess(PayloadOf(a.container[i]), PayloadOf(container[i]));
        }
        assert container[..i + 1] == container[..i] + [container[i]];
        assert a.container[..i + 1] == a.container[..i] + [a.container[i]];
      }
      assert container[..|container|] == container && a.container[..|container|] == a.container;
      RouteTrichotomy(container, container);
      return false, false;
    }

    method Equal(a: RouteT) returns (threw: bool, equal: bool)
      ensures threw == ListenersMeet(container, a.container)
      ensures !threw ==> equal == (container == a.container)
    {
      if |a.container| != |container| {
        return false, false;
      }
      for i := 0 to |container|
        invariant container[..i] == a.container[..i] && NoListener(container[..i])
      {
        FirstDifference(container, a.container, i);
        if Tag(a.container[i]) != Tag(container[i]) {
          return false, false;
        }
        if a.container[i].Listener? {
          return true, false;
        }
        SameEntry(a.container[i], container[i]);
        if PayloadOf(a.container[i]) != PayloadOf(container[i]) {
          return false, false;
        }
        assert container[..i + 1] == container[..i] + [container[i]];
        assert a.container[..i + 1] == a.container[..i] + [a.container[i]];
      }
      assert container[..|container|] == container && a.container[..|container|] == a.container;
      return false, true;
    }
  }

  /** A number is read as a number. */
  lemma {:induction false} NumberDecoded(t: Type, s: seq<Byte>)
    requires GoodType(t) && (t.UInt? || t.SInt?)
    ensures Decode(t, s).Parsed? ==> Decode(t, s).value.Num? && (t.UInt? ==> Decode(t, s).value.n >= 0)
  {
  }

  lemma {:induction false} PayloadDecoded(tag: int, s: seq<Byte>)
    requires 1 <= tag <= 6
    ensures var t := PayloadType(tag);
      GoodType(t) && (Decode(t, s).Parsed? ==> if t.String? then Decode(t, s).value.Bytes? else Decode(t, s).value.Num?)
  {
  }
}
