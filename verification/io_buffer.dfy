/** The byte buffers that values are written to and read from. */
module IoBuffer {
  import opened MachineNumbers
  import opened PackedNumbers
  import opened ValueCodec

  const SPLICE := 0x400
  const GROWTH := 0x1_0000

  /** n shifted right by g groups of seven bits. */
  function ShiftGroups(n: nat, g: nat): nat {
    if g == 0 then n else ShiftGroups(n, g - 1) / 128
  }

  lemma {:induction false} ShiftBelow(n: nat, g: nat, k: nat)
    requires n < Pow128(k + g)
    ensures ShiftGroups(n, g) < Pow128(k)
  {
    if g > 0 {
      ShiftBelow(n, g - 1, k + 1);
    }
  }

  /** Ten groups hold every number; g is a parameter so that ShiftGroups is not unrolled. */
  lemma {:induction false} NothingAboveTenGroups(n: UInt64, g: nat)
    requires g == 10
    ensures ShiftGroups(n, g) == 0
  {
    assert Pow128(10) > 0x1_0000_0000_0000_0000;
    ShiftBelow(n, g, 0);
  }

  lemma {:induction false} NoMembers(e: Type)
    requires GoodType(e)
    ensures AllHaveType([], e) && EncodeAll([], e) == []
  {
  }

  lemma {:induction false} MembersMore(vs: seq<Value>, e: Type, j: nat)
    requires GoodType(e) && AllHaveType(vs, e) && AllStringsShort(vs, e) && j < |vs|
    ensures HasType(vs[j], e) && StringsShort(vs[j], e) && AllHaveType(vs[..j], e) && AllHaveType(vs[..j + 1], e)
    ensures EncodeAll(vs[..j + 1], e) == EncodeAll(vs[..j], e) + Encode(vs[j], e)
  {
    hide Encode, HasType, StringsShort;
    assert vs[..j + 1][..j] == vs[..j];
  }

  class OutBuffer {
    var buffer: array<Byte>
    var bufsize: nat
    var curPos: nat

    ghost predicate Valid()
      reads this
    {
      bufsize == buffer.Length && curPos <= bufsize
    }

    ghost function Contents(): seq<Byte>
      requires Valid()
      reads this, buffer
    {
      buffer[..curPos]
    }

    constructor ()
      ensures Valid() && Contents() == [] && fresh(buffer)
    {
      buffer := new Byte[SPLICE](_ => 0);
      bufsize, curPos := SPLICE, 0;
    }

    /** Makes room for n more bytes (and one to spare). */
    method Adjust(n: nat)
      requires Valid()
      modifies this
      ensures Valid() && curPos == old(curPos) && curPos + n < bufsize && Contents() == old(Contents())
      ensures bufsize >= old(bufsize) && (buffer == old(buffer) || fresh(buffer))
    {
      if curPos + n >= bufsize {
        var nnew := curPos + n + GROWTH;
        var larger := new Byte[nnew](_ => 0);
        for i := 0 to bufsize
          modifies larger
          invariant larger[..i] == buffer[..i]
        {
          larger[i] := buffer[i];
        }
        assert larger[..bufsize][..curPos] == buffer[..bufsize][..curPos];
        assert larger[..curPos] == larger[..bufsize][..curPos] && buffer[..curPos] == buffer[..bufsize][..curPos];
        buffer := larger;
        bufsize := nnew;
      }
    }

    /** Writes a byte for which there is room. */
    method PutRaw(c: Byte)
      requires Valid() && curPos < bufsize
      modifies this`curPos, buffer
      ensures Valid() && curPos == old(curPos) + 1 && Contents() == old(Contents()) + [c]
    {
      buffer[curPos] := c;
      curPos := curPos + 1;
      assert buffer[..curPos] == buffer[..curPos - 1] + [c];
    }

    /** Writes a packed number. Leading groups that are zero are skipped, the last group never is. */
    method PutPN(n: UInt64)
      requires Valid()
      modifies this, buffer
      ensures Valid() && Contents() == old(Contents()) + PackedNumber(n) && (buffer == old(buffer) || fresh(buffer))
      ensures curPos <= old(curPos) + 10 && bufsize >= old(bufsize)
    {
      AtMostTenBytes(n);
      Adjust(10);
      NothingAboveTenGroups(n, 10);
      var g := 9;
      while ShiftGroups(n, g) % 128 == 0 && g != 0
        invariant 0 <= g <= 9 && ShiftGroups(n, g + 1) == 0
        decreases g
      {
        g := g - 1;
      }
      ghost var start, room := Contents(), bufsize;
      assert start + [] == start;
      while g > 0
        invariant 0 <= g <= 9 && Valid() && curPos + g <= old(curPos) + 9
        invariant bufsize == room && (buffer == old(buffer) || fresh(buffer))
        invariant g > 0 ==> ShiftGroups(n, g) != 0
        invariant Contents() == start + HighGroups(ShiftGroups(n, g + 1))
        decreases g
      {
        var c := ShiftGroups(n, g) % 128;
        PutRaw(c + 128);
        g := g - 1;
      }
      assert ShiftGroups(n, 1) == ShiftGroups(n, 0) / 128 == n / 128;
      PutRaw(n % 128);
    }

    method Pack(s: seq<Byte>)
      requires Valid()
      modifies this, buffer
      ensures Valid() && Contents() == old(Contents()) + s && (buffer == old(buffer) || fresh(buffer))
    {
      Adjust(|s|);
      CopyRaw(s);
      curPos := curPos + |s|;
    }

    /** Copies bytes to the current position, where there is room for them. */
    method CopyRaw(s: seq<Byte>)
      requires Valid() && curPos + |s| <= bufsize
      modifies buffer
      ensures Valid() && buffer[..curPos + |s|] == old(Contents()) + s
    {
      assert s[..0] == [];
      for i := 0 to |s|
        invariant buffer[..curPos + i] == old(buffer[..curPos]) + s[..i]
      {
        buffer[curPos + i] := s[i];
        assert s[..i + 1] == s[..i] + [s[i]];
        assert buffer[..curPos + i + 1] == buffer[..curPos + i] + [s[i]];
      }
      assert s[..|s|] == s;
    }

    /**
     * Writes a string behind its length; all of it fits into what Adjust provides at the start. The position ends up
     * behind the string exactly if that has fewer than 2^31 bytes.
     */
    method PutPSTR(s: seq<Byte>)
      requires Valid() && |s| < MAX_STRING
      modifies this, buffer
      ensures buffer == old(buffer) || fresh(buffer)
      ensures var written := old(Contents()) + PackedNumber(|s|) + s;
        && |written| <= buffer.Length == bufsize && buffer[..|written|] == written
        && (curPos == |written| <==> |s| < UINT32_RANGE / 2)
      ensures |s| < UINT32_RANGE / 2 ==> Valid() && Contents() == old(Contents()) + PackedNumber(|s|) + s
    {
      Adjust(10 + |s|);
      PutPN(|s|);
      CopyRaw(s);
      MovedExactly(curPos, |s|);
      curPos := MovedOn(curPos, |s|);
    }

    /** Writes a value. */
    method Put(v: Value, t: Type)
      requires Valid() && GoodType(t) && HasType(v, t) && StringsShort(v, t)
      modifies this, buffer
      ensures Valid() && Contents() == old(Contents()) + Encode(v, t) && (buffer == old(buffer) || fresh(buffer))
      decreases t, 0, 1
    {
      hide PackedNumber, EncodeAll, AllHaveType, AllStringsShort;
      match t
      case UInt(_) => PutPN(v.n);
      case SInt(_) => PutPN(v.n % UINT64_RANGE);
      case Bool => PutPN(if v.b then 1 else 0);
      case String =>
        PutPSTR(v.s);
      case Sequence(e) => PutMembers(v.vs, e);
      case Set(e) => PutMembers(v.vs, e);
      case Map(e) => PutMembers(v.vs, e);
      case Pair(a, b) => PutPair(v.a, a, v.b2, b);
    }

    /** Writes one value behind another. */
    method PutPair(v: Value, t: Type, w: Value, u: Type)
      requires Valid() && GoodType(t) && HasType(v, t) && StringsShort(v, t)
      requires GoodType(u) && HasType(w, u) && StringsShort(w, u)
      modifies this, buffer
      ensures Valid() && Contents() == old(Contents()) + (Encode(v, t) + Encode(w, u))
      ensures buffer == old(buffer) || fresh(buffer)
      decreases Pair(t, u), 0, 0
    {
      hide Encode, HasType, StringsShort;
      Put(v, t);
      Put(w, u);
    }

    /** Writes a container: its size as a 32-bit number, then its members. */
    method PutMembers(vs: seq<Value>, e: Type)
      requires Valid() && GoodType(e) && AllHaveType(vs, e) && AllStringsShort(vs, e)
      modifies this, buffer
      ensures Valid() && Contents() == old(Contents()) + PackedNumber(|vs| % UINT32_RANGE) + EncodeAll(vs, e)
      ensures buffer == old(buffer) || fresh(buffer)
      decreases e, 1
    {
      hide PackedNumber, Encode, EncodeAll, AllHaveType, HasType, StringsShort;
      PutPN(|vs| % UINT32_RANGE);
      NoMembers(e);
      ghost var start := Contents();
      assert vs[..0] == [] && start + [] == start;
      for j := 0 to |vs|
        invariant Valid() && (buffer == old(buffer) || fresh(buffer))
        invariant AllHaveType(vs[..j], e) && Contents() == start + EncodeAll(vs[..j], e)
      {
        MembersMore(vs, e, j);
        Put(vs[j], e);
      }
      assert vs[..|vs|] == vs;
    }
  }

  class InBuffer {
    const data: seq<Byte>
    var outPos: nat

    ghost predicate Valid()
      reads this
    {
      outPos <= |data|
    }

    /** What has not been read yet. */
    ghost function Rest(): seq<Byte>
      requires Valid()
      reads this
    {
      data[outPos..]
    }

    constructor (d: seq<Byte>)
      ensures Valid() && Rest() == d
    {
      data, outPos := d, 0;
    }

    /** Reads a byte; at the end there is none. */
    method Get8() returns (ok: bool, c: Byte)
      requires Valid()
      modifies this
      ensures Valid() && ok == (old(Rest()) != [])
      ensures if ok then c == old(Rest())[0] && Rest() == old(Rest())[1..] else Rest() == old(Rest())
    {
      if outPos + 1 > |data| {
        return false, 0;
      }
      c := data[outPos];
      outPos := outPos + 1;
      ok := true;
    }

    /** Reads a packed number. */
    method GetPN() returns (ok: bool, n: UInt64)
      requires Valid()
      modifies this
      ensures Valid()
      ensures match ParseNumber(old(Rest()))
        case Short => !ok && Rest() == []
        case Parsed(m, rest) => ok && n == m && Rest() == rest
    {
      n := 0;
      while true
        invariant Valid() && ParseFrom(n, Rest()) == ParseNumber(old(Rest()))
        decreases |data| - outPos
      {
        var c;
        ghost var rest := Rest();
        ok, c := Get8();
        if !ok {
          return;
        }
        RoomForGroup(n);
        n := n * 128 % UINT64_RANGE + c % 128;
        if c < 128 {
          return;
        }
      }
    }

    /** Reads size bytes; if there are fewer, none. */
    method Unpack(size: nat) returns (ok: bool, s: seq<Byte>)
      requires Valid()
      modifies this
      ensures Valid() && ok == (size <= |old(Rest())|)
      ensures if ok then s == old(Rest())[..size] && Rest() == old(Rest())[size..] else Rest() == old(Rest())
    {
      if size > |data| - outPos {
        return false, [];
      }
      s := data[outPos..outPos + size];
      outPos := outPos + size;
      ok := true;
    }

    /** Reads a string behind its length. */
    method GetPSTR() returns (ok: bool, s: seq<Byte>)
      requires Valid()
      modifies this
      ensures Valid()
      ensures match Decode(String, old(Rest()))
        case Short => !ok
        case Parsed(v, rest) => ok && v == Bytes(s) && Rest() == rest
    {
      var sz;
      s := [];
      ok, sz := GetPN();
      if ok {
        ok, s := Unpack(sz);
      }
    }

    /** Reads a value of the given type. */
    method Get(t: Type) returns (ok: bool, v: Value)
      requires Valid() && GoodType(t)
      modifies this
      ensures Valid()
      ensures match Decode(t, old(Rest()))
        case Short => !ok
        case Parsed(w, rest) => ok && v == w && Rest() == rest
      decreases t, 0
    {
      match t
      case String =>
        var s;
        ok, s := GetPSTR();
        v := Bytes(s);
      case Pair(t1, t2) =>
        var a, b;
        ok, a := Get(t1);
        v := a;
        if ok {
          ok, b := Get(t2);
          v := Two(a, b);
        }
      case UInt(bits) =>
        var n;
        ok, n := GetPN();
        v := Num(n % Range(bits));
      case SInt(bits) =>
        var n;
        ok, n := GetPN();
        v := Num(Signed(n, bits));
      case Bool =>
        var n;
        ok, n := GetPN();
        v := Boolean(n != 0);
      case _ =>
        var n;
        ok, n := GetPN();
        v := Many([]);
        if ok {
          ok, v := GetMembers(t, n % UINT32_RANGE);
        }
    }

    /** Reads the members of a container. */
    method GetMembers(t: Type, n: nat) returns (ok: bool, v: Value)
      requires Valid() && GoodType(t) && IsContainer(t)
      modifies this
      ensures Valid()
      ensures match DecodeMany(t, n, old(Rest()), [])
        case Short => !ok
        case Parsed(w, rest) => ok && v == w && Rest() == rest
      decreases ElementType(t), 1
    {
      hide Decode;
      var acc: seq<Value> := [];
      v := Many([]);
      for j := 0 to n
        invariant Valid()
        invariant DecodeMany(t, n - j, Rest(), acc) == DecodeMany(t, n, old(Rest()), [])
      {
        var w;
        ok, w := Get(ElementType(t));
        if !ok {
          return;
        }
        acc := Add(t, acc, w);
      }
      return true, Many(acc);
    }
  }
}
