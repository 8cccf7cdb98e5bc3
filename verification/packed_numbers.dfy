/** The packed numbers of the byte buffers: seven bits a byte, the highest first, with bit 7 set in all but the last. */
module PackedNumbers {
  import opened MachineNumbers

  /** The groups of n that are followed by more. */
  function HighGroups(n: nat): (s: seq<Byte>)
    ensures forall i :: 0 <= i < |s| ==> s[i] >= 128
  {
    if n == 0 then [] else HighGroups(n / 128) + [n % 128 + 128]
  }

  function PackedNumber(n: nat): seq<Byte> {
    HighGroups(n / 128) + [n % 128]
  }

  datatype Parsed<T> = Short | Parsed(value: T, rest: seq<Byte>)

  /** Reads a number, having read acc of it; more than 64 bits drop out at the top. */
  function ParseFrom(acc: UInt64, s: seq<Byte>): Parsed<UInt64>
    decreases |s|
  {
    if s == [] then Short
    else
      var next := acc * 128 % UINT64_RANGE + s[0] % 128;
      RoomForGroup(acc);
      if s[0] < 128 then Parsed(next, s[1..]) else ParseFrom(next, s[1..])
  }

  /** Shifting left by seven leaves room for seven bits. */
  lemma {:induction false} RoomForGroup(acc: nat)
    ensures acc * 128 % UINT64_RANGE + 127 < UINT64_RANGE
  {
  }

  function ParseNumber(s: seq<Byte>): Parsed<UInt64> {
    ParseFrom(0, s)
  }

  lemma {:induction false} ParseHighGroups(n: UInt64, s: seq<Byte>)
    ensures ParseFrom(0, HighGroups(n) + s) == ParseFrom(n, s)
  {
    hide ParseFrom;
    if n == 0 {
      assert HighGroups(0) + s == s;
    } else {
      var m, c: Byte := n / 128, n % 128 + 128;
      assert HighGroups(n) + s == HighGroups(m) + ([c] + s);
      ParseHighGroups(m, [c] + s);
      ParseGroup(n, s);
    }
  }

  lemma {:induction false} ParseGroup(n: UInt64, s: seq<Byte>)
    ensures ParseFrom(n / 128, [n % 128 + 128] + s) == ParseFrom(n, s)
  {
    var t: seq<Byte> := [n % 128 + 128] + s;
    assert t[0] % 128 == n % 128 && t[1..] == s;
    assert n / 128 * 128 % UINT64_RANGE + n % 128 == n;
  }

  /** Reading a packed number gives the number back and leaves what follows. */
  lemma {:induction false} NumberRoundTrip(n: UInt64, rest: seq<Byte>)
    ensures ParseNumber(PackedNumber(n) + rest) == Parsed(n, rest)
  {
    var m, c: Byte := n / 128, n % 128;
    assert PackedNumber(n) + rest == HighGroups(m) + ([c] + rest);
    hide ParseFrom;
    ParseHighGroups(m, [c] + rest);
    ParseLast(n, rest);
  }

  lemma {:induction false} ParseLast(n: UInt64, rest: seq<Byte>)
    ensures ParseFrom(n / 128, [n % 128] + rest) == Parsed(n, rest)
  {
    var t: seq<Byte> := [n % 128] + rest;
    assert t[0] % 128 == n % 128 && t[1..] == rest;
    assert n / 128 * 128 % UINT64_RANGE + n % 128 == n;
  }

  function Pow128(k: nat): (p: nat)
    ensures p > 0
  {
    if k == 0 then 1 else 128 * Pow128(k - 1)
  }

  lemma {:induction false} GroupCount(n: nat, k: nat)
    ensures n < Pow128(k) <==> |HighGroups(n)| <= k
  {
    if n > 0 && k > 0 {
      GroupCount(n / 128, k - 1);
    }
  }

  /** A number of 64 bits takes at most ten bytes. */
  lemma {:induction false} AtMostTenBytes(n: UInt64)
    ensures 1 <= |PackedNumber(n)| <= 10
  {
    var k := 9;
    assert Pow128(9) == 0x8000_0000_0000_0000;
    GroupCount(n / 128, k);
  }

  /** What is read from k bytes is below 128^k. */
  lemma {:induction false} ParsedBelow(acc: UInt64, s: seq<Byte>, k: nat)
    requires acc < Pow128(k)
    ensures match ParseFrom(acc, s)
      case Short => true
      case Parsed(n, rest) => |rest| < |s| && n < Pow128(k + |s| - |rest|)
    decreases |s|
  {
    if s != [] {
      var next := acc * 128 % UINT64_RANGE + s[0] % 128;
      RoomForGroup(acc);
      NextBelow(acc, s[0] % 128, Pow128(k));
      if s[0] >= 128 {
        ParsedBelow(next, s[1..], k + 1);
      }
    }
  }

  lemma {:induction false} NextBelow(acc: nat, c: nat, p: nat)
    requires acc < p && c < 128
    ensures acc * 128 % UINT64_RANGE + c < 128 * p
  {
    assert acc * 128 % UINT64_RANGE <= acc * 128;
  }

  /** No shorter sequence of bytes is read as the same number. */
  lemma {:induction false} PackedIsShortest(n: UInt64, s: seq<Byte>)
    requires ParseNumber(s) == Parsed(n, [])
    ensures |PackedNumber(n)| <= |s|
  {
    ParsedBelow(0, s, 0);
    var k := |s| - 1;
    assert Pow128(k + 1) == 128 * Pow128(k);
    GroupCount(n / 128, k);
  }

  /** The number that the low seven bits of the bytes make, the first byte counting most. */
  function GroupsValue(s: seq<Byte>): nat {
    if s == [] then 0 else 128 * GroupsValue(s[..|s| - 1]) + s[|s| - 1] % 128
  }

  /**
   * The form of a packed number: its groups make the number, all bytes but the last have bit 7 set, and no group in
   * front is wasted.
   */
  lemma {:induction false} PackedForm(n: nat)
    ensures var s := PackedNumber(n);
      && |s| > 0 && GroupsValue(s) == n && s[|s| - 1] < 128
      && (forall i :: 0 <= i < |s| - 1 ==> s[i] >= 128) && (|s| > 1 ==> s[0] != 128)
  {
    hide HighGroups, GroupsValue;
    var s, c: Byte := HighGroups(n / 128), n % 128;
    HighForm(n / 128);
    GroupsMore(s, c);
    LowGroup(n);
    NoGroups();
  }

  lemma {:induction false} GroupsMore(s: seq<Byte>, c: Byte)
    ensures GroupsValue(s + [c]) == 128 * GroupsValue(s) + c % 128
  {
    assert (s + [c])[..|s|] == s;
  }

  lemma {:induction false} LowGroup(n: nat)
    ensures 128 * (n / 128) + n % 128 == n && n % 128 % 128 == n % 128 && (n % 128 + 128) % 128 == n % 128
  {
  }

  lemma {:induction false} NoGroups()
    ensures HighGroups(0) == [] && GroupsValue([]) == 0
  {
  }

  lemma {:induction false} NextGroup(n: nat)
    requires n > 0
    ensures HighGroups(n) == HighGroups(n / 128) + [n % 128 + 128]
  {
  }

  lemma {:induction false} HighForm(n: nat)
    ensures GroupsValue(HighGroups(n)) == n && (n > 0 ==> |HighGroups(n)| > 0 && HighGroups(n)[0] != 128)
  {
    hide HighGroups, GroupsValue;
    NoGroups();
    if n > 0 {
      var s, c: Byte := HighGroups(n / 128), n % 128 + 128;
      HighForm(n / 128);
      NextGroup(n);
      GroupsMore(s, c);
      LowGroup(n);
      assert s == [] ==> n == c - 128;
    }
  }

  /** Of any bytes with bit 7 set, and a last one without, the low 64 bits of the number are read. */
  lemma {:induction false} ParsedIs(s: seq<Byte>, c: Byte, rest: seq<Byte>)
    requires (forall i :: 0 <= i < |s| ==> s[i] >= 128) && c < 128
    ensures ParseNumber(s + [c] + rest) == Parsed(GroupsValue(s + [c]) % UINT64_RANGE, rest)
  {
    hide ParseFrom, GroupsValue;
    assert s + [c] + rest == s + ([c] + rest);
    ParsePrefix(s, [c] + rest);
    ParseNext(GroupsValue(s), c, rest);
    GroupsMore(s, c);
  }

  lemma {:induction false} ParseNext(x: nat, c: Byte, s: seq<Byte>)
    ensures var next: UInt64 := (128 * x + c % 128) % UINT64_RANGE;
      ParseFrom(x % UINT64_RANGE, [c] + s) == if c < 128 then Parsed(next, s) else ParseFrom(next, s)
  {
    assert ([c] + s)[1..] == s;
    NextResidue(x, c);
  }

  lemma {:induction false} NextResidue(x: nat, c: nat)
    ensures (128 * x + c % 128) % UINT64_RANGE == x % UINT64_RANGE * 128 % UINT64_RANGE + c % 128
  {
  }

  lemma {:induction false} ParsePrefix(s: seq<Byte>, rest: seq<Byte>)
    requires forall i :: 0 <= i < |s| ==> s[i] >= 128
    ensures ParseFrom(0, s + rest) == ParseFrom(GroupsValue(s) % UINT64_RANGE, rest)
  {
    hide ParseFrom, GroupsValue;
    NoGroups();
    if s == [] {
      assert s + rest == rest;
    } else {
      var t, c := s[..|s| - 1], s[|s| - 1];
      assert s == t + [c] && s + rest == t + ([c] + rest);
      ParsePrefix(t, [c] + rest);
      ParseNext(GroupsValue(t), c, rest);
      GroupsMore(t, c);
    }
  }
}
