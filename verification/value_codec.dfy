/** How integers, strings and containers of them are written to a byte buffer, and read back. */
module ValueCodec {
  import opened MachineNumbers
  import opened PackedNumbers

  /** The types that the stream operators know; vectors, lists and deques are written alike. */
  datatype Type =
    | UInt(bits: nat)
    | SInt(bits: nat)
    | Bool
    | String
    | Sequence(elem: Type)
    | Set(elem: Type)
    | Map(entry: Type)
    | Pair(first: Type, second: Type)

  /** Sets and maps list their members in iteration order, maps as pairs. */
  datatype Value =
    | Num(n: int)
    | Boolean(b: bool)
    | Bytes(s: seq<Byte>)
    | Many(vs: seq<Value>)
    | Two(a: Value, b2: Value)

  /** No string can be longer. */
  const MAX_STRING := 0x8000_0000_0000_0000

  predicate IsWidth(bits: nat) {
    bits == 8 || bits == 16 || bits == 32 || bits == 64
  }

  /** 2 to the power of a width. */
  function Range(bits: nat): (r: nat)
    requires IsWidth(bits)
    ensures r > 0
  {
    if bits == 8 then 0x100 else if bits == 16 then 0x1_0000 else if bits == 32 then UINT32_RANGE else UINT64_RANGE
  }

  /**
   * How far the writer moves on behind a string of n bytes: the low 32 bits of n, as a signed number.
   */
  function Advance(n: nat): int {
    var m := n % UINT32_RANGE;
    if m < UINT32_RANGE / 2 then m else m - UINT32_RANGE
  }

  /** The position that the writer moves on to, a 64-bit number. */
  function MovedOn(pos: nat, n: nat): (p: nat) {
    var p := pos + Advance(n);
    if p < 0 then p + UINT64_RANGE else p
  }

  lemma {:induction false} MovedExactly(pos: nat, n: nat)
    requires n < MAX_STRING
    ensures MovedOn(pos, n) == pos + n <==> n < UINT32_RANGE / 2
  {
  }

  predicate GoodType(t: Type) {
    match t
    case UInt(bits) => IsWidth(bits)
    case SInt(bits) => IsWidth(bits)
    case Bool => true
    case String => true
    case Sequence(e) => GoodType(e)
    case Set(e) => GoodType(e)
    case Map(e) => GoodType(e) && e.Pair?
    case Pair(a, b) => GoodType(a) && GoodType(b)
  }

  /** v is a value of type t. */
  ghost predicate HasType(v: Value, t: Type)
    requires GoodType(t)
    decreases t, 0
  {
    match t
    case UInt(bits) => v.Num? && 0 <= v.n < Range(bits)
    case SInt(bits) => v.Num? && -(Range(bits) / 2) <= v.n < Range(bits) / 2
    case Bool => v.Boolean?
    case String => v.Bytes? && |v.s| < MAX_STRING
    case Sequence(e) => v.Many? && AllHaveType(v.vs, e)
    case Set(e) => v.Many? && AllHaveType(v.vs, e) && AllDifferent(v.vs)
    case Map(e) => v.Many? && AllHaveType(v.vs, e) && KeysDifferent(v.vs)
    case Pair(a, b) => v.Two? && HasType(v.a, a) && HasType(v.b2, b)
  }

  ghost predicate AllHaveType(vs: seq<Value>, t: Type)
    requires GoodType(t)
    decreases t, 1
  {
    forall i :: 0 <= i < |vs| ==> HasType(vs[i], t)
  }

  ghost predicate AllDifferent(vs: seq<Value>) {
    forall i, j :: 0 <= i < j < |vs| ==> vs[i] != vs[j]
  }

  ghost predicate KeysDifferent(vs: seq<Value>) {
    forall i, j :: 0 <= i < j < |vs| && vs[i].Two? && vs[j].Two? ==> vs[i].a != vs[j].a
  }

  predicate IsContainer(t: Type) {
    t.Sequence? || t.Set? || t.Map?
  }

  function ElementType(t: Type): (e: Type)
    requires IsContainer(t)
    ensures e < t
  {
    match t
    case Sequence(e) => e
    case Set(e) => e
    case Map(e) => e
  }

  // Writing.

  ghost function Encode(v: Value, t: Type): seq<Byte>
    requires GoodType(t) && HasType(v, t)
    decreases t, 0
  {
    match t
    case UInt(_) => PackedNumber(v.n)
    case SInt(_) => PackedNumber(v.n % UINT64_RANGE)
    case Bool => PackedNumber(if v.b then 1 else 0)
    case String => PackedNumber(|v.s|) + v.s
    case Sequence(e) => PackedNumber(|v.vs| % UINT32_RANGE) + EncodeAll(v.vs, e)
    case Set(e) => PackedNumber(|v.vs| % UINT32_RANGE) + EncodeAll(v.vs, e)
    case Map(e) => PackedNumber(|v.vs| % UINT32_RANGE) + EncodeAll(v.vs, e)
    case Pair(a, b) => Encode(v.a, a) + Encode(v.b2, b)
  }

  ghost function EncodeAll(vs: seq<Value>, e: Type): seq<Byte>
    requires GoodType(e) && AllHaveType(vs, e)
    decreases e, 1, |vs|
  {
    if vs == [] then [] else EncodeAll(vs[..|vs| - 1], e) + Encode(vs[|vs| - 1], e)
  }

  // Reading.

  /** The number of the given width that the low bits of n make. */
  function Signed(n: nat, bits: nat): int
    requires IsWidth(bits)
  {
    var m := n % Range(bits);
    if m < Range(bits) / 2 then m else m - Range(bits)
  }

  /** Adding a member: sets and maps keep what they have. */
  function Add(t: Type, acc: seq<Value>, v: Value): seq<Value> {
    match t
    case Set(_) => if v in acc then acc else acc + [v]
    case Map(_) => if v.Two? && HasKey(acc, v.a) then acc else acc + [v]
    case _ => acc + [v]
  }

  predicate HasKey(acc: seq<Value>, k: Value) {
    exists i :: 0 <= i < |acc| && acc[i].Two? && acc[i].a == k
  }

  function Decode(t: Type, s: seq<Byte>): Parsed<Value>
    requires GoodType(t)
    decreases t, 0
  {
    match t
    case UInt(_) => DecodeScalar(t, s)
    case SInt(_) => DecodeScalar(t, s)
    case Bool => DecodeScalar(t, s)
    case String => DecodeScalar(t, s)
    case Pair(t1, t2) =>
      (match Decode(t1, s)
       case Short => Short
       case Parsed(a, r) =>
         match Decode(t2, r)
         case Short => Short
         case Parsed(b, r') => Parsed(Two(a, b), r'))
    case _ =>
      match ParseNumber(s)
      case Short => Short
      case Parsed(n, r) => DecodeMany(t, n % UINT32_RANGE, r, [])
  }

  predicate IsScalar(t: Type) {
    t.UInt? || t.SInt? || t.Bool? || t.String?
  }

  function DecodeScalar(t: Type, s: seq<Byte>): Parsed<Value>
    requires GoodType(t) && IsScalar(t)
  {
    match ParseNumber(s)
    case Short => Short
    case Parsed(n, r) =>
      match t
      case UInt(bits) => Parsed(Num(n % Range(bits)), r)
      case SInt(bits) => Parsed(Num(Signed(n, bits)), r)
      case Bool => Parsed(Boolean(n != 0), r)
      case String => if n > |r| then Short else Parsed(Bytes(r[..n]), r[n..])
  }

  /** Reads n members of a container that holds acc. */
  function DecodeMany(t: Type, n: nat, s: seq<Byte>, acc: seq<Value>): Parsed<Value>
    requires GoodType(t) && IsContainer(t)
    decreases ElementType(t), 1, n
  {
    if n == 0 then Parsed(Many(acc), s)
    else
      match Decode(ElementType(t), s)
      case Short => Short
      case Parsed(v, r) => DecodeMany(t, n - 1, r, Add(t, acc, v))
  }

  // Reading back.

  lemma {:induction false} EncodeAllConcat(a: seq<Value>, b: seq<Value>, e: Type)
    requires GoodType(e) && AllHaveType(a, e) && AllHaveType(b, e)
    ensures AllHaveType(a + b, e) && EncodeAll(a + b, e) == EncodeAll(a, e) + EncodeAll(b, e)
  {
    hide Encode, HasType;
    if b == [] {
      assert a + b == a;
    } else {
      assert (a + b)[..|a + b| - 1] == a + b[..|b| - 1];
      EncodeAllConcat(a, b[..|b| - 1], e);
    }
  }

  // A container is written with the low 32 bits of its size.

  /** No container in v has 2^32 members or more. */
  ghost predicate SizesFit(v: Value, t: Type)
    requires GoodType(t) && HasType(v, t)
    decreases t, 0
  {
    match t
    case Pair(a, b) => SizesFit(v.a, a) && SizesFit(v.b2, b)
    case Sequence(e) => |v.vs| < UINT32_RANGE && AllSizesFit(v.vs, e)
    case Set(e) => |v.vs| < UINT32_RANGE && AllSizesFit(v.vs, e)
    case Map(e) => |v.vs| < UINT32_RANGE && AllSizesFit(v.vs, e)
    case _ => true
  }

  ghost predicate AllSizesFit(vs: seq<Value>, e: Type)
    requires GoodType(e) && AllHaveType(vs, e)
    decreases e, 1
  {
    forall i :: 0 <= i < |vs| ==> SizesFit(vs[i], e)
  }

  /** The writer moves on exactly behind every string in v. */
  ghost predicate StringsShort(v: Value, t: Type)
    requires GoodType(t) && HasType(v, t)
    decreases t, 0
  {
    match t
    case String => Advance(|v.s|) == |v.s|
    case Pair(a, b) => StringsShort(v.a, a) && StringsShort(v.b2, b)
    case Sequence(e) => AllStringsShort(v.vs, e)
    case Set(e) => AllStringsShort(v.vs, e)
    case Map(e) => AllStringsShort(v.vs, e)
    case _ => true
  }

  ghost predicate AllStringsShort(vs: seq<Value>, e: Type)
    requires GoodType(e) && AllHaveType(vs, e)
    decreases e, 1
  {
    forall i :: 0 <= i < |vs| ==> StringsShort(vs[i], e)
  }

  lemma {:induction false} ScalarRoundTrip(v: Value, t: Type, rest: seq<Byte>)
    requires GoodType(t) && IsScalar(t) && HasType(v, t)
    ensures DecodeScalar(t, Encode(v, t) + rest) == Parsed(v, rest)
  {
    hide ParseNumber, PackedNumber;
    match t
    case UInt(bits) =>
      NumberRoundTrip(v.n, rest);
      SmallResidue(v.n, Range(bits));
    case SInt(bits) =>
      NumberRoundTrip(v.n % UINT64_RANGE, rest);
      SignedBack(v.n, bits);
    case Bool => NumberRoundTrip(if v.b then 1 else 0, rest);
    case String =>
      NumberRoundTrip(|v.s|, v.s + rest);
      assert PackedNumber(|v.s|) + v.s + rest == PackedNumber(|v.s|) + (v.s + rest);
      assert (v.s + rest)[..|v.s|] == v.s && (v.s + rest)[|v.s|..] == rest;
  }

  lemma {:induction false} SmallResidue(n: int, r: nat)
    requires 0 <= n < r
    ensures n % r == n
  {
  }

  /** Sign extension to 64 bits and truncation to the width again leave a number of that width as it is. */
  lemma {:induction false} SignedBack(n: int, bits: nat)
    requires IsWidth(bits) && -(Range(bits) / 2) <= n < Range(bits) / 2
    ensures Signed(n % UINT64_RANGE, bits) == n
  {
    if n >= 0 {
      SmallResidue(n, UINT64_RANGE);
      SmallResidue(n, Range(bits));
    } else {
      SmallResidue(n + UINT64_RANGE, UINT64_RANGE);
      NegativeResidue(n, UINT64_RANGE);
      TruncatedNegative(n, bits);
    }
  }

  lemma {:induction false} NegativeResidue(n: int, r: nat)
    requires 0 <= n + r < r
    ensures n % r == n + r
  {
  }

  lemma {:induction false} TruncatedNegative(n: int, bits: nat)
    requires IsWidth(bits) && -(Range(bits) / 2) <= n < 0
    ensures (n + UINT64_RANGE) % Range(bits) == n + Range(bits)
  {
    if bits == 8 {
      assert (n + 0x1_0000_0000_0000_0000) % 0x100 == n + 0x100;
    } else if bits == 16 {
      assert (n + 0x1_0000_0000_0000_0000) % 0x1_0000 == n + 0x1_0000;
    } else if bits == 32 {
      assert (n + 0x1_0000_0000_0000_0000) % 0x1_0000_0000 == n + 0x1_0000_0000;
    } else {
      SmallResidue(n + UINT64_RANGE, UINT64_RANGE);
    }
  }

  /** A member that can be added to the first k is not among them. */
  lemma {:induction false} AddNext(t: Type, vs: seq<Value>, k: nat)
    requires GoodType(t) && IsContainer(t) && HasType(Many(vs), t) && k < |vs|
    ensures Add(t, vs[..k], vs[k]) == vs[..k] + [vs[k]] == vs[..k + 1]
  {
  }

  lemma {:induction false} MembersHaveType(t: Type, vs: seq<Value>, k: nat)
    requires GoodType(t) && IsContainer(t) && HasType(Many(vs), t) && k <= |vs|
    ensures AllHaveType(vs, ElementType(t)) && AllHaveType(vs[..k], ElementType(t))
      && AllHaveType(vs[k..], ElementType(t))
    ensures forall i :: 0 <= i < |vs| ==> HasType(vs[i], ElementType(t))
    ensures Encode(Many(vs), t) == PackedNumber(|vs| % UINT32_RANGE) + EncodeAll(vs, ElementType(t))
    ensures SizesFit(Many(vs), t) <==> |vs| < UINT32_RANGE && AllSizesFit(vs, ElementType(t))
  {
  }

  /** The members from k on. */
  lemma {:induction false} EncodeFrom(vs: seq<Value>, e: Type, k: nat)
    requires GoodType(e) && AllHaveType(vs, e) && k < |vs|
    ensures AllHaveType(vs[k..], e) && AllHaveType(vs[k + 1..], e) && HasType(vs[k], e)
    ensures EncodeAll(vs[k..], e) == Encode(vs[k], e) + EncodeAll(vs[k + 1..], e)
  {
    hide Encode, HasType;
    assert HasType(vs[k], e);
    assert AllHaveType([vs[k]], e);
    assert vs[k..] == [vs[k]] + vs[k + 1..];
    EncodeAllConcat([vs[k]], vs[k + 1..], e);
    EncodeOne(vs[k], e);
  }

  lemma {:induction false} EncodeOne(v: Value, e: Type)
    requires GoodType(e) && HasType(v, e)
    ensures AllHaveType([v], e) && EncodeAll([v], e) == Encode(v, e)
  {
    hide Encode, HasType;
    assert [v][..0] == [];
  }

  /** Reading a value back: exactly if no container is too large does it come back, and then what follows is left. */
  lemma {:induction false} ValueRoundTrip(v: Value, t: Type, rest: seq<Byte>)
    requires GoodType(t) && HasType(v, t)
    ensures SizesFit(v, t) ==> Decode(t, Encode(v, t) + rest) == Parsed(v, rest)
    ensures !SizesFit(v, t) ==> Decode(t, Encode(v, t) + rest).Short? || Decode(t, Encode(v, t) + rest).value != v
    decreases t, 0
  {
    if IsScalar(t) {
      ScalarRoundTrip(v, t, rest);
    } else if t.Pair? {
      PairRoundTrip(v, t, rest);
    } else {
      ContainerRoundTrip(v.vs, t, rest);
    }
  }

  lemma {:induction false} PairRoundTrip(v: Value, t: Type, rest: seq<Byte>)
    requires GoodType(t) && t.Pair? && HasType(v, t)
    ensures SizesFit(v, t) ==> Decode(t, Encode(v, t) + rest) == Parsed(v, rest)
    ensures !SizesFit(v, t) ==> Decode(t, Encode(v, t) + rest).Short? || Decode(t, Encode(v, t) + rest).value != v
    decreases t, 0, 0
  {
    var a, b := Encode(v.a, t.first), Encode(v.b2, t.second);
    assert a + b + rest == a + (b + rest);
    ValueRoundTrip(v.a, t.first, b + rest);
    ValueRoundTrip(v.b2, t.second, rest);
  }

  lemma {:induction false} ContainerRoundTrip(vs: seq<Value>, t: Type, rest: seq<Byte>)
    requires GoodType(t) && IsContainer(t) && HasType(Many(vs), t)
    ensures var v := Many(vs);
      && (SizesFit(v, t) ==> Decode(t, Encode(v, t) + rest) == Parsed(v, rest))
      && (!SizesFit(v, t) ==> Decode(t, Encode(v, t) + rest).Short? || Decode(t, Encode(v, t) + rest).value != v)
    decreases t, 0, 0
  {
    hide PackedNumber, ParseNumber, Encode, EncodeAll, DecodeMany, HasType, SizesFit, AllHaveType, AllSizesFit;
    var n := |vs| % UINT32_RANGE;
    MembersHaveType(t, vs, 0);
    var code := EncodeAll(vs, ElementType(t)) + rest;
    assert Encode(Many(vs), t) + rest == PackedNumber(n) + code;
    NumberRoundTrip(n, code);
    DecodesMembers(t, PackedNumber(n) + code, n, code);
    if |vs| < UINT32_RANGE {
      assert vs[0..] == vs && vs[..0] == [];
      MembersRoundTrip(t, vs, 0, rest);
    } else {
      CountsMembers(t, n, code, []);
    }
  }

  lemma {:induction false} DecodesMembers(t: Type, s: seq<Byte>, n: UInt64, r: seq<Byte>)
    requires GoodType(t) && IsContainer(t) && ParseNumber(s) == Parsed(n, r) && n < UINT32_RANGE
    ensures Decode(t, s) == DecodeMany(t, n, r, [])
  {
    SmallResidue(n, UINT32_RANGE);
  }

  /** No more members are read than the count says, and they come behind those that are there. */
  lemma {:induction false} CountsMembers(t: Type, n: nat, s: seq<Byte>, acc: seq<Value>)
    requires GoodType(t) && IsContainer(t)
    ensures match DecodeMany(t, n, s, acc)
      case Short => true
      case Parsed(v, r) => v.Many? && |v.vs| <= |acc| + n && acc <= v.vs
    decreases n
  {
    hide Decode;
    if n > 0 {
      match Decode(ElementType(t), s)
      case Short =>
      case Parsed(v, r) => CountsMembers(t, n - 1, r, Add(t, acc, v));
    }
  }

  /** If member k is not read as what it is, the container is not, either. */
  lemma {:induction false} WrongMember(t: Type, vs: seq<Value>, k: nat, s: seq<Byte>)
    requires GoodType(t) && IsContainer(t) && k < |vs|
    requires Decode(ElementType(t), s).Short? || Decode(ElementType(t), s).value != vs[k]
    ensures var d := DecodeMany(t, |vs| - k, s, vs[..k]); d.Short? || d.value != Many(vs)
  {
    hide Decode;
    match Decode(ElementType(t), s)
    case Short =>
    case Parsed(w, r) =>
      var acc := Add(t, vs[..k], w);
      CountsMembers(t, |vs| - k - 1, r, acc);
      if |acc| > k {
        assert acc[k] == w != vs[k];
      }
  }

  /** The members from k on, when those before have been read. */
  lemma {:induction false} MembersRoundTrip(t: Type, vs: seq<Value>, k: nat, rest: seq<Byte>)
    requires GoodType(t) && IsContainer(t) && HasType(Many(vs), t) && k <= |vs| && AllHaveType(vs[k..], ElementType(t))
    requires AllHaveType(vs, ElementType(t)) && forall i :: 0 <= i < k ==> SizesFit(vs[i], ElementType(t))
    ensures var d := DecodeMany(t, |vs| - k, EncodeAll(vs[k..], ElementType(t)) + rest, vs[..k]);
      && (AllSizesFit(vs, ElementType(t)) ==> d == Parsed(Many(vs), rest))
      && (!AllSizesFit(vs, ElementType(t)) ==> d.Short? || d.value != Many(vs))
    decreases ElementType(t), 1, |vs| - k
  {
    hide Encode, HasType, SizesFit, Decode;
    var e := ElementType(t);
    if k == |vs| {
      assert vs[k..] == [] && vs[..k] == vs;
      assert EncodeAll([], e) + rest == rest;
    } else {
      EncodeFrom(vs, e, k);
      var code := EncodeAll(vs[k + 1..], e) + rest;
      assert EncodeAll(vs[k..], e) + rest == Encode(vs[k], e) + code;
      ValueRoundTrip(vs[k], e, code);
      AddNext(t, vs, k);
      if SizesFit(vs[k], e) {
        MembersRoundTrip(t, vs, k + 1, rest);
      } else {
        WrongMember(t, vs, k, Encode(vs[k], e) + code);
      }
    }
  }

  // The bytes of some values.

  lemma {:induction false} SmallPacked(n: nat)
    requires n < 128
    ensures PackedNumber(n) == [n]
  {
    assert HighGroups(0) == [];
  }

  /** A number below 128 is one byte, a negative one ten bytes; true is 1, false is 0. */
  lemma {:induction false} ScalarBytes(n: nat)
    requires n < 128
    ensures Encode(Num(n), UInt(8)) == [n] && Encode(Num(n), SInt(16)) == [n]
    ensures Encode(Num(-1), SInt(8)) == [129, 255, 255, 255, 255, 255, 255, 255, 255, 127]
    ensures Encode(Boolean(true), Bool) == [1] && Encode(Boolean(false), Bool) == [0]
  {
    SmallPacked(n);
    SmallPacked(0);
    SmallPacked(1);
    SmallResidue(n, UINT64_RANGE);
    NegativeResidue(-1, UINT64_RANGE);
    AllOnesPacked();
    hide PackedNumber;
  }

  lemma {:induction false} AllOnesPacked()
    ensures PackedNumber(0xFFFF_FFFF_FFFF_FFFF) == [129, 255, 255, 255, 255, 255, 255, 255, 255, 127]
  {
    assert HighGroups(1) == [129];
    assert HighGroups(0xFF) == [129, 255];
    assert HighGroups(0x7FFF) == [129, 255, 255];
    assert HighGroups(0x3F_FFFF) == [129, 255, 255, 255];
    assert HighGroups(0x1FFF_FFFF) == [129, 255, 255, 255, 255];
    assert HighGroups(0xF_FFFF_FFFF) == [129, 255, 255, 255, 255, 255];
    assert HighGroups(0x7FF_FFFF_FFFF) == [129, 255, 255, 255, 255, 255, 255];
    assert HighGroups(0x3_FFFF_FFFF_FFFF) == [129, 255, 255, 255, 255, 255, 255, 255];
    assert HighGroups(0x1FF_FFFF_FFFF_FFFF) == [129, 255, 255, 255, 255, 255, 255, 255, 255];
  }

  /** Any number that is read is cut to the width of the type; every number but zero is true. */
  lemma {:induction false} NumberRead(n: UInt64, rest: seq<Byte>)
    ensures var s := PackedNumber(n) + rest;
      && Decode(UInt(8), s) == Parsed(Num(n % 0x100), rest) && Decode(UInt(16), s) == Parsed(Num(n % 0x1_0000), rest)
      && Decode(UInt(32), s) == Parsed(Num(n % 0x1_0000_0000), rest) && Decode(UInt(64), s) == Parsed(Num(n), rest)
      && Decode(SInt(32), s) == Parsed(Num(if n / 0x8000_0000 % 2 == 0 then n % 0x8000_0000
                                           else n % 0x8000_0000 - 0x8000_0000), rest)
      && Decode(Bool, s) == Parsed(Boolean(n > 0), rest)
  {
    hide ParseNumber, PackedNumber;
    NumberRoundTrip(n, rest);
    SmallResidue(n, UINT64_RANGE);
    HalfResidue(n);
  }

  lemma {:induction false} HalfResidue(n: nat)
    ensures var m := n % 0x1_0000_0000;
      (if m < 0x8000_0000 then m else m - 0x1_0000_0000) ==
      if n / 0x8000_0000 % 2 == 0 then n % 0x8000_0000 else n % 0x8000_0000 - 0x8000_0000
  {
  }

  /** A set that is read has no member twice, a map no key; which of several comes first, stays. */
  lemma {:induction false} NothingTwice(t: Type, n: nat, s: seq<Byte>, acc: seq<Value>)
    requires GoodType(t) && IsContainer(t)
    requires (t.Set? ==> AllDifferent(acc)) && (t.Map? ==> KeysDifferent(acc))
    ensures match DecodeMany(t, n, s, acc)
      case Short => true
      case Parsed(v, r) =>
        v.Many? && acc <= v.vs && (t.Set? ==> AllDifferent(v.vs)) && (t.Map? ==> KeysDifferent(v.vs))
    decreases n
  {
    hide Decode;
    if n > 0 {
      match Decode(ElementType(t), s)
      case Short =>
      case Parsed(v, r) => NothingTwice(t, n - 1, r, Add(t, acc, v));
    }
  }
}
