/**
 * The shift register that the reflected CRCs stand for. A register of 16 or 32 bits is the low end of one of
 * 64 bits here, so that one theory serves all three.
 */
module CrcRegister {
  // The operations on the register, by name; most proofs need not look at its bits.

  function Xor(x: bv64, y: bv64): bv64 {
    x ^ y
  }

  function Half(x: bv64): bv64 {
    x >> 1
  }

  function Twice(x: bv64): bv64 {
    x << 1
  }

  predicate Odd(x: bv64) {
    x & 1 == 1
  }

  /** The lowest eight bits, what is above them, and the way back up. */
  function Low8(x: bv64): bv64 {
    x & 0xFF
  }

  function Drop8(x: bv64): bv64 {
    x >> 8
  }

  function Raise8(x: bv64): bv64 {
    x << 8
  }

  predicate TopClear(x: bv64) {
    x & 0x8000_0000_0000_0000 == 0
  }

  predicate TopByteClear(x: bv64) {
    x & 0x00FF_FFFF_FFFF_FFFF == x
  }

  function Widen(b: bv8): bv64 {
    b as bv64
  }

  /** One step of the register; the polynomial has its lowest power in the highest bit. */
  function Shift1(poly: bv64, c: bv64): bv64 {
    if c & 1 == 1 then (c >> 1) ^ poly else c >> 1
  }

  function Steps(poly: bv64, c: bv64, n: nat): bv64
    decreases n
  {
    if n == 0 then c else Steps(poly, Shift1(poly, c), n - 1)
  }

  function Shift8(poly: bv64, c: bv64): bv64 {
    Shift1(poly, Shift1(poly, Shift1(poly, Shift1(poly,
      Shift1(poly, Shift1(poly, Shift1(poly, Shift1(poly, c))))))))
  }

  // The bit-serial definition: each bit of the message, lowest first, meets the lowest bit of the register.

  function SerialBit(poly: bv64, c: bv64, bit: bool): bv64 {
    if (c & 1 == 1) != bit then (c >> 1) ^ poly else c >> 1
  }

  /** Takes in the lowest n bits of w. */
  function SerialBits(poly: bv64, c: bv64, w: bv64, n: nat): bv64
    decreases n
  {
    if n == 0 then c else SerialBits(poly, SerialBit(poly, c, Odd(w)), Half(w), n - 1)
  }

  function SerialByte(poly: bv64, c: bv64, b: bv8): bv64 {
    SerialBits(poly, c, Widen(b), 8)
  }

  function Serial(poly: bv64, c: bv64, m: seq<bv8>): bv64 {
    if m == [] then c else SerialByte(poly, Serial(poly, c, m[..|m| - 1]), m[|m| - 1])
  }

  // One byte.

  /** Eight steps, after the byte has met the low end of the register. */
  function TakeByte(poly: bv64, c: bv64, b: bv8): bv64 {
    Shift8(poly, Xor(c, Widen(b)))
  }

  lemma {:induction false} SerialStepBits(poly: bv64, t: bv64, w: bv64)
    ensures SerialBit(poly, t ^ w, w & 1 == 1) == Shift1(poly, t) ^ (w >> 1)
  {
  }

  /** The register while w is taken in, in terms of the register that has already met it. */
  lemma {:induction false} SerialStep(poly: bv64, t: bv64, w: bv64)
    ensures SerialBit(poly, Xor(t, w), Odd(w)) == Xor(Shift1(poly, t), Half(w))
  {
    hide SerialBit, Shift1;
    SerialStepBits(poly, t, w);
  }

  lemma {:induction false} WaitStepBits(poly: bv64, u: bv64, v: bv64)
    requires v & 0x8000_0000_0000_0000 == 0
    ensures Shift1(poly, u ^ (v << 1)) == Shift1(poly, u) ^ v
  {
  }

  /** A value that waits above the lowest bit comes down unchanged. */
  lemma {:induction false} WaitStep(poly: bv64, u: bv64, v: bv64)
    requires TopClear(v)
    ensures Shift1(poly, Xor(u, Twice(v))) == Xor(Shift1(poly, u), v)
  {
    hide Shift1;
    WaitStepBits(poly, u, v);
  }

  function Down(w: bv64, n: nat): bv64
    decreases n
  {
    if n == 0 then w else Down(Half(w), n - 1)
  }

  function Up(v: bv64, n: nat): bv64
    decreases n
  {
    if n == 0 then v else Twice(Up(v, n - 1))
  }

  lemma {:induction false} EightSteps(poly: bv64, c: bv64)
    ensures Steps(poly, c, 8) == Shift8(poly, c)
  {
    hide Shift1;
  }

  lemma {:induction false} SerialIsSteps(poly: bv64, t: bv64, w: bv64, n: nat)
    ensures SerialBits(poly, Xor(t, w), w, n) == Xor(Steps(poly, t, n), Down(w, n))
    decreases n
  {
    hide Xor, Half, Twice, Odd, Shift1, SerialBit;
    if n > 0 {
      SerialStep(poly, t, w);
      SerialIsSteps(poly, Shift1(poly, t), Half(w), n - 1);
    }
  }

  lemma {:induction false} EightHalves(b: bv8)
    ensures Half(Half(Half(Half(Half(Half(Half(Half(Widen(b))))))))) == 0
  {
  }

  lemma {:induction false} EightDown(w: bv64)
    ensures Down(w, 8) == Half(Half(Half(Half(Half(Half(Half(Half(w))))))))
  {
    hide Half;
  }

  lemma {:induction false} XorTwice(x: bv64, y: bv64)
    ensures Xor(Xor(x, y), y) == x
  {
  }

  lemma {:induction false} XorZero(x: bv64)
    ensures Xor(x, 0) == x
  {
  }

  /** The bit-serial register takes in a byte as eight steps after meeting it. */
  lemma {:induction false} SerialIsTake(poly: bv64, c: bv64, b: bv8)
    ensures SerialByte(poly, c, b) == TakeByte(poly, c, b)
  {
    hide SerialBits, Steps, Xor, Shift8, Down, Widen, Half;
    var w, m := Widen(b), Xor(c, Widen(b));
    XorTwice(c, w);
    SerialIsSteps(poly, m, w, 8);
    EightSteps(poly, m);
    EightHalves(b);
    EightDown(w);
    XorZero(Shift8(poly, m));
  }

  lemma {:induction false} RoomFor(v: bv64)
    requires TopByteClear(v)
    ensures TopClear(v) && TopClear(Twice(v)) && TopClear(Twice(Twice(v))) && TopClear(Twice(Twice(Twice(v))))
    ensures TopClear(Twice(Twice(Twice(Twice(v))))) && TopClear(Twice(Twice(Twice(Twice(Twice(v))))))
    ensures TopClear(Twice(Twice(Twice(Twice(Twice(Twice(v)))))))
    ensures TopClear(Twice(Twice(Twice(Twice(Twice(Twice(Twice(v))))))))
  {
  }

  lemma {:induction false} EightTwice(v: bv64)
    ensures Twice(Twice(Twice(Twice(Twice(Twice(Twice(Twice(v)))))))) == Raise8(v)
  {
  }

  lemma {:induction false} UpUnrolled(v: bv64)
    ensures Up(v, 0) == v && Up(v, 1) == Twice(v) && Up(v, 2) == Twice(Up(v, 1)) && Up(v, 3) == Twice(Up(v, 2))
    ensures Up(v, 4) == Twice(Up(v, 3)) && Up(v, 5) == Twice(Up(v, 4)) && Up(v, 6) == Twice(Up(v, 5))
      && Up(v, 7) == Twice(Up(v, 6))
    ensures Up(v, 8) == Twice(Up(v, 7))
  {
    hide Twice;
  }

  /** There is room for seven places above a value with a clear top byte. */
  lemma {:induction false} StaysClear(v: bv64, n: nat)
    requires n <= 7 && TopByteClear(v)
    ensures TopClear(Up(v, n))
  {
    hide TopClear, TopByteClear, Up, Twice;
    UpUnrolled(v);
    RoomFor(v);
  }

  lemma {:induction false} WaitSteps(poly: bv64, u: bv64, v: bv64, n: nat)
    requires n <= 8 && TopByteClear(v)
    ensures Steps(poly, Xor(u, Up(v, n)), n) == Xor(Steps(poly, u, n), v)
    decreases n
  {
    hide Xor, Half, Twice, Odd, Shift1, TopClear, TopByteClear;
    if n > 0 {
      StaysClear(v, n - 1);
      WaitStep(poly, u, Up(v, n - 1));
      WaitSteps(poly, Shift1(poly, u), v, n - 1);
    }
  }

  /** A value that waits above the low byte comes down unchanged. */
  lemma {:induction false} Waiting(poly: bv64, u: bv64, v: bv64)
    requires TopByteClear(v)
    ensures Shift8(poly, Xor(u, Raise8(v))) == Xor(Shift8(poly, u), v)
  {
    hide Shift8, Xor, Steps, Up, TopByteClear, Twice, Raise8;
    UpUnrolled(v);
    EightTwice(v);
    WaitSteps(poly, u, v, 8);
    EightSteps(poly, u);
    EightSteps(poly, Xor(u, Raise8(v)));
  }

  lemma {:induction false} Parts(x: bv64)
    ensures Xor(Low8(x), Raise8(Drop8(x))) == x && TopByteClear(Drop8(x))
  {
  }

  /** A table entry for the low byte, and the rest moved down: this is what taking in a byte comes to. */
  lemma {:induction false} TableStep(poly: bv64, c: bv64, b: bv8, entry: bv64)
    requires entry == Shift8(poly, Low8(Xor(c, Widen(b))))
    ensures Xor(entry, Drop8(Xor(c, Widen(b)))) == SerialByte(poly, c, b)
  {
    hide Shift8, SerialByte, TopByteClear, Widen, Xor, Low8, Drop8, Raise8;
    var x := Xor(c, Widen(b));
    Parts(x);
    Waiting(poly, Low8(x), Drop8(x));
    SerialIsTake(poly, c, b);
  }

  // Whole messages.

  lemma {:induction false} SerialConcat(poly: bv64, c: bv64, a: seq<bv8>, b: seq<bv8>)
    ensures Serial(poly, c, a + b) == Serial(poly, Serial(poly, c, a), b)
  {
    hide SerialByte;
    if b == [] {
      assert a + b == a;
    } else {
      assert (a + b)[..|a + b| - 1] == a + b[..|b| - 1];
      SerialConcat(poly, c, a, b[..|b| - 1]);
    }
  }

  lemma {:induction false} SerialMore(poly: bv64, c: bv64, m: seq<bv8>, i: nat)
    requires i < |m|
    ensures Serial(poly, c, m[..i + 1]) == SerialByte(poly, Serial(poly, c, m[..i]), m[i])
  {
    hide SerialByte;
    assert m[..i + 1][..i] == m[..i];
  }

  lemma {:induction false} NothingTaken(poly: bv64, c: bv64)
    ensures forall m: seq<bv8> :: |m| == 0 ==> Serial(poly, c, m) == c
  {
  }

  /** One more byte, and the register is known again. */
  lemma {:induction false} TakesTo(poly: bv64, c0: bv64, m: seq<bv8>, i: nat, c: bv64, next: bv64)
    requires i < |m| && Serial(poly, c0, m[..i]) == c && TakeByte(poly, c, m[i]) == next
    ensures Serial(poly, c0, m[..i + 1]) == next
  {
    hide Serial, SerialByte, TakeByte;
    SerialMore(poly, c0, m, i);
    SerialIsTake(poly, c, m[i]);
  }

  // Up to eight bytes at once.

  /** A byte below others that wait. */
  function Join(b: bv8, t: bv64): bv64 {
    Xor(Widen(b), Raise8(t))
  }

  /** Bytes side by side, the first one lowest. */
  function Pack(m: seq<bv8>): bv64 {
    if m == [] then 0 else Join(m[0], Pack(m[1..]))
  }

  /** The bits that k bytes take, from the lowest on. */
  function Mask(k: nat): bv64 {
    if k == 0 then 0 else MaskJoin(Mask(k - 1))
  }

  function MaskJoin(m: bv64): bv64 {
    (m << 8) | 0xFF
  }

  predicate Within(x: bv64, mask: bv64) {
    x & mask == x
  }

  lemma {:induction false} JoinWithin(b: bv8, t: bv64, mask: bv64)
    requires Within(t, mask)
    ensures Within(Join(b, t), MaskJoin(mask))
  {
  }

  lemma {:induction false} MaskJoinWithin(x: bv64, mask: bv64)
    requires Within(x, mask)
    ensures Within(MaskJoin(x), MaskJoin(mask))
  {
  }

  lemma {:induction false} WithinBoth(x: bv64, y: bv64, z: bv64)
    requires Within(x, y) && Within(y, z)
    ensures Within(x, z)
  {
  }

  lemma {:induction false} NothingWithin(mask: bv64)
    ensures Within(0, mask) && Within(mask, mask)
  {
  }

  lemma {:induction false} XorWithin(x: bv64, y: bv64, mask: bv64)
    requires Within(x, mask) && Within(y, mask)
    ensures Within(Xor(x, y), mask)
  {
  }

  lemma {:induction false} PackWithin(m: seq<bv8>)
    ensures Within(Pack(m), Mask(|m|))
  {
    hide Within, Join, MaskJoin;
    if m == [] {
      NothingWithin(Mask(0));
    } else {
      PackWithin(m[1..]);
      JoinWithin(m[0], Pack(m[1..]), Mask(|m| - 1));
    }
  }

  lemma {:induction false} MaskGrows(k: nat, n: nat)
    requires k <= n
    ensures Within(Mask(k), Mask(n))
  {
    hide Within, MaskJoin;
    if k == 0 {
      NothingWithin(Mask(n));
    } else {
      MaskGrows(k - 1, n - 1);
      MaskJoinWithin(Mask(k - 1), Mask(n - 1));
    }
  }

  lemma {:induction false} SevenBytes()
    ensures Mask(7) == 0x00FF_FFFF_FFFF_FFFF
  {
  }

  /** Fewer than eight bytes leave the top byte clear. */
  lemma {:induction false} PackTopClear(m: seq<bv8>)
    requires |m| <= 7
    ensures TopByteClear(Pack(m))
  {
    hide Pack, Mask;
    PackWithin(m);
    MaskGrows(|m|, 7);
    SevenBytes();
    WithinBoth(Pack(m), Mask(|m|), Mask(7));
  }

  function ShiftBytes(poly: bv64, x: bv64, k: nat): bv64
    decreases k
  {
    if k == 0 then x else ShiftBytes(poly, Shift8(poly, x), k - 1)
  }

  lemma {:induction false} JoinMet(c: bv64, b: bv8, t: bv64)
    ensures Xor(Xor(c, Widen(b)), Raise8(t)) == Xor(c, Join(b, t))
  {
  }

  /** Taking in a byte while others wait. */
  lemma {:induction false} TakeWhileWaiting(poly: bv64, c: bv64, b: bv8, t: bv64)
    requires TopByteClear(t)
    ensures Xor(TakeByte(poly, c, b), t) == Shift8(poly, Xor(c, Join(b, t)))
  {
    hide Xor, Shift8, Join, TopByteClear, Widen, Raise8;
    Waiting(poly, Xor(c, Widen(b)), t);
    JoinMet(c, b, t);
  }

  lemma {:induction false} FirstTaken(poly: bv64, c: bv64, b: bv8)
    ensures Serial(poly, c, [b]) == TakeByte(poly, c, b)
  {
    hide SerialByte, TakeByte;
    SerialIsTake(poly, c, b);
    assert [b][..0] == [];
  }

  /** Taking in up to eight bytes one by one is the same as meeting them all at once and then shifting. */
  lemma {:induction false} SerialOfPacked(poly: bv64, c: bv64, m: seq<bv8>)
    requires |m| <= 8
    ensures Serial(poly, c, m) == ShiftBytes(poly, Xor(c, Pack(m)), |m|)
    decreases |m|
  {
    hide Shift8, SerialByte, Xor, TakeByte, Join, TopByteClear;
    if m == [] {
      XorZero(c);
    } else {
      var t := m[1..];
      assert m == [m[0]] + t;
      SerialConcat(poly, c, [m[0]], t);
      FirstTaken(poly, c, m[0]);
      SerialOfPacked(poly, TakeByte(poly, c, m[0]), t);
      PackTopClear(t);
      TakeWhileWaiting(poly, c, m[0], Pack(t));
    }
  }

  lemma {:induction false} JoinParts(b: bv8, t: bv64)
    requires TopByteClear(t)
    ensures (Low8(Join(b, t)) as bv8) == b && Drop8(Join(b, t)) == t
  {
  }

  lemma {:induction false} PackInjective(a: seq<bv8>, b: seq<bv8>)
    requires |a| == |b| <= 8 && Pack(a) == Pack(b)
    ensures a == b
    decreases |a|
  {
    hide Join, TopByteClear, Low8, Drop8;
    if a != [] {
      PackTopClear(a[1..]);
      PackTopClear(b[1..]);
      JoinParts(a[0], Pack(a[1..]));
      JoinParts(b[0], Pack(b[1..]));
      PackInjective(a[1..], b[1..]);
      assert a == [a[0]] + a[1..] && b == [b[0]] + b[1..];
    }
  }

  // Registers of a given width can be run backwards.

  /** A register of so many bytes, its polynomial, its highest bit, and all its bits. */
  datatype Register = Register(width: nat, poly: bv64, top: bv64, mask: bv64) {
    /** The polynomial has the highest bit set. */
    ghost predicate Valid() {
      && ((width == 2 && top == 0x8000 && mask == 0xFFFF)
          || (width == 4 && top == 0x8000_0000 && mask == 0xFFFF_FFFF)
          || (width == 8 && top == 0x8000_0000_0000_0000 && mask == 0xFFFF_FFFF_FFFF_FFFF))
      && poly & top == top && poly & mask == poly
    }
  }

  predicate TopBitClear(c: bv64, top: bv64) {
    c & top == 0
  }

  function Unshift1(poly: bv64, top: bv64, c: bv64): bv64 {
    if TopBitClear(c, top) then c << 1 else ((c ^ poly) << 1) | 1
  }

  lemma {:induction false} Back16(poly: bv64, c: bv64)
    requires poly & 0x8000 == 0x8000 && poly & 0xFFFF == poly && c & 0xFFFF == c
    ensures Unshift1(poly, 0x8000, Shift1(poly, c)) == c && Within(Shift1(poly, c), 0xFFFF)
  {
  }

  lemma {:induction false} ForthClear16(poly: bv64, c: bv64)
    requires c & 0xFFFF == c && TopBitClear(c, 0x8000)
    ensures Shift1(poly, Unshift1(poly, 0x8000, c)) == c && Within(Unshift1(poly, 0x8000, c), 0xFFFF)
  {
  }

  lemma {:induction false} ForthSet16(poly: bv64, c: bv64)
    requires poly & 0x8000 == 0x8000 && poly & 0xFFFF == poly && c & 0xFFFF == c && !TopBitClear(c, 0x8000)
    ensures Shift1(poly, Unshift1(poly, 0x8000, c)) == c && Within(Unshift1(poly, 0x8000, c), 0xFFFF)
  {
  }

  lemma {:induction false} Back32(poly: bv64, c: bv64)
    requires poly & 0x8000_0000 == 0x8000_0000 && poly & 0xFFFF_FFFF == poly && c & 0xFFFF_FFFF == c
    ensures Unshift1(poly, 0x8000_0000, Shift1(poly, c)) == c && Within(Shift1(poly, c), 0xFFFF_FFFF)
  {
  }

  lemma {:induction false} ForthClear32(poly: bv64, c: bv64)
    requires c & 0xFFFF_FFFF == c && TopBitClear(c, 0x8000_0000)
    ensures Shift1(poly, Unshift1(poly, 0x8000_0000, c)) == c && Within(Unshift1(poly, 0x8000_0000, c), 0xFFFF_FFFF)
  {
  }

  lemma {:induction false} ForthSet32(poly: bv64, c: bv64)
    requires poly & 0x8000_0000 == 0x8000_0000 && poly & 0xFFFF_FFFF == poly && c & 0xFFFF_FFFF == c
      && !TopBitClear(c, 0x8000_0000)
    ensures Shift1(poly, Unshift1(poly, 0x8000_0000, c)) == c && Within(Unshift1(poly, 0x8000_0000, c), 0xFFFF_FFFF)
  {
  }

  lemma {:induction false} Back64(poly: bv64, c: bv64)
    requires poly & 0x8000_0000_0000_0000 == 0x8000_0000_0000_0000 && poly & 0xFFFF_FFFF_FFFF_FFFF == poly
      && c & 0xFFFF_FFFF_FFFF_FFFF == c
    ensures Unshift1(poly, 0x8000_0000_0000_0000, Shift1(poly, c)) == c
      && Within(Shift1(poly, c), 0xFFFF_FFFF_FFFF_FFFF)
  {
  }

  lemma {:induction false} ForthClear64(poly: bv64, c: bv64)
    requires c & 0xFFFF_FFFF_FFFF_FFFF == c && TopBitClear(c, 0x8000_0000_0000_0000)
    ensures Shift1(poly, Unshift1(poly, 0x8000_0000_0000_0000, c)) == c
      && Within(Unshift1(poly, 0x8000_0000_0000_0000, c), 0xFFFF_FFFF_FFFF_FFFF)
  {
  }

  lemma {:induction false} ForthSet64(poly: bv64, c: bv64)
    requires poly & 0x8000_0000_0000_0000 == 0x8000_0000_0000_0000 && poly & 0xFFFF_FFFF_FFFF_FFFF == poly
      && c & 0xFFFF_FFFF_FFFF_FFFF == c && !TopBitClear(c, 0x8000_0000_0000_0000)
    ensures Shift1(poly, Unshift1(poly, 0x8000_0000_0000_0000, c)) == c
      && Within(Unshift1(poly, 0x8000_0000_0000_0000, c), 0xFFFF_FFFF_FFFF_FFFF)
  {
  }

  lemma {:induction false} Forth16(poly: bv64, c: bv64)
    requires poly & 0x8000 == 0x8000 && poly & 0xFFFF == poly && c & 0xFFFF == c
    ensures Shift1(poly, Unshift1(poly, 0x8000, c)) == c && Within(Unshift1(poly, 0x8000, c), 0xFFFF)
  {
    hide Shift1, Unshift1, TopBitClear, Within;
    if TopBitClear(c, 0x8000) {
      ForthClear16(poly, c);
    } else {
      ForthSet16(poly, c);
    }
  }

  lemma {:induction false} Forth32(poly: bv64, c: bv64)
    requires poly & 0x8000_0000 == 0x8000_0000 && poly & 0xFFFF_FFFF == poly && c & 0xFFFF_FFFF == c
    ensures Shift1(poly, Unshift1(poly, 0x8000_0000, c)) == c && Within(Unshift1(poly, 0x8000_0000, c), 0xFFFF_FFFF)
  {
    hide Shift1, Unshift1, TopBitClear, Within;
    if TopBitClear(c, 0x8000_0000) {
      ForthClear32(poly, c);
    } else {
      ForthSet32(poly, c);
    }
  }

  lemma {:induction false} Forth64(poly: bv64, c: bv64)
    requires poly & 0x8000_0000_0000_0000 == 0x8000_0000_0000_0000 && poly & 0xFFFF_FFFF_FFFF_FFFF == poly
      && c & 0xFFFF_FFFF_FFFF_FFFF == c
    ensures Shift1(poly, Unshift1(poly, 0x8000_0000_0000_0000, c)) == c
      && Within(Unshift1(poly, 0x8000_0000_0000_0000, c), 0xFFFF_FFFF_FFFF_FFFF)
  {
    hide Shift1, Unshift1, TopBitClear, Within;
    if TopBitClear(c, 0x8000_0000_0000_0000) {
      ForthClear64(poly, c);
    } else {
      ForthSet64(poly, c);
    }
  }

  lemma {:induction false} ShiftThenUnshift(r: Register, c: bv64)
    requires r.Valid() && Within(c, r.mask)
    ensures Unshift1(r.poly, r.top, Shift1(r.poly, c)) == c && Within(Shift1(r.poly, c), r.mask)
  {
    hide Shift1, Unshift1;
    if r.width == 2 {
      Back16(r.poly, c);
    } else if r.width == 4 {
      Back32(r.poly, c);
    } else {
      Back64(r.poly, c);
    }
  }

  lemma {:induction false} UnshiftThenShift(r: Register, c: bv64)
    requires r.Valid() && Within(c, r.mask)
    ensures Shift1(r.poly, Unshift1(r.poly, r.top, c)) == c && Within(Unshift1(r.poly, r.top, c), r.mask)
  {
    hide Shift1, Unshift1;
    if r.width == 2 {
      Forth16(r.poly, c);
    } else if r.width == 4 {
      Forth32(r.poly, c);
    } else {
      Forth64(r.poly, c);
    }
  }

  function UnshiftSteps(r: Register, c: bv64, n: nat): bv64
    decreases n
  {
    if n == 0 then c else Unshift1(r.poly, r.top, UnshiftSteps(r, c, n - 1))
  }

  lemma {:induction false} StepsInvertible(r: Register, c: bv64, n: nat)
    requires r.Valid() && Within(c, r.mask)
    ensures UnshiftSteps(r, Steps(r.poly, c, n), n) == c && Within(Steps(r.poly, c, n), r.mask)
    ensures Steps(r.poly, UnshiftSteps(r, c, n), n) == c && Within(UnshiftSteps(r, c, n), r.mask)
    decreases n
  {
    hide Shift1, Unshift1, Within, Register.Valid;
    if n > 0 {
      ShiftThenUnshift(r, c);
      StepsInvertible(r, Shift1(r.poly, c), n - 1);
      StepsInvertible(r, c, n - 1);
      UnshiftThenShift(r, UnshiftSteps(r, c, n - 1));
    }
  }

  /** Each byte step is a bijection on the register. */
  lemma {:induction false} Shift8Bijective(r: Register, c: bv64)
    requires r.Valid() && Within(c, r.mask)
    ensures UnshiftSteps(r, Shift8(r.poly, c), 8) == c && Within(Shift8(r.poly, c), r.mask)
    ensures Shift8(r.poly, UnshiftSteps(r, c, 8)) == c && Within(UnshiftSteps(r, c, 8), r.mask)
  {
    hide Shift8, UnshiftSteps, Steps, Within, Register.Valid;
    StepsInvertible(r, c, 8);
    EightSteps(r.poly, c);
    EightSteps(r.poly, UnshiftSteps(r, c, 8));
  }

  lemma {:induction false} ShiftBytesInjective(r: Register, x: bv64, y: bv64, k: nat)
    requires r.Valid() && Within(x, r.mask) && Within(y, r.mask) && ShiftBytes(r.poly, x, k) == ShiftBytes(r.poly, y, k)
    ensures x == y
    decreases k
  {
    hide Shift8, UnshiftSteps, Within, Register.Valid;
    if k > 0 {
      Shift8Bijective(r, x);
      Shift8Bijective(r, y);
      ShiftBytesInjective(r, Shift8(r.poly, x), Shift8(r.poly, y), k - 1);
    }
  }

  lemma {:induction false} XorInjective(x: bv64, y: bv64, z: bv64)
    ensures Xor(x, z) == Xor(y, z) ==> x == y
    ensures Xor(z, x) == Xor(z, y) ==> x == y
  {
  }

  lemma {:induction false} ByteWithin(r: Register, b: bv8)
    requires r.Valid()
    ensures Within(Widen(b), r.mask)
  {
  }

  /** The register stays a register. */
  lemma {:induction false} SerialWithin(r: Register, c: bv64, m: seq<bv8>)
    requires r.Valid() && Within(c, r.mask)
    ensures Within(Serial(r.poly, c, m), r.mask)
  {
    hide Shift8, UnshiftSteps, SerialByte, Xor, Widen, Within, Register.Valid;
    if m != [] {
      var t, b := m[..|m| - 1], m[|m| - 1];
      SerialWithin(r, c, t);
      TakenWithin(r, Serial(r.poly, c, t), b);
    }
  }

  lemma {:induction false} TakenWithin(r: Register, c: bv64, b: bv8)
    requires r.Valid() && Within(c, r.mask)
    ensures Within(SerialByte(r.poly, c, b), r.mask) && Within(Xor(c, Widen(b)), r.mask)
  {
    hide Shift8, UnshiftSteps, SerialByte, Xor, Widen, Within, Register.Valid;
    SerialIsTake(r.poly, c, b);
    ByteWithin(r, b);
    XorWithin(c, Widen(b), r.mask);
    Shift8Bijective(r, Xor(c, Widen(b)));
  }

  lemma {:induction false} TakenInjective(r: Register, x: bv64, y: bv64, b: bv8)
    requires r.Valid() && Within(x, r.mask) && Within(y, r.mask) && SerialByte(r.poly, x, b) == SerialByte(r.poly, y, b)
    ensures x == y
  {
    hide Shift8, UnshiftSteps, SerialByte, Xor, Widen, Within, Register.Valid;
    SerialIsTake(r.poly, x, b);
    SerialIsTake(r.poly, y, b);
    TakenWithin(r, x, b);
    TakenWithin(r, y, b);
    Shift8Bijective(r, Xor(x, Widen(b)));
    Shift8Bijective(r, Xor(y, Widen(b)));
    XorInjective(x, y, Widen(b));
  }

  /** Different registers stay different while the same bytes follow. */
  lemma {:induction false} SerialInjective(r: Register, x: bv64, y: bv64, m: seq<bv8>)
    requires r.Valid() && Within(x, r.mask) && Within(y, r.mask) && Serial(r.poly, x, m) == Serial(r.poly, y, m)
    ensures x == y
  {
    hide SerialByte, Within, Register.Valid;
    if m != [] {
      var t, b := m[..|m| - 1], m[|m| - 1];
      SerialWithin(r, x, t);
      SerialWithin(r, y, t);
      TakenInjective(r, Serial(r.poly, x, t), Serial(r.poly, y, t), b);
      SerialInjective(r, x, y, t);
    }
  }

  lemma {:induction false} MasksOfRegisters(r: Register)
    requires r.Valid()
    ensures r.width <= 8 && Mask(r.width) == r.mask
  {
    assert Mask(2) == 0xFFFF && Mask(4) == 0xFFFF_FFFF && Mask(8) == 0xFFFF_FFFF_FFFF_FFFF;
  }

  lemma {:induction false} PackFits(r: Register, c: bv64, m: seq<bv8>)
    requires r.Valid() && Within(c, r.mask) && |m| <= r.width
    ensures Within(Xor(c, Pack(m)), r.mask)
  {
    hide Pack, Mask, Within, Xor, Register.Valid;
    MasksOfRegisters(r);
    PackWithin(m);
    MaskGrows(|m|, r.width);
    WithinBoth(Pack(m), Mask(|m|), r.mask);
    XorWithin(c, Pack(m), r.mask);
  }

  /** Messages that differ only within as many consecutive bytes as the register has leave it in different states. */
  lemma {:induction false} BurstDetected(r: Register, c0: bv64, before: seq<bv8>, a: seq<bv8>, b: seq<bv8>,
          after: seq<bv8>)
    requires r.Valid() && Within(c0, r.mask) && |a| == |b| <= r.width
    ensures Serial(r.poly, c0, before + a + after) == Serial(r.poly, c0, before + b + after) <==> a == b
  {
    hide Serial, Pack, ShiftBytes, Xor, Within, Register.Valid;
    var c := Serial(r.poly, c0, before);
    MasksOfRegisters(r);
    SerialConcat(r.poly, c0, before + a, after);
    SerialConcat(r.poly, c0, before + b, after);
    SerialConcat(r.poly, c0, before, a);
    SerialConcat(r.poly, c0, before, b);
    SerialOfPacked(r.poly, c, a);
    SerialOfPacked(r.poly, c, b);
    if Serial(r.poly, c0, before + a + after) == Serial(r.poly, c0, before + b + after) {
      SerialWithin(r, c0, before);
      SerialWithin(r, c, a);
      SerialWithin(r, c, b);
      SerialInjective(r, Serial(r.poly, c, a), Serial(r.poly, c, b), after);
      PackFits(r, c, a);
      PackFits(r, c, b);
      ShiftBytesInjective(r, Xor(c, Pack(a)), Xor(c, Pack(b)), |a|);
      XorInjective(Pack(a), Pack(b), c);
      PackInjective(a, b);
    }
  }

  /** If the last bytes are those of the register, lowest first, xored with x, what remains depends on x alone. */
  lemma {:induction false} MeetsItself(poly: bv64, c: bv64, tail: seq<bv8>, x: bv64)
    requires |tail| <= 8 && Pack(tail) == Xor(c, x)
    ensures Serial(poly, c, tail) == ShiftBytes(poly, x, |tail|)
  {
    hide Serial, ShiftBytes, Pack, Xor;
    SerialOfPacked(poly, c, tail);
    XorBack(c, x);
  }

  lemma {:induction false} XorBack(x: bv64, y: bv64)
    ensures Xor(x, Xor(x, y)) == y
  {
  }
}
