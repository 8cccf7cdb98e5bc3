/** The bit reader of the JPEG decoder. */
module JpegBitReader {
  import opened MachineNumbers
  import opened Powers
  import opened BitStrings
  import opened EntropyData
  import opened VlcTable
  import W = JpegBitWriter

  /** Of the bits all, done have been loaded; the bytes rest still have to be. */
  ghost predicate Loaded(done: seq<bool>, rest: seq<Byte>, all: seq<bool>) {
    if |done| <= |all| then done + Unstuff(rest) == all else rest == [] && done == all + Ones(|done| - |all|)
  }

  lemma {:induction false} LoadMore(done: seq<bool>, rest: seq<Byte>, all: seq<bool>, more: seq<bool>,
          rest': seq<Byte>)
    requires Loaded(done, rest, all) && rest != [] && Unstuff(rest) == more + Unstuff(rest')
    ensures Loaded(done + more, rest', all)
  {
    UnstuffsSome(rest);
    hide Unstuff;
    assert done + more + Unstuff(rest') == done + (more + Unstuff(rest'));
  }

  lemma {:induction false} UnstuffsSome(rest: seq<Byte>)
    requires rest != []
    ensures |Unstuff(rest)| >= 8
  {
  }

  lemma {:induction false} LoadPastEnd(done: seq<bool>, all: seq<bool>)
    requires Loaded(done, [], all)
    ensures Loaded(done + ByteBits(0xFF), [], all)
  {
    AllOnesByte();
    assert done + Ones(8) == all + Ones(|done| + 8 - |all|);
  }

  /** What has been loaded is what a window shows. */
  lemma {:induction false} LoadedWindow(done: seq<bool>, rest: seq<Byte>, all: seq<bool>, p: nat, n: nat)
    requires Loaded(done, rest, all) && p + n <= |done|
    ensures done[p..p + n] == Window(all, p, n)
  {
  }

  /** The low n bits of the register, a byte appended. */
  lemma {:induction false} AppendByte(buf: nat, n: nat, c: Byte)
    requires n + 8 <= 32
    ensures ToBits(BitOr(Shl(buf, 8) % UINT32_RANGE, c), n + 8) == ToBits(buf, n) + ByteBits(c)
    ensures BitOr(Shl(buf, 8) % UINT32_RANGE, c) < UINT32_RANGE
  {
    hide Shl, BitOr, ToBits, Pow2;
    var x, m := Shl(buf, 8) % UINT32_RANGE, n + 8;
    LowOf32(Shl(buf, 8), m);
    ShlBits(buf, 8, m);
    ByteBelow(c);
    W.WidenBits(c, 8, m);
    OrBits(x, c, m);
    assert ToBits(x, m) == ToBits(buf, n) + Zeros(8);
    assert ToBits(c, m) == Zeros(n) + ByteBits(c);
    assert ToBits(BitOr(x, c), m) == ToBits(buf, n) + ByteBits(c);
    var k := 32;
    W.ThirtyTwo(k);
    OrBelow(x, c, k);
  }

  lemma {:induction false} ByteBelow(c: Byte)
    ensures c < Pow2(8)
  {
    assert Pow2(8) == 256;
  }

  lemma {:induction false} LowOf32(x: nat, n: nat)
    requires n <= 32
    ensures ToBits(x % UINT32_RANGE, n) == ToBits(x, n)
  {
    var k := 32;
    W.ThirtyTwo(k);
    LowBits(x, x / UINT32_RANGE, x % UINT32_RANGE, k, n);
  }

  lemma {:induction false} OrBelow(a: nat, b: nat, k: nat)
    requires a < Pow2(k) && b < Pow2(k)
    ensures BitOr(a, b) < Pow2(k)
  {
    if k > 0 {
      OrBelow(a / 2, b / 2, k - 1);
    }
  }

  /** The top n of the low m bits of the register. */
  lemma {:induction false} TopBits(buf: nat, m: nat, n: nat)
    requires n <= m
    ensures Shr(buf, m - n) % Pow2(n) == FromBits(ToBits(buf, m)[..n])
  {
    hide ToBits, FromBits, Shr, Pow2;
    var x := Shr(buf, m - n);
    ShrBits(buf, m - n, n);
    var q, r := DivMod(x, Pow2(n));
    LowBits(x, q, r, n, n);
    FromToBits(r, n);
  }

  lemma {:induction false} DivMod(x: nat, d: nat) returns (q: nat, r: nat)
    requires d > 0
    ensures x == q * d + r && r < d && r == x % d
  {
    q, r := x / d, x % d;
  }

  /** The decoder's status only changes to report malformed data. */
  ghost predicate OnlyReports(before: DecodeResult, after: DecodeResult, data: seq<Byte>) {
    after == before || (after == SyntaxError && (before == OK ==> !Clean(data)))
  }

  /** The bytes still to be read. */
  function Slice(d: seq<Byte>, pos: nat, size: nat): seq<Byte>
    requires pos + size <= |d|
  {
    d[pos..pos + size]
  }

  lemma {:induction false} SliceNext(d: seq<Byte>, pos: nat, size: nat)
    requires 0 < size && pos + size <= |d|
    ensures |Slice(d, pos, size)| == size
    ensures Slice(d, pos, size)[0] == d[pos] && Slice(d, pos, size)[1..] == Slice(d, pos + 1, size - 1)
  {
  }

  lemma {:induction false} SliceEmpty(d: seq<Byte>, pos: nat)
    requires pos <= |d|
    ensures Slice(d, pos, 0) == []
  {
  }

  class BitReader {
    const data: seq<Byte>
    var pos: nat
    var size: nat
    var buf: nat
    var bufbits: nat
    var error: DecodeResult
    ghost const all: seq<bool>
    ghost var done: seq<bool>

    /** The low bits of the register are the last ones loaded. */
    ghost predicate Register()
      reads `buf, `bufbits, `done
    {
      bufbits <= |done| && ToBits(buf, bufbits) == done[|done| - bufbits..]
    }

    ghost predicate Valid()
      reads this
    {
      && all == Unstuff(data) && pos + size <= |data| && Loaded(done, Slice(data, pos, size), all)
      && bufbits <= 31 && Register()
      && (error == OK ==> Clean(Slice(data, pos, size)) == Clean(data))
    }

    /** How many bits have been read. */
    ghost function Position(): nat
      requires Valid()
      reads this
    {
      |done| - bufbits
    }

    constructor (d: seq<Byte>)
      ensures Valid() && data == d && Position() == 0 && error == OK
    {
      data, pos, size, buf, bufbits, error := d, 0, |d|, 0, 0, OK;
      all, done := Unstuff(d), [];
      new;
      assert Slice(data, 0, |data|) == data && [] + Unstuff(data) == Unstuff(data);
    }

    /** Appends a byte to the register. */
    method Push(c: Byte)
      requires bufbits <= 23 && Register()
      modifies `buf, `bufbits, `done
      ensures bufbits == old(bufbits) + 8 && done == old(done) + ByteBits(c) && Register()
    {
      hide ToBits, Shl, BitOr, ByteBits;
      AppendByte(buf, bufbits, c);
      buf := BitOr(Shl(buf, 8) % UINT32_RANGE, c);
      bufbits := bufbits + 8;
      done := done + ByteBits(c);
    }

    /** The byte after 0xFF: pads it, ends the data, is data itself, or is an error. */
    method LoadMarker(ghost rest: seq<Byte>) returns (ghost more: seq<bool>)
      requires rest != [] && rest[0] == 0xFF && pos + size <= |data| && Slice(data, pos, size) == rest[1..]
      requires bufbits <= 23 && Register()
      modifies this
      ensures pos + size <= |data| && bufbits == old(bufbits) + |more| && Register()
      ensures bufbits <= old(bufbits) + 8 && done == old(done) + more
      ensures Unstuff(rest) == ByteBits(0xFF) + more + Unstuff(Slice(data, pos, size))
      ensures if error == old(error) then (error == OK ==> Clean(Slice(data, pos, size)) == Clean(rest))
              else error == SyntaxError && !Clean(rest)
    {
      hide ToBits, Unstuff, Clean, Slice, ByteBits, Register;
      UnstuffFirst(rest);
      more := [];
      assert ByteBits(0xFF) + [] == ByteBits(0xFF) && done + [] == done;
      if size > 0 {
        SliceNext(data, pos, size);
        assert rest[1..][0] == rest[1] && rest[1..][1..] == rest[2..];
        var marker := data[pos];
        pos := pos + 1;
        size := size - 1;
        if marker == 0 {
        } else if marker == 0xD9 {
          size := 0;
          SliceEmpty(data, pos);
        } else if !IsRestart(marker) {
          error := SyntaxError;
        } else {
          Push(marker);
          more := ByteBits(marker);
        }
      } else {
        SliceEmpty(data, pos);
        error := SyntaxError;
      }
    }

    /** The next byte of the data, and what it means together with its successor. */
    method LoadNext()
      requires Valid() && bufbits <= 15 && size > 0
      modifies this
      ensures Valid() && bufbits > old(bufbits) && Position() == old(Position())
      ensures OnlyReports(old(error), error, data)
    {
      hide ToBits, Loaded, Unstuff, Clean, Slice, ByteBits, Register;
      ghost var rest, done0 := Slice(data, pos, size), done;
      SliceNext(data, pos, size);
      UnstuffFirst(rest);
      RegisterSize();
      var newbyte := data[pos];
      pos := pos + 1;
      size := size - 1;
      Push(newbyte);
      ghost var more := ByteBits(newbyte);
      if newbyte == 0xFF {
        ghost var extra := LoadMarker(rest);
        Regroup(done0, more, extra);
        more := more + extra;
      }
      LoadMore(done0, rest, all, more, Slice(data, pos, size));
    }

    lemma {:induction false} RegisterSize()
      requires Register()
      ensures bufbits <= |done|
    {
    }

    /** Loads bytes until the register has the wanted number of bits, and shows the next ones. */
    method ShowBits(bits: nat) returns (value: nat)
      requires Valid() && bits <= 16
      modifies this
      ensures Valid() && Position() == old(Position()) && bits <= bufbits && (bits > 0 || bufbits == old(bufbits))
      ensures value == FromBits(Window(all, Position(), bits))
      ensures OnlyReports(old(error), error, data)
    {
      hide Unstuff, Clean, ToBits, FromBits;
      if bits == 0 {
        EmptyWindow(all, Position());
        return 0;
      }
      while bufbits < bits
        invariant Valid() && Position() == old(Position())
        invariant OnlyReports(old(error), error, data)
        decreases bits - bufbits
      {
        if size <= 0 {
          assert Slice(data, pos, size) == [];
          LoadPastEnd(done, all);
          Push(0xFF);
        } else {
          LoadNext();
        }
      }
      LoadedWindow(done, Slice(data, pos, size), all, Position(), bits);
      assert ToBits(buf, bufbits)[..bits] == done[Position()..Position() + bits];
      TopBits(buf, bufbits, bits);
      value := Shr(buf, bufbits - bits) % Pow2(bits);
    }

    method SkipBits(bits: nat)
      requires Valid() && bits <= 16
      modifies this
      ensures Valid() && Position() == old(Position()) + bits
      ensures OnlyReports(old(error), error, data)
    {
      hide Unstuff, Clean, Loaded;
      if bufbits < bits {
        var unused := ShowBits(bits);
      }
      W.LowerBits(buf, bufbits - bits, bits);
      bufbits := bufbits - bits;
    }

    /** Gives up with a syntax error. */
    method Fail()
      requires Valid()
      modifies this
      ensures Valid() && error == SyntaxError && Position() == old(Position())
    {
      error := SyntaxError;
    }

    method GetBits(bits: nat) returns (res: nat)
      requires Valid() && bits <= 16
      modifies this
      ensures Valid() && Position() == old(Position()) + bits
      ensures res == FromBits(Window(all, old(Position()), bits))
      ensures OnlyReports(old(error), error, data)
    {
      res := ShowBits(bits);
      SkipBits(bits);
    }
  }

  lemma {:induction false} Regroup(a: seq<bool>, b: seq<bool>, c: seq<bool>)
    ensures a + b + c == a + (b + c)
  {
  }

  lemma {:induction false} EmptyWindow(all: seq<bool>, p: nat)
    ensures FromBits(Window(all, p, 0)) == 0
  {
  }

  /** What the next one or two bytes stand for. */
  lemma {:induction false} UnstuffFirst(d: seq<Byte>)
    requires d != []
    ensures d[0] != 0xFF ==> Unstuff(d) == ByteBits(d[0]) + Unstuff(d[1..]) && Clean(d) == Clean(d[1..])
    ensures d[0] == 0xFF && |d| == 1 ==> Unstuff(d) == ByteBits(0xFF) + Unstuff(d[1..]) && !Clean(d)
    ensures d[0] == 0xFF && |d| > 1 && d[1] == 0 ==>
      Unstuff(d) == ByteBits(0xFF) + Unstuff(d[2..]) && Clean(d) == Clean(d[2..])
    ensures d[0] == 0xFF && |d| > 1 && d[1] == 0xD9 ==>
      Unstuff(d) == ByteBits(0xFF) + Unstuff([]) && Clean(d) && Clean([])
    ensures d[0] == 0xFF && |d| > 1 && IsRestart(d[1]) ==>
              Unstuff(d) == ByteBits(0xFF) + ByteBits(d[1]) + Unstuff(d[2..]) && Clean(d) == Clean(d[2..])
    ensures d[0] == 0xFF && |d| > 1 && d[1] != 0 && d[1] != 0xD9 && !IsRestart(d[1]) ==>
              Unstuff(d) == ByteBits(0xFF) + Unstuff(d[2..]) && !Clean(d)
  {
  }
}
