/** The byte-stuffed bit stream of a scan (T.81, sections B.1.1.5 and F.1.2.3). */
module StuffedBits {
  import opened MachineNumbers
  import opened Powers
  import opened BitStrings

  /** The bytes that b consists of, eight bits each; bits after the last full byte are left out. */
  ghost function PackBytes(b: seq<bool>): (r: seq<Byte>)
    ensures |r| == |b| / 8
  {
    if |b| < 8 then []
    else
      var k := |b| / 8 * 8;
      PackBytes(b[..k - 8]) + [ByteOf(b[k - 8..k])]
  }

  ghost function ByteOf(b: seq<bool>): (r: Byte)
    requires |b| == 8
  {
    assert Pow2(8) == 256;
    FromBits(b)
  }

  /** A zero byte follows every 0xFF byte of entropy-coded data. */
  ghost function Stuff(r: seq<Byte>): seq<Byte> {
    if r == [] then [] else Stuff(r[..|r| - 1]) + StuffOne(r[|r| - 1])
  }

  function StuffOne(c: Byte): seq<Byte> {
    if c == 0xFF then [c, 0] else [c]
  }

  /** The bytes of a finished scan: its bits, padded with ones to full bytes, stuffed, and the EOI marker. */
  ghost function Finished(b: seq<bool>): seq<Byte> {
    Stuff(PackBytes(b + ToBits(0x7F, 7))) + [0xFF, 0xD9]
  }

  /** In stuffed data every 0xFF is followed by a zero byte. */
  lemma {:induction false} StuffedMarkers(r: seq<Byte>, i: nat)
    requires i < |Stuff(r)| && Stuff(r)[i] == 0xFF
    ensures i + 1 < |Stuff(r)| && Stuff(r)[i + 1] == 0
  {
    var s := Stuff(r[..|r| - 1]);
    if i < |s| {
      StuffedMarkers(r[..|r| - 1], i);
    }
  }

  /** A finished scan ends with the bytes 0xFF and 0xD9, and has no marker before. */
  lemma {:induction false} FinishedMarkers(b: seq<bool>)
    ensures var f, n := Finished(b), |Finished(b)|;
      && n >= 2 && f[n - 2] == 0xFF && f[n - 1] == 0xD9
      && forall i :: 0 <= i < n - 2 && f[i] == 0xFF ==> i + 1 < n - 2 && f[i + 1] == 0
  {
    hide PackBytes, Stuff;
    var r := PackBytes(b + ToBits(0x7F, 7));
    forall i | 0 <= i < |Stuff(r)| && Stuff(r)[i] == 0xFF
      ensures i + 1 < |Stuff(r)| && Stuff(r)[i + 1] == 0
    {
      StuffedMarkers(r, i);
    }
  }

  lemma {:induction false} PackMore(a: seq<bool>, c: seq<bool>)
    requires |a| % 8 == 0 && |c| == 8
    ensures PackBytes(a + c) == PackBytes(a) + [ByteOf(c)]
  {
    var b := a + c;
    assert |b| / 8 * 8 == |a| + 8;
    assert b[..|a|] == a && b[|a|..|a| + 8] == c;
  }

  lemma {:induction false} PackPrefix(a: seq<bool>, c: seq<bool>)
    requires |a| % 8 == 0 && |c| < 8
    ensures PackBytes(a + c) == PackBytes(a)
  {
    var b, k := a + c, |a|;
    assert |b| / 8 * 8 == k == |a| / 8 * 8;
    if k >= 8 {
      assert b[..k - 8] == a[..k - 8] && b[k - 8..k] == a[k - 8..k];
    }
  }
}

/** The bit writer of the JPEG encoder. */
module JpegBitWriter {
  import opened MachineNumbers
  import opened Powers
  import opened BitStrings
  import opened StuffedBits

  const OUT_BUF_SIZE := 2048

  /** The 32-bit register r holds the bits p at the top of its low 24 bits, and zeros below them. */
  ghost predicate Holds(r: nat, p: seq<bool>) {
    |p| <= 24 && ToBits(r, 24) == p + Zeros(24 - |p|)
  }

  lemma {:induction false} PutIntoRegister(r: nat, p: seq<bool>, v: nat, n: nat)
    requires Holds(r, p) && |p| + n <= 24 && v < Pow2(n)
    ensures Holds(BitOr(r, Shl(v, 24 - (|p| + n)) % UINT32_RANGE), p + ToBits(v, n))
  {
    hide ToBits, Shl, BitOr, Pow2;
    var s := 24 - (|p| + n);
    var x := Shl(v, s);
    ShlBits(v, s, 24);
    WidenBits(v, n, 24 - s);
    Low24(x);
    OrBits(r, x % UINT32_RANGE, 24);
    var q := p + ToBits(v, n);
    assert ToBits(x, 24) == Zeros(|p|) + ToBits(v, n) + Zeros(s);
    assert ToBits(BitOr(r, x % UINT32_RANGE), 24) == q + Zeros(s);
  }

  lemma {:induction false} WidenBits(v: nat, n: nat, k: nat)
    requires n <= k && v < Pow2(n)
    ensures ToBits(v, k) == Zeros(k - n) + ToBits(v, n)
    decreases k
  {
    if n == 0 {
      ZeroBits(k);
    } else {
      WidenBits(v / 2, n - 1, k - 1);
    }
  }

  /** Wrapping at 32 bits does not touch the low 24. */
  lemma {:induction false} Low24(x: nat)
    ensures ToBits(x % UINT32_RANGE, 24) == ToBits(x, 24)
  {
    var q, k, n := x / UINT32_RANGE, 32, 24;
    ThirtyTwo(k);
    LowBits(x, q, x % UINT32_RANGE, k, n);
  }

  /** A power with its exponent k as a parameter: given the number itself, the verifier unrolls Pow2. */
  lemma {:induction false} ThirtyTwo(k: nat)
    requires k == 32
    ensures Pow2(k) == UINT32_RANGE
  {
    assert Pow2(8) == 256;
    Pow2Add(8, 8);
    Pow2Add(16, 16);
  }

  lemma {:induction false} TakeByte(r: nat, p: seq<bool>)
    requires Holds(r, p) && |p| >= 8
    ensures Shr(r, 16) % 256 == ByteOf(p[..8])
    ensures Holds(Shl(r, 8) % UINT32_RANGE, p[8..])
  {
    ShrBits(r, 16, 8);
    var c := Shr(r, 16);
    var n, k: nat := 8, 8;
    assert Pow2(8) == 256;
    LowBits(c, c / 256, c % 256, k, n);
    FromToBits(c % 256, 8);
    assert p[..8] == ToBits(r, 24)[..8] == ToBits(c % 256, 8);
    Low24(Shl(r, 8));
    ShlBits(r, 8, 24);
    LowerBits(r, 16, 8);
    assert ToBits(Shl(r, 8), 24) == p[8..] + Zeros(24 - |p[8..]|);
  }

  lemma {:induction false} LowerBits(v: nat, n: nat, d: nat)
    ensures ToBits(v, n) == ToBits(v, n + d)[d..]
  {
    if n > 0 {
      LowerBits(v / 2, n - 1, d);
    }
  }

  lemma {:induction false} StuffMore(r: seq<Byte>, c: Byte)
    ensures Stuff(r + [c]) == Stuff(r) + StuffOne(c)
  {
    assert (r + [c])[..|r|] == r;
  }

  /** Moving the top byte from the register (holding rest) to the output (the bytes of done). */
  lemma {:induction false} MoveByte(r: nat, done: seq<bool>, rest: seq<bool>)
    returns (done': seq<bool>, rest': seq<bool>)
    requires Holds(r, rest) && |rest| >= 8 && |done| % 8 == 0
    ensures done' + rest' == done + rest && |rest'| == |rest| - 8 && |done'| % 8 == 0
    ensures Stuff(PackBytes(done')) == Stuff(PackBytes(done)) + StuffOne(Shr(r, 16) % 256)
    ensures Holds(Shl(r, 8) % UINT32_RANGE, rest')
  {
    hide PackBytes, Stuff, Holds, Shr, Shl, ByteOf, StuffOne;
    var a, b := rest[..8], rest[8..];
    assert rest == a + b;
    TakeByte(r, rest);
    PackMore(done, a);
    StuffMore(PackBytes(done), ByteOf(a));
    done', rest' := done + a, b;
  }

  /** Putting n bits into the register behind the bits of b that do not make a full byte. */
  lemma {:induction false} StartMoving(r: nat, b: seq<bool>, v: nat, n: nat, k: nat)
    returns (done: seq<bool>, rest: seq<bool>)
    requires k == |b| % 8 && Holds(r, b[|b| - k..]) && n <= 17 && v < Pow2(n)
    ensures done + rest == b + ToBits(v, n) && |rest| == k + n && |done| % 8 == 0
    ensures PackBytes(done) == PackBytes(b)
    ensures Holds(BitOr(r, Shl(v, 24 - (k + n)) % UINT32_RANGE), rest)
  {
    hide PackBytes, Holds, Shl, BitOr, ToBits, Pow2;
    var p := b[|b| - k..];
    done := b[..|b| - k];
    PutIntoRegister(r, p, v, n);
    PackPrefix(done, p);
    assert b == done + p;
    rest := p + ToBits(v, n);
  }

  class BitWriter {
    var bitBuffer: nat
    var bitsIn: nat
    var outBuf: array<Byte>
    var outPos: nat
    var outBufLeft: nat
    /** What has been handed to the output stream. */
    var stream: seq<Byte>
    /** All bits put so far. */
    ghost var written: seq<bool>
    ghost const header: seq<Byte>

    ghost predicate BufferValid()
      reads this
    {
      outBuf.Length == OUT_BUF_SIZE && outPos + outBufLeft == OUT_BUF_SIZE && outBufLeft > 0
    }

    /** Everything emitted: the stream and the part of the buffer not flushed yet. */
    ghost function Emitted(): seq<Byte>
      requires BufferValid()
      reads this, outBuf
    {
      stream + outBuf[..outPos]
    }

    /** The register holds the bits that do not make a full byte yet; all others are emitted. */
    ghost predicate Valid()
      reads this, outBuf
    {
      && BufferValid() && Emitted() == header + Stuff(PackBytes(written))
      && bitsIn == |written| % 8 && Holds(bitBuffer, written[|written| - bitsIn..])
    }

    /** A writer that continues a stream; jpg_open and first_pass_init set its fields so. */
    constructor (start: seq<Byte>)
      ensures Valid() && fresh(outBuf) && written == [] && header == start
    {
      bitBuffer, bitsIn := 0, 0;
      outBuf := new Byte[OUT_BUF_SIZE](_ => 0);
      outPos, outBufLeft := 0, OUT_BUF_SIZE;
      stream := start;
      written := [];
      header := start;
      new;
      ZeroBits(24);
      assert Zeros(24) == [] + Zeros(24 - 0);
    }

    method FlushOutputBuffer()
      requires outBuf.Length == OUT_BUF_SIZE && outPos + outBufLeft == OUT_BUF_SIZE
      modifies this
      ensures BufferValid() && outBuf == old(outBuf) && outPos == 0
      ensures stream == old(stream + outBuf[..outPos])
      ensures bitBuffer == old(bitBuffer) && bitsIn == old(bitsIn) && written == old(written)
    {
      if outBufLeft != OUT_BUF_SIZE {
        stream := stream + outBuf[..OUT_BUF_SIZE - outBufLeft];
      }
      outPos := 0;
      outBufLeft := OUT_BUF_SIZE;
    }

    method PutByte(c: Byte)
      requires BufferValid()
      modifies this, outBuf
      ensures BufferValid() && outBuf == old(outBuf) && Emitted() == old(Emitted()) + [c]
      ensures bitBuffer == old(bitBuffer) && bitsIn == old(bitsIn) && written == old(written)
    {
      outBuf[outPos] := c;
      assert outBuf[..outPos + 1] == outBuf[..outPos] + [c];
      outPos := outPos + 1;
      outBufLeft := outBufLeft - 1;
      if outBufLeft == 0 {
        FlushOutputBuffer();
      }
    }

    /** The scan while bits are being moved out: done is emitted, rest is in the register. */
    ghost predicate Moving(done: seq<bool>, rest: seq<bool>)
      reads this, outBuf
    {
      && BufferValid() && Emitted() == header + Stuff(PackBytes(done)) && |done| % 8 == 0
      && bitsIn == |rest| <= 24 && Holds(bitBuffer, rest)
    }

    /** Emits the top byte of the register, with a zero byte after 0xFF. */
    method EmitTopByte(ghost done: seq<bool>, ghost rest: seq<bool>)
      returns (ghost done': seq<bool>, ghost rest': seq<bool>)
      requires Moving(done, rest) && |rest| >= 8
      modifies this, outBuf
      ensures outBuf == old(outBuf) && written == old(written) && bitsIn == old(bitsIn) - 8
      ensures Moving(done', rest') && done' + rest' == done + rest && |rest'| == |rest| - 8
    {
      hide PackBytes, Stuff, Holds, Shr, Shl;
      done', rest' := MoveByte(bitBuffer, done, rest);
      var c := Shr(bitBuffer, 16) % 256;
      ghost var e, s := Emitted(), Stuff(PackBytes(done));
      PutByte(c);
      if c == 0xFF {
        PutByte(0);
      }
      assert Emitted() == e + StuffOne(c) == header + (s + StuffOne(c));
      bitBuffer := Shl(bitBuffer, 8) % UINT32_RANGE;
      bitsIn := bitsIn - 8;
    }

    /** Appends the low len bits of bits to the scan. */
    method PutBits(bits: nat, len: nat)
      requires Valid() && len <= 17 && bits < Pow2(len)
      modifies this, outBuf
      ensures Valid() && outBuf == old(outBuf) && written == old(written) + ToBits(bits, len)
    {
      hide PackBytes, Stuff, Holds, Shr, Shl, ToBits, BitOr, Pow2;
      ghost var all := written + ToBits(bits, len);
      ghost var done, rest := StartMoving(bitBuffer, written, bits, len, bitsIn);
      bitsIn := bitsIn + len;
      bitBuffer := BitOr(bitBuffer, Shl(bits, 24 - bitsIn) % UINT32_RANGE);
      while bitsIn >= 8
        invariant outBuf == old(outBuf) && bitsIn == |rest| && done + rest == all && Moving(done, rest)
        decreases bitsIn
      {
        done, rest := EmitTopByte(done, rest);
      }
      PackPrefix(done, rest);
      written := all;
      assert all[|all| - bitsIn..] == rest;
    }

    /** Fills up the last byte with ones, flushes, and ends the scan with the EOI marker. */
    method Terminate()
      requires Valid()
      modifies this, outBuf
      ensures stream == header + Finished(old(written))
    {
      assert Pow2(7) == 128;
      PutBits(0x7F, 7);
      FlushOutputBuffer();
      stream := stream + [0xFF];
      stream := stream + [0xD9];
    }
  }
}
