/** What the decoder reads from the bytes of a scan: stuffing undone, markers dealt with (T.81, F.2.2.5). */
module EntropyData {
  import opened MachineNumbers
  import opened BitStrings
  import opened StuffedBits

  function Ones(n: nat): (b: seq<bool>)
    ensures |b| == n && forall i :: 0 <= i < n ==> b[i]
  {
    seq(n, i => true)
  }

  /** The eight bits of a byte. */
  function ByteBits(c: Byte): (b: seq<bool>)
    ensures |b| == 8
  {
    ToBits(c, 8)
  }

  predicate IsRestart(marker: Byte) {
    0xD0 <= marker <= 0xD7
  }

  /**
   * The bits of the scan data d. A 0xFF byte counts as data, whatever follows it; the byte after it is
   * dropped, except that a restart marker counts as data, too. EOI ends the data.
   */
  ghost function Unstuff(d: seq<Byte>): seq<bool>
    decreases |d|
  {
    if d == [] then []
    else if d[0] != 0xFF || |d| == 1 then ByteBits(d[0]) + Unstuff(d[1..])
    else if d[1] == 0xD9 then ByteBits(0xFF)
    else if IsRestart(d[1]) then ByteBits(0xFF) + ByteBits(d[1]) + Unstuff(d[2..])
    else ByteBits(0xFF) + Unstuff(d[2..])
  }

  /** Every 0xFF up to EOI is followed by a zero or completes a restart marker. */
  ghost predicate Clean(d: seq<Byte>)
    decreases |d|
  {
    d == [] ||
    if d[0] != 0xFF then Clean(d[1..])
    else |d| > 1 && (d[1] == 0xD9 || ((d[1] == 0 || IsRestart(d[1])) && Clean(d[2..])))
  }

  /** The n bits from position p on; past the end the decoder sees ones. */
  ghost function Window(all: seq<bool>, p: nat, n: nat): (w: seq<bool>)
    ensures |w| == n
  {
    seq(n, i requires 0 <= i => p + i >= |all| || all[p + i])
  }

  /** The bits of the bytes r. */
  ghost function BitsOf(r: seq<Byte>): (b: seq<bool>)
    ensures |b| == 8 * |r|
  {
    if r == [] then [] else BitsOf(r[..|r| - 1]) + ByteBits(r[|r| - 1])
  }

  lemma {:induction false} BitsOfOneMore(r: seq<Byte>, c: seq<bool>)
    requires |c| == 8
    ensures BitsOf(r + [ByteOf(c)]) == BitsOf(r) + c
  {
    ToFromBits(c);
    assert (r + [ByteOf(c)])[..|r|] == r;
  }

  lemma {:induction false} BitsOfPacked(b: seq<bool>)
    ensures BitsOf(PackBytes(b)) == b[..|b| / 8 * 8]
  {
    hide BitsOf, ByteOf;
    if |b| >= 8 {
      var k := |b| / 8 * 8;
      var a, c := b[..k - 8], b[k - 8..k];
      BitsOfPacked(a);
      BitsOfOneMore(PackBytes(a), c);
      assert b[..k] == a + c;
    } else {
      NoBitsOf();
    }
  }

  lemma {:induction false} NoBitsOf()
    ensures BitsOf([]) == []
  {
  }

  lemma {:induction false} UnstuffOne(c: Byte, tail: seq<Byte>)
    ensures Unstuff(StuffOne(c) + tail) == ByteBits(c) + Unstuff(tail)
    ensures Clean(StuffOne(c) + tail) == Clean(tail)
  {
    var d := StuffOne(c) + tail;
    assert d[0] == c && d[|StuffOne(c)|..] == tail;
  }

  /** Unstuffing undoes stuffing. */
  lemma {:induction false} UnstuffStuff(r: seq<Byte>, tail: seq<Byte>)
    ensures Unstuff(Stuff(r) + tail) == BitsOf(r) + Unstuff(tail)
    ensures Clean(Stuff(r) + tail) == Clean(tail)
  {
    if r == [] {
      assert Stuff(r) + tail == tail && BitsOf(r) + Unstuff(tail) == Unstuff(tail);
    } else {
      var s, c := r[..|r| - 1], r[|r| - 1];
      assert Stuff(r) + tail == Stuff(s) + (StuffOne(c) + tail);
      UnstuffStuff(s, StuffOne(c) + tail);
      UnstuffOne(c, tail);
      assert BitsOf(s) + (ByteBits(c) + Unstuff(tail)) == BitsOf(r) + Unstuff(tail);
    }
  }

  lemma {:induction false} AllOnesByte()
    ensures ByteBits(0xFF) == Ones(8)
  {
    assert ToBits(0xFF, 8) == Ones(8);
  }

  lemma {:induction false} PaddingBits()
    ensures ToBits(0x7F, 7) == Ones(7)
  {
    assert ToBits(0x7F, 7) == Ones(7);
  }

  lemma {:induction false} UnstuffEoi()
    ensures Clean([0xFF, 0xD9]) && Unstuff([0xFF, 0xD9]) == Ones(8)
  {
    AllOnesByte();
  }

  /** Unstuffed, a finished scan is the bits that were put, padded with ones to full bytes and one byte more. */
  lemma {:induction false} UnstuffScan(written: seq<bool>) returns (k: nat)
    ensures Clean(Finished(written)) && Unstuff(Finished(written)) == written + Ones(k)
    ensures 8 <= k < 16 && (|written| + k) % 8 == 0
  {
    hide PackBytes, Stuff, BitsOf, ToBits, Unstuff, Clean;
    var b := written + ToBits(0x7F, 7);
    PaddingBits();
    UnstuffEoi();
    UnstuffStuff(PackBytes(b), [0xFF, 0xD9]);
    BitsOfPacked(b);
    var n := |b| / 8 * 8;
    k := n - |written| + 8;
    assert b[..n] + Ones(8) == written + Ones(k);
  }

  /**
   * What a marker in the data does: the end of the image hides all that follows, a restart marker is taken for data,
   * any other byte after 0xFF is left out, and only a zero byte is no error.
   */
  lemma {:induction false} MarkerRead(m: Byte, d: seq<Byte>)
    ensures m == 0xD9 ==> Unstuff([0xFF, m] + d) == Ones(8) && Clean([0xFF, m] + d)
    ensures 0xD0 <= m < 0xD8 ==>
      Unstuff([0xFF, m] + d) == Ones(8) + ToBits(m, 8) + Unstuff(d) && Clean([0xFF, m] + d) == Clean(d)
    ensures m == 0 ==> Unstuff([0xFF, m] + d) == Ones(8) + Unstuff(d) && Clean([0xFF, m] + d) == Clean(d)
    ensures m != 0 && (m < 0xD0 || m > 0xD9 || m == 0xD8) ==>
      Unstuff([0xFF, m] + d) == Ones(8) + Unstuff(d) && !Clean([0xFF, m] + d)
  {
    hide ToBits;
    AllOnesByte();
    var s := [0xFF, m] + d;
    assert s[2..] == d;
  }

  /** Past its end the data goes on with ones. */
  lemma {:induction false} WindowPadded(all: seq<bool>, p: nat, n: nat)
    ensures Window(all, p, n) == (all + Ones(p + n))[p..p + n]
  {
  }
}
