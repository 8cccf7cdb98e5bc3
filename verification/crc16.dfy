/** CRC-16: the table-driven loop. */
module Crc16 {
  import opened CrcRegister

  /** The polynomial x^16 + x^15 + x^2 + 1, its lowest power in the highest bit. */
  const REGISTER := Register(2, 0xA001, 0x8000, 0xFFFF)

  const TABLE: seq<seq<bv16>> := [
    [0x0000, 0xc0c1, 0xc181, 0x0140, 0xc301, 0x03c0, 0x0280, 0xc241,
     0xc601, 0x06c0, 0x0780, 0xc741, 0x0500, 0xc5c1, 0xc481, 0x0440],
    [0xcc01, 0x0cc0, 0x0d80, 0xcd41, 0x0f00, 0xcfc1, 0xce81, 0x0e40,
     0x0a00, 0xcac1, 0xcb81, 0x0b40, 0xc901, 0x09c0, 0x0880, 0xc841],
    [0xd801, 0x18c0, 0x1980, 0xd941, 0x1b00, 0xdbc1, 0xda81, 0x1a40,
     0x1e00, 0xdec1, 0xdf81, 0x1f40, 0xdd01, 0x1dc0, 0x1c80, 0xdc41],
    [0x1400, 0xd4c1, 0xd581, 0x1540, 0xd701, 0x17c0, 0x1680, 0xd641,
     0xd201, 0x12c0, 0x1380, 0xd341, 0x1100, 0xd1c1, 0xd081, 0x1040],
    [0xf001, 0x30c0, 0x3180, 0xf141, 0x3300, 0xf3c1, 0xf281, 0x3240,
     0x3600, 0xf6c1, 0xf781, 0x3740, 0xf501, 0x35c0, 0x3480, 0xf441],
    [0x3c00, 0xfcc1, 0xfd81, 0x3d40, 0xff01, 0x3fc0, 0x3e80, 0xfe41,
     0xfa01, 0x3ac0, 0x3b80, 0xfb41, 0x3900, 0xf9c1, 0xf881, 0x3840],
    [0x2800, 0xe8c1, 0xe981, 0x2940, 0xeb01, 0x2bc0, 0x2a80, 0xea41,
     0xee01, 0x2ec0, 0x2f80, 0xef41, 0x2d00, 0xedc1, 0xec81, 0x2c40],
    [0xe401, 0x24c0, 0x2580, 0xe541, 0x2700, 0xe7c1, 0xe681, 0x2640,
     0x2200, 0xe2c1, 0xe381, 0x2340, 0xe101, 0x21c0, 0x2080, 0xe041],
    [0xa001, 0x60c0, 0x6180, 0xa141, 0x6300, 0xa3c1, 0xa281, 0x6240,
     0x6600, 0xa6c1, 0xa781, 0x6740, 0xa501, 0x65c0, 0x6480, 0xa441],
    [0x6c00, 0xacc1, 0xad81, 0x6d40, 0xaf01, 0x6fc0, 0x6e80, 0xae41,
     0xaa01, 0x6ac0, 0x6b80, 0xab41, 0x6900, 0xa9c1, 0xa881, 0x6840],
    [0x7800, 0xb8c1, 0xb981, 0x7940, 0xbb01, 0x7bc0, 0x7a80, 0xba41,
     0xbe01, 0x7ec0, 0x7f80, 0xbf41, 0x7d00, 0xbdc1, 0xbc81, 0x7c40],
    [0xb401, 0x74c0, 0x7580, 0xb541, 0x7700, 0xb7c1, 0xb681, 0x7640,
     0x7200, 0xb2c1, 0xb381, 0x7340, 0xb101, 0x71c0, 0x7080, 0xb041],
    [0x5000, 0x90c1, 0x9181, 0x5140, 0x9301, 0x53c0, 0x5280, 0x9241,
     0x9601, 0x56c0, 0x5780, 0x9741, 0x5500, 0x95c1, 0x9481, 0x5440],
    [0x9c01, 0x5cc0, 0x5d80, 0x9d41, 0x5f00, 0x9fc1, 0x9e81, 0x5e40,
     0x5a00, 0x9ac1, 0x9b81, 0x5b40, 0x9901, 0x59c0, 0x5880, 0x9841],
    [0x8801, 0x48c0, 0x4980, 0x8941, 0x4b00, 0x8bc1, 0x8a81, 0x4a40,
     0x4e00, 0x8ec1, 0x8f81, 0x4f40, 0x8d01, 0x4dc0, 0x4c80, 0x8c41],
    [0x4400, 0x84c1, 0x8581, 0x4540, 0x8701, 0x47c0, 0x4680, 0x8641,
     0x8201, 0x42c0, 0x4380, 0x8341, 0x4100, 0x81c1, 0x8081, 0x4040]]

  lemma {:induction false} TableRows()
    ensures |TABLE| == 16 && forall i :: 0 <= i < 16 ==> |TABLE[i]| == 16
  {
  }

  lemma {:induction false} Rows0To3(i: bv4, j: bv4)
    requires 0 <= i <= 3 && |TABLE| == 16 && |TABLE[i as int]| == 16
    ensures (TABLE[i as int][j as int] as bv64) == Shift8(0xA001, ((i as bv64) << 4) | (j as bv64))
  {
  }

  lemma {:induction false} Rows4To7(i: bv4, j: bv4)
    requires 4 <= i <= 7 && |TABLE| == 16 && |TABLE[i as int]| == 16
    ensures (TABLE[i as int][j as int] as bv64) == Shift8(0xA001, ((i as bv64) << 4) | (j as bv64))
  {
  }

  lemma {:induction false} Rows8To11(i: bv4, j: bv4)
    requires 8 <= i <= 11 && |TABLE| == 16 && |TABLE[i as int]| == 16
    ensures (TABLE[i as int][j as int] as bv64) == Shift8(0xA001, ((i as bv64) << 4) | (j as bv64))
  {
  }

  lemma {:induction false} Rows12To15(i: bv4, j: bv4)
    requires 12 <= i <= 15 && |TABLE| == 16 && |TABLE[i as int]| == 16
    ensures (TABLE[i as int][j as int] as bv64) == Shift8(0xA001, ((i as bv64) << 4) | (j as bv64))
  {
  }

  /** The table holds what eight steps make of each byte. */
  lemma {:induction false} Entry(i: bv4, j: bv4)
    ensures |TABLE| == 16 && |TABLE[i as int]| == 16
    ensures (TABLE[i as int][j as int] as bv64) == Shift8(0xA001, ((i as bv64) << 4) | (j as bv64))
  {
    TableRows();
    hide TABLE, Shift8;
    if i <= 3 {
      Rows0To3(i, j);
    } else if i <= 7 {
      Rows4To7(i, j);
    } else if i <= 11 {
      Rows8To11(i, j);
    } else {
      Rows12To15(i, j);
    }
  }

  /** The table's entry for one byte; sixteen entries make a row. */
  function Lookup(i: bv8): bv16 {
    TableRows();
    TABLE[((i >> 4) as bv4) as int][((i & 15) as bv4) as int]
  }

  lemma {:induction false} Nibbles(i: bv8)
    ensures ((((i >> 4) as bv4) as bv64) << 4) | (((i & 15) as bv4) as bv64) == i as bv64
  {
  }

  lemma {:induction false} LookupIsShift(i: bv8)
    ensures (Lookup(i) as bv64) == Shift8(REGISTER.poly, Widen(i))
  {
    hide TABLE, Shift8;
    TableRows();
    Entry((i >> 4) as bv4, (i & 15) as bv4);
    Nibbles(i);
  }

  /** What the loop's body makes of the register. */
  function TableTake(crc: bv16, b: bv8): bv16 {
    Lookup(((crc ^ (b as bv16)) & 0xFF) as bv8) ^ (crc >> 8)
  }

  lemma {:induction false} IndexBits(crc: bv16, b: bv8)
    ensures Widen(((crc ^ (b as bv16)) & 0xFF) as bv8) == Low8(Xor(crc as bv64, Widen(b)))
    ensures ((crc >> 8) as bv64) == Drop8(Xor(crc as bv64, Widen(b)))
  {
  }

  lemma {:induction false} WideXor(x: bv16, y: bv16)
    ensures ((x ^ y) as bv64) == Xor(x as bv64, y as bv64)
  {
  }

  lemma {:induction false} TakeParts(crc: bv16, b: bv8)
    ensures (TableTake(crc, b) as bv64) == Xor(Lookup(((crc ^ (b as bv16)) & 0xFF) as bv8) as bv64, (crc >> 8) as bv64)
  {
    hide Lookup;
    WideXor(Lookup(((crc ^ (b as bv16)) & 0xFF) as bv8), crc >> 8);
  }

  /** One step of the loop takes in a byte as the bit-serial register does. */
  lemma {:induction false} TableTakes(crc: bv16, b: bv8)
    ensures (TableTake(crc, b) as bv64) == SerialByte(REGISTER.poly, crc as bv64, b)
  {
    hide Lookup, TableTake, Shift8, SerialByte, Xor, Low8, Drop8, Widen;
    TakeParts(crc, b);
    IndexBits(crc, b);
    LookupIsShift(((crc ^ (b as bv16)) & 0xFF) as bv8);
    TableStep(REGISTER.poly, crc as bv64, b, Lookup(((crc ^ (b as bv16)) & 0xFF) as bv8) as bv64);
  }

  /** The checksum that follows crc0, the checksum of what came before. */
  ghost predicate IsChecksum(crc0: bv16, m: seq<bv8>, crc: bv16) {
    (crc as bv64) == Serial(REGISTER.poly, crc0 as bv64, m)
  }

  /** Computes the checksum of a message, continued from crc0. */
  method Crc16(crc0: bv16, buf: seq<bv8>) returns (crc: bv16)
    ensures IsChecksum(crc0, buf, crc)
  {
    hide TableTake, Serial, SerialByte;
    NothingTaken(REGISTER.poly, crc0 as bv64);
    crc := crc0;
    var size, p := |buf|, 0;
    while size > 0
      invariant 0 <= p && 0 <= size && p + size == |buf|
        && (crc as bv64) == Serial(REGISTER.poly, crc0 as bv64, buf[..p])
    {
      TableTakes(crc, buf[p]);
      SerialMore(REGISTER.poly, crc0 as bv64, buf, p);
      crc := TableTake(crc, buf[p]);
      p := p + 1;
      size := size - 1;
    }
    assert buf[..p] == buf;
  }

  lemma {:induction false} RegisterValid(crc0: bv16)
    ensures REGISTER.Valid() && Within(crc0 as bv64, REGISTER.mask)
  {
  }

  /** Checksums can be computed piece by piece. */
  lemma {:induction false} ChecksumContinues(crc0: bv16, a: seq<bv8>, b: seq<bv8>, mid: bv16, crc: bv16)
    requires IsChecksum(crc0, a, mid) && IsChecksum(mid, b, crc)
    ensures IsChecksum(crc0, a + b, crc)
  {
    hide Serial;
    SerialConcat(REGISTER.poly, crc0 as bv64, a, b);
  }

  lemma {:induction false} SameWide(x: bv16, y: bv16)
    requires (x as bv64) == (y as bv64)
    ensures x == y
  {
  }

  lemma {:induction false} ChecksumUnique(crc0: bv16, m: seq<bv8>, x: bv16, y: bv16)
    requires IsChecksum(crc0, m, x) && IsChecksum(crc0, m, y)
    ensures x == y
  {
    hide Serial;
    SameWide(x, y);
  }

  lemma {:induction false} BurstLeavesTrace(crc0: bv16, before: seq<bv8>, a: seq<bv8>, b: seq<bv8>, after: seq<bv8>,
          x: bv16)
    requires |a| == |b| <= 2 && IsChecksum(crc0, before + a + after, x) && IsChecksum(crc0, before + b + after, x)
    ensures a == b
  {
    hide Serial, Register.Valid, Within;
    RegisterValid(crc0);
    BurstDetected(REGISTER, crc0 as bv64, before, a, b, after);
  }

  /** Messages that differ only within 2 consecutive bytes have different checksums. */
  lemma {:induction false} BurstChangesChecksum(crc0: bv16, before: seq<bv8>, a: seq<bv8>, b: seq<bv8>,
          after: seq<bv8>, x: bv16, y: bv16)
    requires |a| == |b| <= 2 && IsChecksum(crc0, before + a + after, x) && IsChecksum(crc0, before + b + after, y)
    ensures x == y <==> a == b
  {
    hide IsChecksum;
    if a == b {
      ChecksumUnique(crc0, before + a + after, x, y);
    }
    if x == y {
      BurstLeavesTrace(crc0, before, a, b, after, x);
    }
  }

  lemma {:induction false} DigitsMet()
    ensures TakeByte(REGISTER.poly, 0x0000, 0x31) == 0xD4C1
    ensures TakeByte(REGISTER.poly, 0xD4C1, 0x32) == 0x4594
    ensures TakeByte(REGISTER.poly, 0x4594, 0x33) == 0xBA04
    ensures TakeByte(REGISTER.poly, 0xBA04, 0x34) == 0x14BA
    ensures TakeByte(REGISTER.poly, 0x14BA, 0x35) == 0xA455
    ensures TakeByte(REGISTER.poly, 0xA455, 0x36) == 0x29E4
    ensures TakeByte(REGISTER.poly, 0x29E4, 0x37) == 0x9D68
    ensures TakeByte(REGISTER.poly, 0x9D68, 0x38) == 0x3C9D
    ensures TakeByte(REGISTER.poly, 0x3C9D, 0x39) == 0xBB3D
  {
  }

  /** The nine digits have the checksum by which this CRC is known. */
  lemma {:induction false} DigitsChecksum(m: seq<bv8>)
    requires m == [0x31, 0x32, 0x33, 0x34, 0x35, 0x36, 0x37, 0x38, 0x39]
    ensures IsChecksum(0, m, 0xBB3D)
  {
    hide Serial, TakeByte;
    DigitsMet();
    NothingTaken(REGISTER.poly, 0x0000);
    TakesTo(REGISTER.poly, 0x0000, m, 0, 0x0000, 0xD4C1);
    TakesTo(REGISTER.poly, 0x0000, m, 1, 0xD4C1, 0x4594);
    TakesTo(REGISTER.poly, 0x0000, m, 2, 0x4594, 0xBA04);
    TakesTo(REGISTER.poly, 0x0000, m, 3, 0xBA04, 0x14BA);
    TakesTo(REGISTER.poly, 0x0000, m, 4, 0x14BA, 0xA455);
    TakesTo(REGISTER.poly, 0x0000, m, 5, 0xA455, 0x29E4);
    TakesTo(REGISTER.poly, 0x0000, m, 6, 0x29E4, 0x9D68);
    TakesTo(REGISTER.poly, 0x0000, m, 7, 0x9D68, 0x3C9D);
    TakesTo(REGISTER.poly, 0x0000, m, 8, 0x3C9D, 0xBB3D);
    assert m[..9] == m;
  }

  lemma {:induction false} ZeroMet()
    ensures TakeByte(REGISTER.poly, 0, 0) == 0
  {
  }

  /** Zero bytes in front of a message do not count. */
  lemma {:induction false} LeadingZero(m: seq<bv8>, crc: bv16)
    ensures IsChecksum(0, [0] + m, crc) <==> IsChecksum(0, m, crc)
  {
    hide Serial, TakeByte;
    ZeroMet();
    FirstTaken(REGISTER.poly, 0, 0);
    SerialConcat(REGISTER.poly, 0, [0], m);
  }

  /** A message followed by its checksum, lowest byte first, has the checksum zero. */
  lemma {:induction false} ChecksumAppended(crc0: bv16, m: seq<bv8>, crc: bv16, tail: seq<bv8>)
    requires IsChecksum(crc0, m, crc) && |tail| == 2 && Pack(tail) == crc as bv64
    ensures IsChecksum(crc0, m + tail, 0)
  {
    hide Serial, ShiftBytes, Pack;
    SerialConcat(REGISTER.poly, crc0 as bv64, m, tail);
    XorZero(crc as bv64);
    MeetsItself(REGISTER.poly, crc as bv64, tail, 0);
    NothingLeft(2);
  }

  lemma {:induction false} NothingLeft(k: nat)
    ensures ShiftBytes(REGISTER.poly, 0, k) == 0
  {
    if k > 0 {
      NothingLeft(k - 1);
    }
  }
}
