/** CRC-32: the table-driven loop. */
module Crc32 {
  import opened CrcRegister

  /**
   * The polynomial x^32 + x^26 + x^23 + x^22 + x^16 + x^12 + x^11 + x^10 + x^8 + x^7 + x^5 + x^4 + x^2 + x + 1, its
   * lowest power in the highest bit.
   */
  const REGISTER := Register(4, 0xEDB8_8320, 0x8000_0000, 0xFFFF_FFFF)

  const TABLE: seq<seq<bv32>> := [
    [0x00000000, 0x77073096, 0xee0e612c, 0x990951ba, 0x076dc419, 0x706af48f, 0xe963a535, 0x9e6495a3,
     0x0edb8832, 0x79dcb8a4, 0xe0d5e91e, 0x97d2d988, 0x09b64c2b, 0x7eb17cbd, 0xe7b82d07, 0x90bf1d91],
    [0x1db71064, 0x6ab020f2, 0xf3b97148, 0x84be41de, 0x1adad47d, 0x6ddde4eb, 0xf4d4b551, 0x83d385c7,
     0x136c9856, 0x646ba8c0, 0xfd62f97a, 0x8a65c9ec, 0x14015c4f, 0x63066cd9, 0xfa0f3d63, 0x8d080df5],
    [0x3b6e20c8, 0x4c69105e, 0xd56041e4, 0xa2677172, 0x3c03e4d1, 0x4b04d447, 0xd20d85fd, 0xa50ab56b,
     0x35b5a8fa, 0x42b2986c, 0xdbbbc9d6, 0xacbcf940, 0x32d86ce3, 0x45df5c75, 0xdcd60dcf, 0xabd13d59],
    [0x26d930ac, 0x51de003a, 0xc8d75180, 0xbfd06116, 0x21b4f4b5, 0x56b3c423, 0xcfba9599, 0xb8bda50f,
     0x2802b89e, 0x5f058808, 0xc60cd9b2, 0xb10be924, 0x2f6f7c87, 0x58684c11, 0xc1611dab, 0xb6662d3d],
    [0x76dc4190, 0x01db7106, 0x98d220bc, 0xefd5102a, 0x71b18589, 0x06b6b51f, 0x9fbfe4a5, 0xe8b8d433,
     0x7807c9a2, 0x0f00f934, 0x9609a88e, 0xe10e9818, 0x7f6a0dbb, 0x086d3d2d, 0x91646c97, 0xe6635c01],
    [0x6b6b51f4, 0x1c6c6162, 0x856530d8, 0xf262004e, 0x6c0695ed, 0x1b01a57b, 0x8208f4c1, 0xf50fc457,
     0x65b0d9c6, 0x12b7e950, 0x8bbeb8ea, 0xfcb9887c, 0x62dd1ddf, 0x15da2d49, 0x8cd37cf3, 0xfbd44c65],
    [0x4db26158, 0x3ab551ce, 0xa3bc0074, 0xd4bb30e2, 0x4adfa541, 0x3dd895d7, 0xa4d1c46d, 0xd3d6f4fb,
     0x4369e96a, 0x346ed9fc, 0xad678846, 0xda60b8d0, 0x44042d73, 0x33031de5, 0xaa0a4c5f, 0xdd0d7cc9],
    [0x5005713c, 0x270241aa, 0xbe0b1010, 0xc90c2086, 0x5768b525, 0x206f85b3, 0xb966d409, 0xce61e49f,
     0x5edef90e, 0x29d9c998, 0xb0d09822, 0xc7d7a8b4, 0x59b33d17, 0x2eb40d81, 0xb7bd5c3b, 0xc0ba6cad],
    [0xedb88320, 0x9abfb3b6, 0x03b6e20c, 0x74b1d29a, 0xead54739, 0x9dd277af, 0x04db2615, 0x73dc1683,
     0xe3630b12, 0x94643b84, 0x0d6d6a3e, 0x7a6a5aa8, 0xe40ecf0b, 0x9309ff9d, 0x0a00ae27, 0x7d079eb1],
    [0xf00f9344, 0x8708a3d2, 0x1e01f268, 0x6906c2fe, 0xf762575d, 0x806567cb, 0x196c3671, 0x6e6b06e7,
     0xfed41b76, 0x89d32be0, 0x10da7a5a, 0x67dd4acc, 0xf9b9df6f, 0x8ebeeff9, 0x17b7be43, 0x60b08ed5],
    [0xd6d6a3e8, 0xa1d1937e, 0x38d8c2c4, 0x4fdff252, 0xd1bb67f1, 0xa6bc5767, 0x3fb506dd, 0x48b2364b,
     0xd80d2bda, 0xaf0a1b4c, 0x36034af6, 0x41047a60, 0xdf60efc3, 0xa867df55, 0x316e8eef, 0x4669be79],
    [0xcb61b38c, 0xbc66831a, 0x256fd2a0, 0x5268e236, 0xcc0c7795, 0xbb0b4703, 0x220216b9, 0x5505262f,
     0xc5ba3bbe, 0xb2bd0b28, 0x2bb45a92, 0x5cb36a04, 0xc2d7ffa7, 0xb5d0cf31, 0x2cd99e8b, 0x5bdeae1d],
    [0x9b64c2b0, 0xec63f226, 0x756aa39c, 0x026d930a, 0x9c0906a9, 0xeb0e363f, 0x72076785, 0x05005713,
     0x95bf4a82, 0xe2b87a14, 0x7bb12bae, 0x0cb61b38, 0x92d28e9b, 0xe5d5be0d, 0x7cdcefb7, 0x0bdbdf21],
    [0x86d3d2d4, 0xf1d4e242, 0x68ddb3f8, 0x1fda836e, 0x81be16cd, 0xf6b9265b, 0x6fb077e1, 0x18b74777,
     0x88085ae6, 0xff0f6a70, 0x66063bca, 0x11010b5c, 0x8f659eff, 0xf862ae69, 0x616bffd3, 0x166ccf45],
    [0xa00ae278, 0xd70dd2ee, 0x4e048354, 0x3903b3c2, 0xa7672661, 0xd06016f7, 0x4969474d, 0x3e6e77db,
     0xaed16a4a, 0xd9d65adc, 0x40df0b66, 0x37d83bf0, 0xa9bcae53, 0xdebb9ec5, 0x47b2cf7f, 0x30b5ffe9],
    [0xbdbdf21c, 0xcabac28a, 0x53b39330, 0x24b4a3a6, 0xbad03605, 0xcdd70693, 0x54de5729, 0x23d967bf,
     0xb3667a2e, 0xc4614ab8, 0x5d681b02, 0x2a6f2b94, 0xb40bbe37, 0xc30c8ea1, 0x5a05df1b, 0x2d02ef8d]]

  lemma {:induction false} TableRows()
    ensures |TABLE| == 16 && forall i :: 0 <= i < 16 ==> |TABLE[i]| == 16
  {
  }

  lemma {:induction false} Rows0To3(i: bv4, j: bv4)
    requires 0 <= i <= 3 && |TABLE| == 16 && |TABLE[i as int]| == 16
    ensures (TABLE[i as int][j as int] as bv64) == Shift8(0xEDB8_8320, ((i as bv64) << 4) | (j as bv64))
  {
  }

  lemma {:induction false} Rows4To7(i: bv4, j: bv4)
    requires 4 <= i <= 7 && |TABLE| == 16 && |TABLE[i as int]| == 16
    ensures (TABLE[i as int][j as int] as bv64) == Shift8(0xEDB8_8320, ((i as bv64) << 4) | (j as bv64))
  {
  }

  lemma {:induction false} Rows8To11(i: bv4, j: bv4)
    requires 8 <= i <= 11 && |TABLE| == 16 && |TABLE[i as int]| == 16
    ensures (TABLE[i as int][j as int] as bv64) == Shift8(0xEDB8_8320, ((i as bv64) << 4) | (j as bv64))
  {
  }

  lemma {:induction false} Rows12To15(i: bv4, j: bv4)
    requires 12 <= i <= 15 && |TABLE| == 16 && |TABLE[i as int]| == 16
    ensures (TABLE[i as int][j as int] as bv64) == Shift8(0xEDB8_8320, ((i as bv64) << 4) | (j as bv64))
  {
  }

  /** The table holds what eight steps make of each byte. */
  lemma {:induction false} Entry(i: bv4, j: bv4)
    ensures |TABLE| == 16 && |TABLE[i as int]| == 16
    ensures (TABLE[i as int][j as int] as bv64) == Shift8(0xEDB8_8320, ((i as bv64) << 4) | (j as bv64))
  {
    TableRows();
    hide TABLE, Shift8;
    if i <= 3 {
      Rows0To3(i, j);
    } else if i <= 7 {
      Rows4To7(i, j);
    } else if i <= 11 {
      Rows8To11(i, j);
    } else {
      Rows12To15(i, j);
    }
  }

  /** The table's entry for one byte; sixteen entries make a row. */
  function Lookup(i: bv8): bv32 {
    TableRows();
    TABLE[((i >> 4) as bv4) as int][((i & 15) as bv4) as int]
  }

  lemma {:induction false} Nibbles(i: bv8)
    ensures ((((i >> 4) as bv4) as bv64) << 4) | (((i & 15) as bv4) as bv64) == i as bv64
  {
  }

  lemma {:induction false} LookupIsShift(i: bv8)
    ensures (Lookup(i) as bv64) == Shift8(REGISTER.poly, Widen(i))
  {
    hide TABLE, Shift8;
    TableRows();
    Entry((i >> 4) as bv4, (i & 15) as bv4);
    Nibbles(i);
  }

  /** What the loop's body makes of the register. */
  function TableTake(crc: bv32, b: bv8): bv32 {
    Lookup(((crc ^ (b as bv32)) & 0xFF) as bv8) ^ (crc >> 8)
  }

  lemma {:induction false} IndexBits(crc: bv32, b: bv8)
    ensures Widen(((crc ^ (b as bv32)) & 0xFF) as bv8) == Low8(Xor(crc as bv64, Widen(b)))
    ensures ((crc >> 8) as bv64) == Drop8(Xor(crc as bv64, Widen(b)))
  {
  }

  lemma {:induction false} WideXor(x: bv32, y: bv32)
    ensures ((x ^ y) as bv64) == Xor(x as bv64, y as bv64)
  {
  }

  lemma {:induction false} TakeParts(crc: bv32, b: bv8)
    ensures (TableTake(crc, b) as bv64) == Xor(Lookup(((crc ^ (b as bv32)) & 0xFF) as bv8) as bv64, (crc >> 8) as bv64)
  {
    hide Lookup;
    WideXor(Lookup(((crc ^ (b as bv32)) & 0xFF) as bv8), crc >> 8);
  }

  /** One step of the loop takes in a byte as the bit-serial register does. */
  lemma {:induction false} TableTakes(crc: bv32, b: bv8)
    ensures (TableTake(crc, b) as bv64) == SerialByte(REGISTER.poly, crc as bv64, b)
  {
    hide Lookup, TableTake, Shift8, SerialByte, Xor, Low8, Drop8, Widen;
    TakeParts(crc, b);
    IndexBits(crc, b);
    LookupIsShift(((crc ^ (b as bv32)) & 0xFF) as bv8);
    TableStep(REGISTER.poly, crc as bv64, b, Lookup(((crc ^ (b as bv32)) & 0xFF) as bv8) as bv64);
  }

  /** The checksum that follows crc0, the checksum of what came before; the register is kept inverted. */
  ghost predicate IsChecksum(crc0: bv32, m: seq<bv8>, crc: bv32) {
    ((crc ^ 0xFFFF_FFFF) as bv64) == Serial(REGISTER.poly, (crc0 ^ 0xFFFF_FFFF) as bv64, m)
  }

  lemma {:induction false} Inverted(x: bv32)
    ensures (x ^ 0xFFFF_FFFF) ^ 0xFFFF_FFFF == x
  {
  }

  /** Computes the checksum of a message, continued from crc0. */
  method Crc32(crc0: bv32, buf: seq<bv8>) returns (crc: bv32)
    ensures IsChecksum(crc0, buf, crc)
  {
    hide TableTake, Serial, SerialByte;
    NothingTaken(REGISTER.poly, (crc0 ^ 0xFFFF_FFFF) as bv64);
    crc := crc0 ^ 0xFFFF_FFFF;
    var size, p := |buf|, 0;
    while size > 0
      invariant 0 <= p && 0 <= size && p + size == |buf|
        && (crc as bv64) == Serial(REGISTER.poly, (crc0 ^ 0xFFFF_FFFF) as bv64, buf[..p])
    {
      TableTakes(crc, buf[p]);
      SerialMore(REGISTER.poly, (crc0 ^ 0xFFFF_FFFF) as bv64, buf, p);
      crc := TableTake(crc, buf[p]);
      p := p + 1;
      size := size - 1;
    }
    assert buf[..p] == buf;
    Inverted(crc);
    crc := crc ^ 0xFFFF_FFFF;
  }

  lemma {:induction false} RegisterValid(crc0: bv32)
    ensures REGISTER.Valid() && Within(crc0 as bv64, REGISTER.mask)
  {
  }

  /** Checksums can be computed piece by piece. */
  lemma {:induction false} ChecksumContinues(crc0: bv32, a: seq<bv8>, b: seq<bv8>, mid: bv32, crc: bv32)
    requires IsChecksum(crc0, a, mid) && IsChecksum(mid, b, crc)
    ensures IsChecksum(crc0, a + b, crc)
  {
    hide Serial;
    SerialConcat(REGISTER.poly, (crc0 ^ 0xFFFF_FFFF) as bv64, a, b);
  }

  lemma {:induction false} SameWide(x: bv32, y: bv32)
    requires (x as bv64) == (y as bv64)
    ensures x == y
  {
  }

  lemma {:induction false} ChecksumUnique(crc0: bv32, m: seq<bv8>, x: bv32, y: bv32)
    requires IsChecksum(crc0, m, x) && IsChecksum(crc0, m, y)
    ensures x == y
  {
    hide Serial;
    SameWide(x ^ 0xFFFF_FFFF, y ^ 0xFFFF_FFFF);
    Inverted(x);
    Inverted(y);
  }

  lemma {:induction false} BurstLeavesTrace(crc0: bv32, before: seq<bv8>, a: seq<bv8>, b: seq<bv8>, after: seq<bv8>,
          x: bv32)
    requires |a| == |b| <= 4 && IsChecksum(crc0, before + a + after, x) && IsChecksum(crc0, before + b + after, x)
    ensures a == b
  {
    hide Serial, Register.Valid, Within;
    RegisterValid(crc0 ^ 0xFFFF_FFFF);
    BurstDetected(REGISTER, (crc0 ^ 0xFFFF_FFFF) as bv64, before, a, b, after);
  }

  /** Messages that differ only within 4 consecutive bytes have different checksums. */
  lemma {:induction false} BurstChangesChecksum(crc0: bv32, before: seq<bv8>, a: seq<bv8>, b: seq<bv8>,
          after: seq<bv8>, x: bv32, y: bv32)
    requires |a| == |b| <= 4 && IsChecksum(crc0, before + a + after, x) && IsChecksum(crc0, before + b + after, y)
    ensures x == y <==> a == b
  {
    hide IsChecksum;
    if a == b {
      ChecksumUnique(crc0, before + a + after, x, y);
    }
    if x == y {
      BurstLeavesTrace(crc0, before, a, b, after, x);
    }
  }

  lemma {:induction false} DigitsMet()
    ensures TakeByte(REGISTER.poly, 0xFFFF_FFFF, 0x31) == 0x7C23_1048
    ensures TakeByte(REGISTER.poly, 0x7C23_1048, 0x32) == 0xB0AC_BB32
    ensures TakeByte(REGISTER.poly, 0xB0AC_BB32, 0x33) == 0x77B7_9C2D
    ensures TakeByte(REGISTER.poly, 0x77B7_9C2D, 0x34) == 0x641C_1F5C
    ensures TakeByte(REGISTER.poly, 0x641C_1F5C, 0x35) == 0x340A_C5E3
    ensures TakeByte(REGISTER.poly, 0x340A_C5E3, 0x36) == 0xF68D_2C9E
    ensures TakeByte(REGISTER.poly, 0xF68D_2C9E, 0x37) == 0xAFFC_9660
    ensures TakeByte(REGISTER.poly, 0xAFFC_9660, 0x38) == 0x651F_2550
    ensures TakeByte(REGISTER.poly, 0x651F_2550, 0x39) == 0x340B_C6D9
  {
  }

  /** The nine digits have the checksum by which this CRC is known. */
  lemma {:induction false} DigitsChecksum(m: seq<bv8>)
    requires m == [0x31, 0x32, 0x33, 0x34, 0x35, 0x36, 0x37, 0x38, 0x39]
    ensures IsChecksum(0, m, 0xCBF4_3926)
  {
    hide Serial, TakeByte;
    DigitsMet();
    NothingTaken(REGISTER.poly, 0xFFFF_FFFF);
    TakesTo(REGISTER.poly, 0xFFFF_FFFF, m, 0, 0xFFFF_FFFF, 0x7C23_1048);
    TakesTo(REGISTER.poly, 0xFFFF_FFFF, m, 1, 0x7C23_1048, 0xB0AC_BB32);
    TakesTo(REGISTER.poly, 0xFFFF_FFFF, m, 2, 0xB0AC_BB32, 0x77B7_9C2D);
    TakesTo(REGISTER.poly, 0xFFFF_FFFF, m, 3, 0x77B7_9C2D, 0x641C_1F5C);
    TakesTo(REGISTER.poly, 0xFFFF_FFFF, m, 4, 0x641C_1F5C, 0x340A_C5E3);
    TakesTo(REGISTER.poly, 0xFFFF_FFFF, m, 5, 0x340A_C5E3, 0xF68D_2C9E);
    TakesTo(REGISTER.poly, 0xFFFF_FFFF, m, 6, 0xF68D_2C9E, 0xAFFC_9660);
    TakesTo(REGISTER.poly, 0xFFFF_FFFF, m, 7, 0xAFFC_9660, 0x651F_2550);
    TakesTo(REGISTER.poly, 0xFFFF_FFFF, m, 8, 0x651F_2550, 0x340B_C6D9);
    assert m[..9] == m;
  }

  lemma {:induction false} ZeroMet()
    ensures TakeByte(REGISTER.poly, 0xFFFF_FFFF, 0) == 0x2DFD_1072
  {
  }

  /** A zero byte in front changes every checksum: this is what the inversion before is for. */
  lemma {:induction false} LeadingZero(m: seq<bv8>, x: bv32, y: bv32)
    requires IsChecksum(0, m, x) && IsChecksum(0, [0] + m, y)
    ensures x != y
  {
    hide Serial, TakeByte;
    ZeroMet();
    FirstTaken(REGISTER.poly, 0xFFFF_FFFF, 0);
    SerialConcat(REGISTER.poly, 0xFFFF_FFFF, [0], m);
    RegisterValid(0xFFFF_FFFF);
    RegisterValid(0x2DFD_1072);
    if x == y {
      SerialInjective(REGISTER, 0xFFFF_FFFF, 0x2DFD_1072, m);
    }
  }

  /** A message followed by its checksum, lowest byte first, has always the same checksum. */
  lemma {:induction false} ChecksumAppended(crc0: bv32, m: seq<bv8>, crc: bv32, tail: seq<bv8>)
    requires IsChecksum(crc0, m, crc)
    requires tail == [(crc & 0xFF) as bv8, ((crc >> 8) & 0xFF) as bv8, ((crc >> 16) & 0xFF) as bv8, (crc >> 24) as bv8]
    ensures IsChecksum(crc0, m + tail, 0x2144_DF1C)
  {
    hide Serial, ShiftBytes;
    SerialConcat(REGISTER.poly, (crc0 ^ 0xFFFF_FFFF) as bv64, m, tail);
    TailPacked(crc, tail);
    MeetsItself(REGISTER.poly, (crc ^ 0xFFFF_FFFF) as bv64, tail, 0xFFFF_FFFF);
    Residue();
  }

  lemma {:induction false} TailPacked(crc: bv32, tail: seq<bv8>)
    requires tail == [(crc & 0xFF) as bv8, ((crc >> 8) & 0xFF) as bv8, ((crc >> 16) & 0xFF) as bv8, (crc >> 24) as bv8]
    ensures Pack(tail) == Xor((crc ^ 0xFFFF_FFFF) as bv64, 0xFFFF_FFFF)
  {
    hide Join, Xor, Pack;
    PackFour(tail);
    FourJoined(crc);
  }

  lemma {:induction false} PackFour(m: seq<bv8>)
    requires |m| == 4
    ensures Pack(m) == Join(m[0], Join(m[1], Join(m[2], Join(m[3], 0))))
  {
    hide Join;
    assert m[1..][1..] == m[2..] && m[2..][1..] == m[3..] && m[3..][1..] == [];
    assert Pack(m[3..]) == Join(m[3], 0);
    assert Pack(m[2..]) == Join(m[2], Pack(m[3..]));
    assert Pack(m[1..]) == Join(m[1], Pack(m[2..]));
  }

  lemma {:induction false} FourJoined(crc: bv32)
    ensures Join((crc & 0xFF) as bv8, Join(((crc >> 8) & 0xFF) as bv8,
                 Join(((crc >> 16) & 0xFF) as bv8, Join((crc >> 24) as bv8, 0)))) == crc as bv64
    ensures Xor((crc ^ 0xFFFF_FFFF) as bv64, 0xFFFF_FFFF) == crc as bv64
  {
  }

  lemma {:induction false} Residue()
    ensures ShiftBytes(REGISTER.poly, 0xFFFF_FFFF, 4) == 0xDEBB_20E3
  {
  }
}
