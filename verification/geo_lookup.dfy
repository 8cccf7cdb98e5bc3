/** Address blocks in CIDR notation (RFC 4632, section 3.1), and the search for the block of an address. */
module GeoLookup {
  import opened MachineNumbers
  import opened Powers
  import opened BitStrings
  import opened ByteStrings

  /** All bits of an address, the highest first. */
  function AddressBits(ip: seq<Byte>): (b: seq<bool>)
    ensures |b| == 8 * |ip|
  {
    if ip == [] then [] else ToBits(ip[0], 8) + AddressBits(ip[1..])
  }

  /** The address as a number. */
  function AddressValue(ip: seq<Byte>): nat {
    FromBits(AddressBits(ip))
  }

  lemma {:induction false} ValueStep(ip: seq<Byte>)
    requires ip != []
    ensures AddressValue(ip) == ip[0] * Pow2(8 * (|ip| - 1)) + AddressValue(ip[1..])
    ensures AddressValue(ip[1..]) < Pow2(8 * (|ip| - 1))
  {
    ByteFits(ip[0]);
    FromBitsConcat(ToBits(ip[0], 8), AddressBits(ip[1..]));
  }

  lemma {:induction false} ByteFits(c: Byte)
    ensures FromBits(ToBits(c, 8)) == c
  {
    assert Pow2(8) == 256;
    FromToBits(c, 8);
  }

  /** For addresses of one family, the order of strings is the order of numbers. */
  lemma {:induction false} OrderIsNumeric(a: seq<Byte>, b: seq<Byte>)
    requires |a| == |b|
    ensures TextLess(a, b) <==> AddressValue(a) < AddressValue(b)
  {
    if a != [] {
      ValueStep(a);
      ValueStep(b);
      OrderIsNumeric(a[1..], b[1..]);
      HeadDecides(a[0], b[0], AddressValue(a[1..]), AddressValue(b[1..]), Pow2(8 * (|a| - 1)));
    }
  }

  lemma {:induction false} HeadDecides(x: nat, y: nat, s: nat, t: nat, p: nat)
    requires s < p && t < p
    ensures x * p + s < y * p + t <==> x < y || (x == y && s < t)
  {
    if x < y {
      MoreThanOne(x, y, p);
    } else if y < x {
      MoreThanOne(y, x, p);
    }
  }

  lemma {:induction false} MoreThanOne(x: nat, y: nat, p: nat)
    requires x < y
    ensures x * p + p <= y * p
  {
    var d := y - x - 1;
    assert y * p == (x + 1 + d) * p == x * p + p + d * p;
  }

  /** Two addresses share their first k bits. */
  predicate SharePrefix(a: seq<Byte>, b: seq<Byte>, k: nat)
    requires |a| == |b| && k <= 8 * |a|
  {
    AddressBits(a)[..k] == AddressBits(b)[..k]
  }

  function Filled(n: nat, value: bool): (b: seq<bool>)
    ensures |b| == n
  {
    seq(n, i => value)
  }

  /** The address with all bits from k on set to value. */
  ghost predicate IsFilled(ip: seq<Byte>, k: nat, value: bool, r: seq<Byte>) {
    && |r| == |ip|
    && (if k <= 8 * |ip| then AddressBits(r) == AddressBits(ip)[..k] + Filled(8 * |ip| - k, value) else r == ip)
  }

  lemma {:induction false} FilledValue(n: nat, value: bool)
    ensures FromBits(Filled(n, value)) == if value then Pow2(n) - 1 else 0
  {
    if n > 0 {
      assert Filled(n, value)[..n - 1] == Filled(n - 1, value);
      FilledValue(n - 1, value);
    }
  }

  /**
   * Clearing and setting the bits behind the prefix gives the ends of the block: an address lies between them
   * exactly if it shares the prefix.
   */
  lemma {:induction false} BlockBounds(ip: seq<Byte>, k: nat, begin: seq<Byte>, end: seq<Byte>, a: seq<Byte>)
    requires k <= 8 * |ip| && |a| == |ip| && IsFilled(ip, k, false, begin) && IsFilled(ip, k, true, end)
    ensures SharePrefix(a, ip, k) <==> !TextLess(a, begin) && !TextLess(end, a)
  {
    var r := 8 * |ip| - k;
    var p, q, t := AddressBits(ip)[..k], AddressBits(a)[..k], AddressBits(a)[k..];
    OrderIsNumeric(a, begin);
    OrderIsNumeric(end, a);
    FilledValue(r, false);
    FilledValue(r, true);
    FromBitsConcat(p, Filled(r, false));
    FromBitsConcat(p, Filled(r, true));
    assert AddressBits(a) == q + t;
    FromBitsConcat(q, t);
    Between(FromBits(p), FromBits(q), FromBits(t), Pow2(r));
    ToFromBits(p);
    ToFromBits(q);
  }

  lemma {:induction false} Between(p: nat, q: nat, t: nat, g: nat)
    requires t < g
    ensures p * g <= q * g + t <= p * g + (g - 1) <==> p == q
  {
    if p < q {
      MoreThanOne(p, q, g);
    } else if q < p {
      MoreThanOne(q, p, g);
    }
  }

  // Setting bits.

  /** The byte with bit j, counted from the highest, set to value. */
  function SetBit(c: Byte, j: nat, value: bool): (r: Byte)
    requires j < 8
    ensures ToBits(r, 8) == ToBits(c, 8)[j := value]
  {
    var b := ToBits(c, 8)[j := value];
    assert Pow2(8) == 256;
    ToFromBits(b);
    FromBits(b)
  }

  lemma {:induction false} BitOfAddress(ip: seq<Byte>, b: nat)
    requires b < 8 * |ip|
    ensures AddressBits(ip)[b] == ToBits(ip[b / 8], 8)[b % 8]
  {
    hide ToBits;
    if b >= 8 {
      BitOfAddress(ip[1..], b - 8);
      assert ip[1..][(b - 8) / 8] == ip[b / 8] && (b - 8) % 8 == b % 8;
    }
  }

  lemma {:induction false} SetBitOfAddress(ip: seq<Byte>, i: nat, value: bool)
    requires i < 8 * |ip|
    ensures AddressBits(ip[i / 8 := SetBit(ip[i / 8], i % 8, value)]) == AddressBits(ip)[i := value]
  {
    hide SetBit, ToBits, AddressBits;
    var r := ip[i / 8 := SetBit(ip[i / 8], i % 8, value)];
    forall b | 0 <= b < 8 * |ip|
      ensures AddressBits(r)[b] == AddressBits(ip)[i := value][b]
    {
      BitOfAddress(ip, b);
      BitOfAddress(r, b);
    }
  }

  /** Sets or clears all bits of an address behind the first netmask ones. */
  method SetBits(ip0: seq<Byte>, netmask: nat, value: bool) returns (r: seq<Byte>)
    ensures IsFilled(ip0, netmask, value, r)
  {
    hide AddressBits, SetBit;
    var iplen := |ip0|;
    var ip := new Byte[iplen](i requires 0 <= i < iplen => ip0[i]);
    assert ip[..] == ip0;
    var i := netmask;
    while i < iplen * 8
      invariant netmask <= i
      invariant i <= iplen * 8 ==>
                  AddressBits(ip[..]) ==
                  AddressBits(ip0)[..netmask] + Filled(i - netmask, value) + AddressBits(ip0)[i..]
      invariant netmask > iplen * 8 ==> ip[..] == ip0
      invariant i > iplen * 8 ==> netmask > iplen * 8
    {
      ghost var before := ip[..];
      SetBitOfAddress(before, i, value);
      ip[i / 8] := SetBit(ip[i / 8], i % 8, value);
      assert ip[..] == before[i / 8 := ip[i / 8]];
      FillOneMore(AddressBits(ip0), netmask, i, value);
      i := i + 1;
    }
    r := ip[..];
    if netmask <= iplen * 8 {
      assert AddressBits(ip0)[iplen * 8..] == [];
    }
  }

  lemma {:induction false} FillOneMore(b: seq<bool>, k: nat, i: nat, value: bool)
    requires k <= i < |b|
    ensures (b[..k] + Filled(i - k, value) + b[i..])[i := value] == b[..k] + Filled(i + 1 - k, value) + b[i + 1..]
  {
  }

  /** The number of bits that a netmask leaves in the prefix of an address. */
  function PrefixLength(ip: seq<Byte>, netmask: nat): (k: nat)
    ensures k <= 8 * |ip| && k <= netmask
  {
    if netmask < 8 * |ip| then netmask else 8 * |ip|
  }

  /** The block written as address and netmask holds an address: one of its family, with its prefix. */
  predicate Covers(ip: seq<Byte>, netmask: nat, a: seq<Byte>) {
    |a| == |ip| && SharePrefix(a, ip, PrefixLength(ip, netmask))
  }

  lemma {:induction false} RangeCovers(ip: seq<Byte>, netmask: nat, begin: seq<Byte>, end: seq<Byte>, a: seq<Byte>)
    requires IsFilled(ip, netmask, false, begin) && IsFilled(ip, netmask, true, end) && |a| == |ip|
    ensures Covers(ip, netmask, a) <==> !TextLess(a, begin) && !TextLess(end, a)
  {
    hide TextLess, AddressBits;
    BlockBounds(ip, PrefixLength(ip, netmask), begin, end, a);
  }

  /** The range of a block: its ends are of its family, and between them lie exactly the addresses that it holds. */
  method GetIpRange(ip: seq<Byte>, netmask: nat) returns (begin: seq<Byte>, end: seq<Byte>)
    ensures IsFilled(ip, netmask, false, begin) && IsFilled(ip, netmask, true, end)
    ensures forall a: seq<Byte> :: |a| == |ip| ==>
      (Covers(ip, netmask, a) <==> !TextLess(a, begin) && !TextLess(end, a))
  {
    hide IsFilled, Covers, TextLess;
    begin := SetBits(ip, netmask, false);
    end := SetBits(ip, netmask, true);
    forall a: seq<Byte> | |a| == |ip|
      ensures Covers(ip, netmask, a) <==> !TextLess(a, begin) && !TextLess(end, a)
    {
      RangeCovers(ip, netmask, begin, end, a);
    }
  }

  // The search.

  datatype GeoNetRec = GeoNetRec(startIp: seq<Byte>, endIp: seq<Byte>, lat: int, lon: int)

  ghost predicate SortedByEnd(nets: seq<GeoNetRec>) {
    forall i, j :: 0 <= i < j < |nets| ==> !TextLess(nets[j].endIp, nets[i].endIp)
  }

  predicate InBlock(net: GeoNetRec, ip: seq<Byte>) {
    !TextLess(ip, net.startIp) && !TextLess(net.endIp, ip)
  }

  /** The first block that does not end below the address: what std::lower_bound finds. */
  ghost predicate IsLowerBound(nets: seq<GeoNetRec>, ip: seq<Byte>, k: nat) {
    && k <= |nets| && (forall i :: 0 <= i < k ==> TextLess(nets[i].endIp, ip))
    && (k < |nets| ==> !TextLess(nets[k].endIp, ip))
  }

  lemma {:induction false} EndsBelow(nets: seq<GeoNetRec>, ip: seq<Byte>, i: nat, j: nat)
    requires SortedByEnd(nets) && i <= j < |nets| && TextLess(nets[j].endIp, ip)
    ensures TextLess(nets[i].endIp, ip)
  {
    if i < j {
      TextTrichotomy(nets[i].endIp, nets[j].endIp);
      if nets[i].endIp != nets[j].endIp {
        TextTransitive(nets[i].endIp, nets[j].endIp, ip);
      }
    }
  }

  /** Looks for the block of an address by halving. */
  method FindNetRec(nets: seq<GeoNetRec>, ip: seq<Byte>) returns (found: bool, result: GeoNetRec)
    requires SortedByEnd(nets)
    ensures found ==> exists k: nat :: IsLowerBound(nets, ip, k) && k < |nets| && result == nets[k]
    ensures !found ==> IsLowerBound(nets, ip, |nets|)
  {
    hide TextLess;
    var first, count := 0, |nets|;
    while count > 0
      invariant 0 <= count && 0 <= first && first + count <= |nets|
      invariant forall i :: 0 <= i < first ==> TextLess(nets[i].endIp, ip)
      invariant first + count < |nets| ==> !TextLess(nets[first + count].endIp, ip)
      decreases count
    {
      var step := count / 2;
      var it := first + step;
      if TextLess(nets[it].endIp, ip) {
        forall i | 0 <= i <= it
          ensures TextLess(nets[i].endIp, ip)
        {
          EndsBelow(nets, ip, i, it);
        }
        first := it + 1;
        count := count - (step + 1);
      } else {
        count := step;
      }
    }
    assert IsLowerBound(nets, ip, first);
    if first < |nets| {
      return true, nets[first];
    }
    return false, GeoNetRec([], [], 0, 0);
  }

  /** An address not below one in a block is not below the block's start. */
  lemma {:induction false} StartBelow(net: GeoNetRec, ip: seq<Byte>, e: seq<Byte>)
    requires !TextLess(ip, net.startIp) && !TextLess(e, ip)
    ensures !TextLess(e, net.startIp)
  {
    if TextLess(e, net.startIp) {
      TextTrichotomy(e, ip);
      TextTrichotomy(ip, net.startIp);
      if e != ip && ip != net.startIp {
        TextTransitive(net.startIp, ip, e);
      }
      TextTrichotomy(e, net.startIp);
      TextTrichotomy(net.startIp, e);
    }
  }

  // Blocks of both families, in one list.

  /** A block as the file of blocks gives it. */
  datatype Network = Network(ip: seq<Byte>, netmask: nat)

  predicate Holds(n: Network, a: seq<Byte>) {
    Covers(n.ip, n.netmask, a)
  }

  /** The number of bits that the prefixes of two blocks of one family have in common, if one continues the other. */
  function SharedLength(m: Network, n: Network): (l: nat)
    requires |m.ip| == |n.ip|
    ensures l <= PrefixLength(m.ip, m.netmask) && l <= PrefixLength(n.ip, n.netmask)
  {
    if m.netmask < n.netmask then PrefixLength(m.ip, m.netmask) else PrefixLength(n.ip, n.netmask)
  }

  /** Of two blocks of one family, neither prefix continues the other. */
  ghost predicate Diverge(m: Network, n: Network) {
    |m.ip| == |n.ip| ==> !SharePrefix(m.ip, n.ip, SharedLength(m, n))
  }

  /** The records of the networks, sorted; networks of one family diverge. */
  ghost predicate Loaded(nets: seq<GeoNetRec>, blocks: seq<Network>) {
    && SortedByEnd(nets) && |nets| == |blocks|
    && (forall i :: 0 <= i < |nets| ==> RangeOf(blocks[i], nets[i]))
    && forall i, j :: 0 <= i < j < |nets| ==> Diverge(blocks[i], blocks[j])
  }

  ghost predicate RangeOf(n: Network, net: GeoNetRec) {
    IsFilled(n.ip, n.netmask, false, net.startIp) && IsFilled(n.ip, n.netmask, true, net.endIp)
  }

  /** Blocks of one family that hold a common address do not diverge. */
  lemma {:induction false} CommonAddress(m: Network, n: Network, a: seq<Byte>)
    requires Holds(m, a) && Holds(n, a)
    ensures !Diverge(m, n)
  {
    hide AddressBits;
    var l, j, k := SharedLength(m, n), PrefixLength(m.ip, m.netmask), PrefixLength(n.ip, n.netmask);
    assert AddressBits(a)[..l] == AddressBits(a)[..j][..l] == AddressBits(m.ip)[..j][..l] == AddressBits(m.ip)[..l];
    assert AddressBits(a)[..l] == AddressBits(a)[..k][..l] == AddressBits(n.ip)[..k][..l] == AddressBits(n.ip)[..l];
  }

  /** A record of the other family ends between the address and the end of the block that holds it. */
  ghost predicate ComesBetween(nets: seq<GeoNetRec>, ip: seq<Byte>, i: int, j: int)
    requires 0 <= j < |nets|
  {
    && 0 <= i < |nets| && |nets[i].endIp| != |ip|
    && !TextLess(nets[i].endIp, ip) && TextLess(nets[i].endIp, nets[j].endIp)
  }

  /**
   * The search for an address that some block holds: it ends at that block exactly if no record of the other family
   * comes between, since both families share one list.
   */
  lemma {:induction false} SearchFindsBlock(nets: seq<GeoNetRec>, blocks: seq<Network>, ip: seq<Byte>, k: nat, j: nat)
    requires Loaded(nets, blocks) && IsLowerBound(nets, ip, k) && j < |nets| && Holds(blocks[j], ip)
    ensures k <= j
    ensures k == j <==> !exists i :: ComesBetween(nets, ip, i, j)
  {
    hide TextLess, IsFilled, SharePrefix, Diverge;
    assert RangeOf(blocks[j], nets[j]);
    HoldsInBlock(blocks[j], nets[j], ip);
    if k < j {
      assert RangeOf(blocks[k], nets[k]) && Diverge(blocks[k], blocks[j]);
      EndsBetween(blocks[k], blocks[j], nets[k], nets[j], ip);
      assert ComesBetween(nets, ip, k, j);
    }
    forall i | ComesBetween(nets, ip, i, j)
      ensures i < j
    {
      TextTrichotomy(nets[i].endIp, nets[j].endIp);
    }
  }

  lemma {:induction false} HoldsInBlock(n: Network, net: GeoNetRec, a: seq<Byte>)
    requires RangeOf(n, net) && |a| == |n.ip|
    ensures Holds(n, a) <==> InBlock(net, a)
  {
    RangeCovers(n.ip, n.netmask, net.startIp, net.endIp, a);
  }

  /** A record before the block that holds the address, but not ending below it, is of the other family. */
  lemma {:induction false} EndsBetween(m: Network, n: Network, first: GeoNetRec, block: GeoNetRec, ip: seq<Byte>)
    requires RangeOf(m, first) && RangeOf(n, block) && Diverge(m, n) && Holds(n, ip)
    requires !TextLess(first.endIp, ip) && !TextLess(block.endIp, first.endIp)
    ensures |first.endIp| != |ip| && TextLess(first.endIp, block.endIp)
  {
    hide TextLess, Diverge, SharePrefix;
    assert |first.endIp| == |m.ip| && |block.endIp| == |n.ip| == |ip|;
    HoldsInBlock(n, block, ip);
    StartBelow(block, ip, first.endIp);
    EndHeld(m, first);
    if |first.endIp| == |n.ip| {
      HoldsInBlock(n, block, first.endIp);
      CommonAddress(m, n, first.endIp);
    }
    TextTrichotomy(first.endIp, block.endIp);
  }

  lemma {:induction false} EndHeld(n: Network, net: GeoNetRec)
    requires RangeOf(n, net)
    ensures Holds(n, net.endIp)
  {
    hide AddressBits;
    var k := PrefixLength(n.ip, n.netmask);
    if n.netmask <= 8 * |n.ip| {
      assert AddressBits(net.endIp)[..k] == AddressBits(n.ip)[..k];
    }
  }

  /** In a list of one family: the search ends at the block that holds the address whenever there is one. */
  lemma {:induction false} SearchInFamily(nets: seq<GeoNetRec>, blocks: seq<Network>, ip: seq<Byte>, k: nat)
    requires Loaded(nets, blocks) && IsLowerBound(nets, ip, k)
    requires forall i :: 0 <= i < |blocks| ==> |blocks[i].ip| == |ip|
    ensures (exists j :: 0 <= j < |blocks| && Holds(blocks[j], ip)) <==> k < |blocks| && Holds(blocks[k], ip)
    ensures forall j :: 0 <= j < |blocks| && Holds(blocks[j], ip) ==> j == k
  {
    hide TextLess, Holds, Diverge, SortedByEnd;
    forall j | 0 <= j < |blocks| && Holds(blocks[j], ip)
      ensures j == k
    {
      SearchFindsBlock(nets, blocks, ip, k, j);
      forall i
        ensures !ComesBetween(nets, ip, i, j)
      {
        if 0 <= i < |nets| {
          assert RangeOf(blocks[i], nets[i]);
        }
      }
    }
  }

  lemma {:induction false} BitsConcat(a: seq<Byte>, b: seq<Byte>)
    ensures AddressBits(a + b) == AddressBits(a) + AddressBits(b)
  {
    if a == [] {
      assert a + b == b;
    } else {
      assert (a + b)[1..] == a[1..] + b;
      BitsConcat(a[1..], b);
    }
  }

  /** The same byte n times. */
  function Repeated(n: nat, c: Byte): (s: seq<Byte>)
    ensures |s| == n
  {
    seq(n, i => c)
  }

  lemma {:induction false} BitsOfRepeated(n: nat, value: bool)
    ensures AddressBits(Repeated(n, if value then 255 else 0)) == Filled(8 * n, value)
  {
    hide ToBits;
    var c := if value then 255 else 0;
    if n > 0 {
      assert Repeated(n, c)[1..] == Repeated(n - 1, c);
      BitsOfRepeated(n - 1, value);
      BitsOfByte(value);
      assert Filled(8, value) + Filled(8 * (n - 1), value) == Filled(8 * n, value);
    }
  }

  lemma {:induction false} BitsOfByte(value: bool)
    ensures ToBits(if value then 255 else 0, 8) == Filled(8, value)
  {
    assert Pow2(8) == 256;
    FilledValue(8, value);
    ToFromBits(Filled(8, value));
  }

  /** The ends of a block whose netmask ends with a byte. */
  lemma {:induction false} WholeBytes(p: seq<Byte>, t: seq<Byte>, net: GeoNetRec)
    requires net.startIp == p + Repeated(|t|, 0) && net.endIp == p + Repeated(|t|, 255)
    ensures RangeOf(Network(p + t, 8 * |p|), net)
  {
    hide AddressBits, Repeated;
    BitsConcat(p, t);
    BitsConcat(p, Repeated(|t|, 0));
    BitsConcat(p, Repeated(|t|, 255));
    BitsOfRepeated(|t|, false);
    BitsOfRepeated(|t|, true);
    assert AddressBits(p + t)[..8 * |p|] == AddressBits(p);
  }

  /**
   * Where the search goes wrong: a record of 2001::/16 comes between the address 32.0.0.5 and the end of its block
   * 32.0.0.0/8.
   */
  lemma {:induction false} OtherFamilyFound(nets: seq<GeoNetRec>, blocks: seq<Network>, ip: seq<Byte>)
    requires ip == [32, 0, 0, 5] && blocks == [Network([32, 1] + Repeated(14, 0), 16), Network([32] + [0, 0, 0], 8)]
    requires |nets| == 2
    requires nets[0].startIp == [32, 1] + Repeated(14, 0) && nets[0].endIp == [32, 1] + Repeated(14, 255)
    requires nets[1].startIp == [32] + Repeated(3, 0) && nets[1].endIp == [32] + Repeated(3, 255)
    ensures Loaded(nets, blocks) && Holds(blocks[1], ip) && !Holds(blocks[0], ip) && IsLowerBound(nets, ip, 0)
  {
    hide AddressBits, IsFilled, Repeated;
    WholeBytes([32, 1], Repeated(14, 0), nets[0]);
    WholeBytes([32], [0, 0, 0], nets[1]);
    EndsInOrder(nets[0].endIp, nets[1].endIp, ip);
    BitsConcat([32], [0, 0, 5]);
    BitsConcat([32], [0, 0, 0]);
    assert ip == [32] + [0, 0, 5];
  }

  lemma {:induction false} EndsInOrder(e: seq<Byte>, f: seq<Byte>, ip: seq<Byte>)
    requires e == [32, 1] + Repeated(14, 255) && f == [32] + Repeated(3, 255) && ip == [32, 0, 0, 5]
    ensures !TextLess(f, e) && !TextLess(e, ip)
  {
    assert e[1..][0] == 1 && f[1..][0] == 255 && ip[1..][0] == 0;
  }
}
