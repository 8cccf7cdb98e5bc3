/** Bit strings, most significant bit first, and the numbers they stand for. */
module BitStrings {
  import opened Powers

  /** The low n bits of v. */
  function ToBits(v: nat, n: nat): (b: seq<bool>)
    ensures |b| == n
  {
    if n == 0 then [] else ToBits(v / 2, n - 1) + [v % 2 == 1]
  }

  function FromBits(b: seq<bool>): (v: nat)
    ensures v < Pow2(|b|)
  {
    if b == [] then 0 else 2 * FromBits(b[..|b| - 1]) + if b[|b| - 1] then 1 else 0
  }

  lemma {:induction false} FromToBits(v: nat, n: nat)
    requires v < Pow2(n)
    ensures FromBits(ToBits(v, n)) == v
  {
    if n > 0 {
      FromToBits(v / 2, n - 1);
      var b := ToBits(v, n);
      assert b[..n - 1] == ToBits(v / 2, n - 1);
    }
  }

  lemma {:induction false} ToFromBits(b: seq<bool>)
    ensures ToBits(FromBits(b), |b|) == b
  {
    if b != [] {
      var t := b[..|b| - 1];
      ToFromBits(t);
      assert FromBits(b) / 2 == FromBits(t);
      assert b == t + [b[|b| - 1]];
    }
  }

  /** Appending bits shifts the number they are appended to. */
  lemma {:induction false} FromBitsConcat(a: seq<bool>, b: seq<bool>)
    ensures FromBits(a + b) == FromBits(a) * Pow2(|b|) + FromBits(b)
  {
    if b == [] {
      assert a + b == a;
    } else {
      var t := b[..|b| - 1];
      assert (a + b)[..|a + b| - 1] == a + t;
      FromBitsConcat(a, t);
      assert (a + b)[|a + b| - 1] == b[|b| - 1];
      DoubleProduct(FromBits(a), Pow2(|t|), Pow2(|b|));
    }
  }

  lemma {:induction false} DoubleProduct(x: nat, y: nat, z: nat)
    requires z == 2 * y
    ensures x * z == 2 * (x * y)
  {
  }

  // Shifts and the bitwise OR of unsigned numbers, and what they do to the bit strings.

  function Shl(v: nat, s: nat): nat
    decreases s
  {
    if s == 0 then v else Shl(2 * v, s - 1)
  }

  function Shr(v: nat, s: nat): nat {
    if s == 0 then v else Shr(v / 2, s - 1)
  }

  function BitOr(a: nat, b: nat): nat {
    if a == 0 && b == 0 then 0
    else 2 * BitOr(a / 2, b / 2) + if a % 2 == 1 || b % 2 == 1 then 1 else 0
  }

  function Zeros(n: nat): (b: seq<bool>)
    ensures |b| == n && forall i :: 0 <= i < n ==> !b[i]
  {
    seq(n, i => false)
  }

  lemma {:induction false} ZeroBits(n: nat)
    ensures ToBits(0, n) == Zeros(n)
  {
    if n > 0 {
      ZeroBits(n - 1);
    }
  }

  lemma {:induction false} DoubleBits(v: nat, n: nat)
    requires n > 0
    ensures ToBits(2 * v, n) == ToBits(v, n - 1) + [false]
  {
  }

  lemma {:induction false} ShlBits(v: nat, s: nat, n: nat)
    requires s <= n
    ensures ToBits(Shl(v, s), n) == ToBits(v, n - s) + Zeros(s)
    decreases s
  {
    if s > 0 {
      ShlBits(2 * v, s - 1, n);
      DoubleBits(v, n - s + 1);
      assert [false] + Zeros(s - 1) == Zeros(s);
    }
  }

  /** Dropping the low s bits. */
  lemma {:induction false} ShrBits(v: nat, s: nat, n: nat)
    ensures ToBits(v, n + s)[..n] == ToBits(Shr(v, s), n)
  {
    if s > 0 {
      ShrBits(v / 2, s - 1, n);
      assert ToBits(v, n + s)[..n] == ToBits(v / 2, n + s - 1)[..n];
    }
  }

  lemma {:induction false} OrBits(a: nat, b: nat, n: nat)
    ensures forall i :: 0 <= i < n ==> ToBits(BitOr(a, b), n)[i] == (ToBits(a, n)[i] || ToBits(b, n)[i])
  {
    if n > 0 {
      OrBits(a / 2, b / 2, n - 1);
    }
  }

  /** Numbers that differ by a multiple of 2^k have the same low k bits. */
  lemma {:induction false} LowBits(v: nat, q: nat, r: nat, k: nat, n: nat)
    requires n <= k && v == q * Pow2(k) + r
    ensures ToBits(v, n) == ToBits(r, n)
  {
    if n > 0 {
      DoubleProduct(q, Pow2(k - 1), Pow2(k));
      assert v / 2 == q * Pow2(k - 1) + r / 2 && v % 2 == r % 2;
      LowBits(v / 2, q, r / 2, k - 1, n - 1);
    }
  }
}
