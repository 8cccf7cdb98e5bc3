/** The canonical codes of a list of code sizes (T.81, Annex C). */
module CanonicalCodes {
  import opened Powers
  import opened CodeLengths
  import opened BitStrings

  /** Where the code of symbol p begins in the code space, in units of 2^-m. */
  ghost function Start(l: seq<nat>, p: nat, m: nat): nat
    requires p <= |l| && AtMost(l, m)
  {
    Kraft(l[..p], m)
  }

  /** code[p], followed by anything, lies in the slice of the code space from Start(p) to Start(p + 1). */
  ghost predicate Canonical(l: seq<nat>, code: seq<nat>, m: nat)
    requires AtMost(l, m)
  {
    |code| == |l| && forall p :: 0 <= p < |l| ==> code[p] * Pow2(m - l[p]) == Start(l, p, m)
  }

  lemma {:induction false} StartNext(l: seq<nat>, p: nat, m: nat)
    requires p < |l| && AtMost(l, m)
    ensures Start(l, p + 1, m) == Start(l, p, m) + Pow2(m - l[p])
  {
    assert l[..p + 1] == l[..p] + [l[p]];
    KraftConcat(l[..p], [l[p]], m);
    assert Kraft([l[p]], m) == Pow2(m - l[p]) + Kraft([], m);
  }

  lemma {:induction false} StartMonotone(l: seq<nat>, p: nat, q: nat, m: nat)
    requires p <= q <= |l| && AtMost(l, m)
    ensures Start(l, p, m) <= Start(l, q, m)
  {
    if p < q {
      StartMonotone(l, p, q - 1, m);
      StartNext(l, q - 1, m);
    }
  }

  /** A string of m bits that begins with the code of symbol p reads as a number in p's slice. */
  lemma {:induction false} WindowInSlice(l: seq<nat>, code: seq<nat>, m: nat, p: nat, w: seq<bool>)
    requires AtMost(l, m) && Canonical(l, code, m) && p < |l| && |w| == m
    requires code[p] < Pow2(l[p]) && ToBits(code[p], l[p]) <= w
    ensures Start(l, p, m) <= FromBits(w) < Start(l, p + 1, m)
  {
    var rest := w[l[p]..];
    assert w == ToBits(code[p], l[p]) + rest;
    FromBitsConcat(ToBits(code[p], l[p]), rest);
    FromToBits(code[p], l[p]);
    StartNext(l, p, m);
  }

  /** Codes that do not overfill the code space fit their sizes. */
  lemma {:induction false} CodeFits(l: seq<nat>, code: seq<nat>, m: nat, p: nat)
    requires AtMost(l, m) && Canonical(l, code, m) && p < |l| && Kraft(l, m) <= Pow2(m)
    ensures code[p] < Pow2(l[p])
    ensures Kraft(l, m) < Pow2(m) ==> code[p] + 1 < Pow2(l[p])
  {
    StartNext(l, p, m);
    StartMonotone(l, p + 1, |l|, m);
    assert l[..|l|] == l;
    Pow2Add(m - l[p], l[p]);
    FitsBelow(code[p], Pow2(l[p]), Pow2(m - l[p]), Kraft(l, m));
  }

  lemma {:induction false} FitsBelow(c: nat, n: nat, g: nat, k: nat)
    requires g > 0 && c * g + g <= k <= g * n
    ensures c < n && (k < g * n ==> c + 1 < n)
  {
    if c >= n {
      ProductMonotone(n, c, g);
    }
    if c + 1 == n {
      ProductNext(c, g);
    }
  }

  lemma {:induction false} ProductMonotone(a: nat, b: nat, g: nat)
    requires a <= b
    ensures a * g <= b * g
  {
  }

  lemma {:induction false} ProductNext(c: nat, g: nat)
    ensures (c + 1) * g == c * g + g
  {
  }

  ghost predicate AllOnes(b: seq<bool>) {
    forall i :: 0 <= i < |b| ==> b[i]
  }

  lemma {:induction false} OnesValue(b: seq<bool>)
    requires AllOnes(b)
    ensures FromBits(b) + 1 == Pow2(|b|)
  {
    if b != [] {
      OnesValue(b[..|b| - 1]);
    }
  }

  /** If the code space is not used up, no code consists of ones only. */
  lemma {:induction false} NoCodeAllOnes(l: seq<nat>, code: seq<nat>, m: nat, p: nat)
    requires AtMost(l, m) && Canonical(l, code, m) && p < |l| && Kraft(l, m) < Pow2(m)
    ensures !AllOnes(ToBits(code[p], l[p]))
  {
    CodeFits(l, code, m, p);
    FromToBits(code[p], l[p]);
    if AllOnes(ToBits(code[p], l[p])) {
      OnesValue(ToBits(code[p], l[p]));
    }
  }

  /** No code is the beginning of another: no canonical code of another symbol can be read instead. */
  lemma {:induction false} PrefixFree(l: seq<nat>, code: seq<nat>, m: nat, p: nat, q: nat)
    requires AtMost(l, m) && Canonical(l, code, m) && Kraft(l, m) <= Pow2(m) && p < |l| && q < |l| && p != q
    ensures !(ToBits(code[p], l[p]) <= ToBits(code[q], l[q]))
  {
    if ToBits(code[p], l[p]) <= ToBits(code[q], l[q]) {
      CodeFits(l, code, m, p);
      CodeFits(l, code, m, q);
      var w := ToBits(code[q], l[q]) + ToBits(0, m - l[q]);
      WindowInSlice(l, code, m, p, w);
      WindowInSlice(l, code, m, q, w);
      if p < q {
        StartMonotone(l, p + 1, q, m);
      } else {
        StartMonotone(l, q + 1, p, m);
      }
    }
  }
}
