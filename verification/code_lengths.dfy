/** Powers of two, as the shifts of the JPEG code use them. */
module Powers {
  function Pow2(n: nat): (r: nat)
    ensures r > 0
  {
    if n == 0 then 1 else 2 * Pow2(n - 1)
  }

  lemma {:induction false} Pow2Add(a: nat, b: nat)
    ensures Pow2(a + b) == Pow2(a) * Pow2(b)
  {
    if a > 0 {
      Pow2Add(a - 1, b);
    }
  }

  lemma {:induction false} Pow2Monotone(a: nat, b: nat)
    requires a <= b
    ensures Pow2(a) <= Pow2(b)
  {
    if a < b {
      Pow2Monotone(a, b - 1);
    }
  }
}

/** Lists of code lengths: their Kraft sum (scaled by 2^m) and their cost under given weights. */
module CodeLengths {
  import opened Powers

  ghost predicate AtMost(l: seq<nat>, m: nat) {
    forall i :: 0 <= i < |l| ==> l[i] <= m
  }

  ghost predicate Ascending(w: seq<nat>) {
    forall i, j :: 0 <= i <= j < |w| ==> w[i] <= w[j]
  }

  ghost predicate AtLeast(q: seq<nat>, x: nat) {
    forall i :: 0 <= i < |q| ==> x <= q[i]
  }

  function Sum(w: seq<nat>): nat {
    if w == [] then 0 else w[0] + Sum(w[1..])
  }

  /** Sum of 2^(m - l[i]): the share of the code space, in units of 2^-m, that the lengths use. */
  ghost function Kraft(l: seq<nat>, m: nat): nat
    requires AtMost(l, m)
  {
    if l == [] then 0 else Pow2(m - l[0]) + Kraft(l[1..], m)
  }

  /** The product x * y as y-fold addition, which keeps the proofs about costs linear. */
  ghost function Times(x: nat, y: nat): (p: nat) {
    if y == 0 then 0 else x + Times(x, y - 1)
  }

  lemma {:induction false} TimesIsProduct(x: nat, y: nat)
    ensures Times(x, y) == x * y
  {
    if y > 0 {
      TimesIsProduct(x, y - 1);
    }
  }

  lemma {:induction false} TimesAdd(x: nat, y: nat, d: nat)
    ensures Times(x + y, d) == Times(x, d) + Times(y, d)
  {
    if d > 0 {
      TimesAdd(x, y, d - 1);
    }
  }

  lemma {:induction false} TimesMonotone(x: nat, a: nat, b: nat)
    requires a <= b
    ensures Times(x, a) <= Times(x, b)
  {
    if a < b {
      TimesMonotone(x, a, b - 1);
    }
  }

  /** Pairing the lighter weight with the longer code is never worse. */
  lemma {:induction false} Rearrange(x: nat, y: nat, a: nat, b: nat)
    requires x <= y && a <= b
    ensures Times(x, b) + Times(y, a) <= Times(x, a) + Times(y, b)
  {
    if a < b {
      Rearrange(x, y, a, b - 1);
    }
  }

  /** Total number of bits used when symbol i occurs w[i] times and its code has l[i] bits. */
  ghost function Cost(w: seq<nat>, l: seq<nat>): nat
    requires |w| == |l|
  {
    if w == [] then 0 else Times(w[0], l[0]) + Cost(w[1..], l[1..])
  }

  lemma {:induction false} SumConcat(a: seq<nat>, b: seq<nat>)
    ensures Sum(a + b) == Sum(a) + Sum(b)
  {
    if a == [] {
      assert a + b == b;
    } else {
      assert (a + b)[1..] == a[1..] + b;
      SumConcat(a[1..], b);
    }
  }

  lemma {:induction false} KraftConcat(a: seq<nat>, b: seq<nat>, m: nat)
    requires AtMost(a, m) && AtMost(b, m)
    ensures AtMost(a + b, m)
    ensures Kraft(a + b, m) == Kraft(a, m) + Kraft(b, m)
  {
    if a == [] {
      assert a + b == b;
    } else {
      assert (a + b)[1..] == a[1..] + b;
      KraftConcat(a[1..], b, m);
    }
  }

  lemma {:induction false} CostConcat(v: seq<nat>, k: seq<nat>, w: seq<nat>, l: seq<nat>)
    requires |v| == |k| && |w| == |l|
    ensures Cost(v + w, k + l) == Cost(v, k) + Cost(w, l)
  {
    if v == [] {
      assert v + w == w && k + l == l;
    } else {
      assert (v + w)[1..] == v[1..] + w && (k + l)[1..] == k[1..] + l;
      CostConcat(v[1..], k[1..], w, l);
    }
  }

  lemma {:induction false} Distribute(c: int, a: int, b: int)
    ensures c * (a + b) == c * a + c * b
  {
  }

  /** Refining the unit from 2^-k to 2^-m multiplies the Kraft sum by 2^(m-k). */
  lemma {:induction false} KraftRescale(l: seq<nat>, k: nat, m: nat)
    requires AtMost(l, k) && k <= m
    ensures AtMost(l, m)
    ensures Kraft(l, m) == Pow2(m - k) * Kraft(l, k)
  {
    if l != [] {
      KraftRescale(l[1..], k, m);
      Pow2Add(m - k, k - l[0]);
      Distribute(Pow2(m - k), Pow2(k - l[0]), Kraft(l[1..], k));
    }
  }

  /** Replacing one length changes Kraft sum and cost by that entry alone. */
  lemma {:induction false} ReplaceOne(w: seq<nat>, l: seq<nat>, i: nat, x: nat, m: nat)
    requires |w| == |l| && i < |l| && AtMost(l, m) && x <= m
    ensures AtMost(l[i := x], m)
    ensures Kraft(l[i := x], m) + Pow2(m - l[i]) == Kraft(l, m) + Pow2(m - x)
    ensures Cost(w, l[i := x]) + Times(w[i], l[i]) == Cost(w, l) + Times(w[i], x)
  {
    if i == 0 {
      assert l[i := x][1..] == l[1..];
    } else {
      assert l[i := x][1..] == l[1..][i - 1 := x];
      ReplaceOne(w[1..], l[1..], i - 1, x, m);
    }
  }
}
