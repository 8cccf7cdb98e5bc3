/** Lists read backwards: the sorted records ascend in frequency, the tables of a DHT segment descend. */
module ReversedLists {
  import opened Powers
  import opened CodeLengths
  import opened HuffmanMerge

  function Reversed<T>(s: seq<T>): (r: seq<T>)
    ensures |r| == |s| && forall i :: 0 <= i < |s| ==> r[i] == s[|s| - 1 - i]
  {
    if s == [] then [] else Reversed(s[1..]) + [s[0]]
  }

  lemma {:induction false} ReversedTwice<T>(s: seq<T>)
    ensures Reversed(Reversed(s)) == s
  {
  }

  lemma {:induction false} KraftReversed(l: seq<nat>, m: nat)
    requires AtMost(l, m)
    ensures AtMost(Reversed(l), m) && Kraft(Reversed(l), m) == Kraft(l, m)
  {
    if l != [] {
      KraftReversed(l[1..], m);
      KraftConcat(Reversed(l[1..]), [l[0]], m);
      assert Kraft([l[0]], m) == Pow2(m - l[0]) + Kraft([], m);
    }
  }

  lemma {:induction false} CostReversed(w: seq<nat>, l: seq<nat>)
    requires |w| == |l|
    ensures Cost(Reversed(w), Reversed(l)) == Cost(w, l)
  {
    if w != [] {
      CostReversed(w[1..], l[1..]);
      CostConcat(Reversed(w[1..]), Reversed(l[1..]), [w[0]], [l[0]]);
      assert Cost([w[0]], [l[0]]) == Times(w[0], l[0]) + Cost([], []);
    }
  }

  /** Cheapest lengths stay cheapest when symbols and lengths are listed backwards. */
  lemma {:induction false} CheapestReversed(w: seq<nat>, l: seq<nat>)
    requires |w| == |l| && Cheapest(w, l)
    ensures Cheapest(Reversed(w), Reversed(l))
  {
    hide Cost, Kraft, Pow2;
    CostReversed(w, l);
    forall l': seq<nat>, m: nat | |l'| == |w| && AtMost(l', m) && Kraft(l', m) <= Pow2(m)
      ensures Cost(Reversed(w), Reversed(l)) <= Cost(Reversed(w), l')
    {
      KraftReversed(l', m);
      CostReversed(w, Reversed(l'));
      ReversedTwice(l');
    }
  }
}
