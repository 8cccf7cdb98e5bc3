/** Prefix codes in general: every one of them meets Kraft's inequality, so optimal lengths beat all of them. */
module PrefixCodes {
  import opened Powers
  import opened CodeLengths
  import opened HuffmanMerge

  /** No code word is the beginning of another. */
  ghost predicate IsPrefixCode(c: seq<seq<bool>>) {
    forall i, j :: 0 <= i < |c| && 0 <= j < |c| && i != j ==> !(c[i] <= c[j])
  }

  ghost function Lengths(c: seq<seq<bool>>): (l: seq<nat>)
    ensures |l| == |c|
  {
    seq(|c|, i requires 0 <= i < |c| => |c[i]|)
  }

  /** What follows the bit b in the words that begin with it. */
  ghost function Behind(c: seq<seq<bool>>, b: bool): (t: seq<seq<bool>>)
    ensures |t| <= |c|
  {
    if c == [] then []
    else
      var x := c[|c| - 1];
      Behind(c[..|c| - 1], b) + if x != [] && x[0] == b then [x[1..]] else []
  }

  lemma {:induction false} ShorterCode(c: seq<seq<bool>>, n: nat)
    requires IsPrefixCode(c) && n <= |c|
    ensures IsPrefixCode(c[..n])
  {
  }

  lemma {:induction false} BehindIsPrefixCode(c: seq<seq<bool>>, b: bool)
    requires IsPrefixCode(c)
    ensures IsPrefixCode(Behind(c, b)) && forall t :: t in Behind(c, b) ==> [b] + t in c
  {
    if c != [] {
      var n := |c| - 1;
      var x, s := c[n], Behind(c[..n], b);
      ShorterCode(c, n);
      BehindIsPrefixCode(c[..n], b);
      hide IsPrefixCode;
      if x != [] && x[0] == b {
        assert [b] + x[1..] == x;
        assert Behind(c, b) == s + [x[1..]];
        forall t | t in s
          ensures !(t <= x[1..]) && !(x[1..] <= t)
        {
          NotComparable(c, t, x[1..], b);
        }
        OneMoreWord(s, x[1..]);
      } else {
        assert Behind(c, b) == s;
      }
    }
  }

  /** A word behind b is not comparable with the last word, if that begins with b, too. */
  lemma {:induction false} NotComparable(c: seq<seq<bool>>, t: seq<bool>, y: seq<bool>, b: bool)
    requires IsPrefixCode(c) && c != [] && c[|c| - 1] == [b] + y && [b] + t in c[..|c| - 1]
    ensures !(t <= y) && !(y <= t)
  {
    var n := |c| - 1;
    var i :| 0 <= i < n && c[..n][i] == [b] + t;
    assert c[i] == [b] + t;
    PrefixUnder(t, y, b);
    PrefixUnder(y, t, b);
  }

  lemma {:induction false} OneMoreWord(s: seq<seq<bool>>, y: seq<bool>)
    requires IsPrefixCode(s) && forall t :: t in s ==> !(t <= y) && !(y <= t)
    ensures IsPrefixCode(s + [y])
  {
    var r := s + [y];
    forall i, j | 0 <= i < |r| && 0 <= j < |r| && i != j
      ensures !(r[i] <= r[j])
    {
      if i < |s| && j == |s| {
        assert s[i] in s;
      } else if i == |s| && j < |s| {
        assert s[j] in s;
      }
    }
  }

  lemma {:induction false} PrefixUnder(s: seq<bool>, t: seq<bool>, b: bool)
    ensures [b] + s <= [b] + t <==> s <= t
  {
    var x, y := [b] + s, [b] + t;
    assert x[1..] == s && y[1..] == t;
    if s <= t {
      assert y[..|x|] == [b] + t[..|s|] == x;
    }
    if x <= y {
      assert t[..|s|] == y[..|x|][1..] == s;
    }
  }

  /** Splitting a code by the first bit splits its share of the code space. */
  lemma {:induction false} KraftSplits(c: seq<seq<bool>>, m: nat)
    requires AtMost(Lengths(c), m + 1) && forall i :: 0 <= i < |c| ==> c[i] != []
    ensures AtMost(Lengths(Behind(c, false)), m) && AtMost(Lengths(Behind(c, true)), m)
    ensures Kraft(Lengths(c), m + 1) == Kraft(Lengths(Behind(c, false)), m) + Kraft(Lengths(Behind(c, true)), m)
  {
    hide Pow2, Kraft, Behind;
    NoLengths(m);
    NoLengths(m + 1);
    if c == [] {
      NothingBehind();
      assert Lengths(c) == [] && Lengths(Behind(c, false)) == [] && Lengths(Behind(c, true)) == [];
    } else {
      var n := |c| - 1;
      var x := c[n];
      LengthsMore(c[..n], x);
      assert c == c[..n] + [x];
      assert forall i :: 0 <= i < n ==> Lengths(c[..n])[i] == Lengths(c)[i];
      assert |x| == Lengths(c)[n];
      KraftSplits(c[..n], m);
      KraftConcat(Lengths(c[..n]), [|x|], m + 1);
      OneLength(|x|, m + 1);
      OneLength(|x| - 1, m);
      BehindMore(c[..n], x);
      var t := Behind(c[..n], x[0]);
      LengthsMore(t, x[1..]);
      KraftConcat(Lengths(t), [|x| - 1], m);
    }
  }

  lemma {:induction false} NothingBehind()
    ensures Behind([], false) == [] && Behind([], true) == []
  {
  }

  lemma {:induction false} BehindMore(c: seq<seq<bool>>, x: seq<bool>)
    requires x != []
    ensures Behind(c + [x], x[0]) == Behind(c, x[0]) + [x[1..]] && Behind(c + [x], !x[0]) == Behind(c, !x[0])
  {
    assert (c + [x])[..|c|] == c;
  }

  lemma {:induction false} LengthsMore(c: seq<seq<bool>>, x: seq<bool>)
    ensures Lengths(c + [x]) == Lengths(c) + [|x|]
  {
  }

  lemma {:induction false} OneLength(x: nat, m: nat)
    requires x <= m
    ensures AtMost([x], m) && Kraft([x], m) == Pow2(m - x)
  {
    assert Kraft([], m) == 0;
  }

  /** Kraft's inequality. */
  lemma {:induction false} KraftInequality(c: seq<seq<bool>>, m: nat)
    requires IsPrefixCode(c) && AtMost(Lengths(c), m)
    ensures Kraft(Lengths(c), m) <= Pow2(m)
    decreases m
  {
    hide Pow2, Kraft;
    if |c| == 0 {
      assert Lengths(c) == [];
      NoLengths(m);
    } else if |c| == 1 {
      assert Lengths(c)[0] == |c[0]| && Lengths(c) == [|c[0]|];
      OneLength(|c[0]|, m);
      Pow2Monotone(m - |c[0]|, m);
    } else {
      NoEmptyWord(c);
      assert Lengths(c)[0] == |c[0]| >= 1;
      BehindIsPrefixCode(c, false);
      BehindIsPrefixCode(c, true);
      KraftSplits(c, m - 1);
      KraftInequality(Behind(c, false), m - 1);
      KraftInequality(Behind(c, true), m - 1);
      DoublePower(m);
    }
  }

  lemma {:induction false} NoEmptyWord(c: seq<seq<bool>>)
    requires IsPrefixCode(c) && |c| >= 2
    ensures forall i :: 0 <= i < |c| ==> c[i] != []
  {
    forall i | 0 <= i < |c|
      ensures c[i] != []
    {
      var j := if i == 0 then 1 else 0;
      assert !(c[i] <= c[j]);
    }
  }

  lemma {:induction false} NoLengths(m: nat)
    ensures AtMost([], m) && Kraft([], m) == 0
  {
  }

  lemma {:induction false} DoublePower(m: nat)
    requires m >= 1
    ensures Pow2(m) == Pow2(m - 1) + Pow2(m - 1)
  {
  }

  lemma {:induction false} LongestWord(c: seq<seq<bool>>) returns (m: nat)
    ensures AtMost(Lengths(c), m)
  {
    if c == [] {
      m := 0;
    } else {
      var n := |c| - 1;
      var k := LongestWord(c[..n]);
      m := if k < |c[n]| then |c[n]| else k;
      forall i | 0 <= i < |c|
        ensures |c[i]| <= m
      {
        assert i < n ==> Lengths(c[..n])[i] == |c[i]|;
      }
    }
  }

  /** Cheapest lengths are no more expensive than any prefix code for the same weights. */
  lemma {:induction false} CheapestBeatsPrefixCodes(w: seq<nat>, l: seq<nat>, c: seq<seq<bool>>)
    requires |l| == |w| == |c| && Cheapest(w, l) && IsPrefixCode(c)
    ensures Cost(w, l) <= Cost(w, Lengths(c))
  {
    hide Kraft, Cost;
    var m := LongestWord(c);
    KraftInequality(c, m);
  }
}
