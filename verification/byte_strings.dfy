/** The order of byte strings. */
module ByteStrings {
  import opened MachineNumbers

  /** Strings compare byte by byte; a string comes before its continuations. */
  predicate TextLess(a: seq<Byte>, b: seq<Byte>) {
    b != [] && (a == [] || a[0] < b[0] || (a[0] == b[0] && TextLess(a[1..], b[1..])))
  }

  lemma {:induction false} TextTrichotomy(a: seq<Byte>, b: seq<Byte>)
    ensures (TextLess(a, b) || TextLess(b, a) || a == b) && !(TextLess(a, b) && TextLess(b, a))
      && !(a == b && TextLess(a, b))
  {
    if a != [] && b != [] {
      TextTrichotomy(a[1..], b[1..]);
      assert a == [a[0]] + a[1..] && b == [b[0]] + b[1..];
    }
  }

  lemma {:induction false} TextTransitive(a: seq<Byte>, b: seq<Byte>, c: seq<Byte>)
    requires TextLess(a, b) && TextLess(b, c)
    ensures TextLess(a, c)
  {
    if a != [] && b[0] == c[0] && a[0] == b[0] {
      TextTransitive(a[1..], b[1..], c[1..]);
    }
  }

  /** Up to place i the strings agree; there a ends, or has the smaller byte. */
  ghost predicate SmallerAt(a: seq<Byte>, b: seq<Byte>, i: int) {
    0 <= i <= |a| && i < |b| && a[..i] == b[..i] && (i == |a| || a[i] < b[i])
  }

  /** Which of two strings comes first is decided where they differ for the first time. */
  lemma {:induction false} TextLessWhere(a: seq<Byte>, b: seq<Byte>)
    ensures TextLess(a, b) <==> exists i :: SmallerAt(a, b, i)
  {
    if TextLess(a, b) {
      var i := FirstSmaller(a, b);
    }
    forall i | SmallerAt(a, b, i)
      ensures TextLess(a, b)
    {
      SmallerDecides(a, b, i);
    }
  }

  lemma {:induction false} FirstSmaller(a: seq<Byte>, b: seq<Byte>) returns (i: nat)
    requires TextLess(a, b)
    ensures SmallerAt(a, b, i)
  {
    if a == [] || a[0] < b[0] {
      i := 0;
    } else {
      var j := FirstSmaller(a[1..], b[1..]);
      i := j + 1;
      assert a[..i] == [a[0]] + a[1..][..j] && b[..i] == [b[0]] + b[1..][..j];
    }
  }

  lemma {:induction false} SmallerDecides(a: seq<Byte>, b: seq<Byte>, i: nat)
    requires SmallerAt(a, b, i)
    ensures TextLess(a, b)
  {
    if i > 0 {
      assert a[0] == a[..i][0] == b[..i][0] == b[0];
      assert a[1..][..i - 1] == a[..i][1..] == b[..i][1..] == b[1..][..i - 1];
      SmallerDecides(a[1..], b[1..], i - 1);
    }
  }
}
