/** The records that the JPEG encoder's table optimiser sorts and works on in place. */
module SymbolFrequencies {
  import opened MachineNumbers

  /** A symbol and its key: a frequency before the calculation, a code length after it. */
  datatype SymFreq = SymFreq(key: nat, symIndex: nat)

  /** Addition of unsigned 32-bit numbers. */
  function Add32(x: nat, y: nat): nat {
    (x + y) % UINT32_RANGE
  }

  lemma {:induction false} NoWrap(x: nat, y: nat)
    requires x + y < UINT32_RANGE
    ensures Add32(x, y) == x + y
  {
  }

  function Keys(s: seq<SymFreq>): (k: seq<nat>)
    ensures |k| == |s| && forall i :: 0 <= i < |s| ==> k[i] == s[i].key
  {
    seq(|s|, i requires 0 <= i < |s| => s[i].key)
  }

  ghost predicate SameSymbols(s: seq<SymFreq>, s': seq<SymFreq>) {
    |s| == |s'| && forall i :: 0 <= i < |s| ==> s[i].symIndex == s'[i].symIndex
  }

  lemma {:induction false} SymbolsTransitive(s: seq<SymFreq>, s1: seq<SymFreq>, s2: seq<SymFreq>)
    requires SameSymbols(s, s1) && SameSymbols(s1, s2)
    ensures SameSymbols(s, s2)
  {
  }
}
