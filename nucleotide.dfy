/** Character-level rules shared by the SNP detector, the gap counters and the
    genotype assigner. */
module Nucleotide {

  /** The uracil rule: `U`/`u` is decremented by one code point, which makes
      it `T`/`t`; every other character is left alone. */
  function FoldU(c: char): (r: char)
    ensures c == 'U' ==> r == 'T'
    ensures c == 'u' ==> r == 't'
    ensures c != 'U' && c != 'u' ==> r == c
  {
    if c == 'U' || c == 'u' then (c as int - 1) as char else c
  }

  /** An ambiguous base, counted by the source as a gap. */
  predicate IsN(c: char) { c == 'N' || c == 'n' }

  /** The alignment-gap character. */
  const Dash: char := '-'

  /** The number of ambiguous bases among `s[lo..hi]`, counted left to right. */
  function CountN(s: string, lo: int, hi: int): (n: nat)
    requires 0 <= lo && hi <= |s|
    ensures n <= if hi <= lo then 0 else hi - lo
    decreases hi - lo
  {
    if hi <= lo then 0 else CountN(s, lo, hi - 1) + (if IsN(s[hi - 1]) then 1 else 0)
  }

  /** The positions `CountN` counts. */
  function NPositions(s: string, lo: int, hi: int): set<int>
    requires 0 <= lo && hi <= |s|
  {
    set i | lo <= i < hi && IsN(s[i])
  }

  /** `CountN` is exactly the number of `N`/`n` positions in the range. */
  lemma {:induction false} CountNIsCardinality(s: string, lo: int, hi: int)
    requires 0 <= lo && hi <= |s|
    ensures CountN(s, lo, hi) == |NPositions(s, lo, hi)|
    decreases hi - lo
  {
    if hi <= lo {
      assert NPositions(s, lo, hi) == {};
    } else {
      CountNIsCardinality(s, lo, hi - 1);
      if IsN(s[hi - 1]) {
        assert NPositions(s, lo, hi) == NPositions(s, lo, hi - 1) + {hi - 1};
      } else {
        assert NPositions(s, lo, hi) == NPositions(s, lo, hi - 1);
      }
    }
  }

  /** Java's `toLowerCase`, restricted to the ASCII letters sequences use. */
  function LowerChar(c: char): (r: char)
    ensures 'A' <= c <= 'Z' ==> r as int == c as int + 32
    ensures !('A' <= c <= 'Z') ==> r == c
  {
    if 'A' <= c <= 'Z' then (c as int + 32) as char else c
  }

  function Lower(s: string): (r: string)
    ensures |r| == |s|
  {
    seq(|s|, i requires 0 <= i < |s| => LowerChar(s[i]))
  }

  /** Lower-casing keeps ambiguous bases ambiguous and gaps gaps, so counts
      taken on the lower-cased row are the counts of the row itself. */
  lemma LowerKeepsClasses(c: char)
    ensures IsN(LowerChar(c)) <==> IsN(c)
    ensures (LowerChar(c) == Dash) <==> (c == Dash)
    ensures LowerChar(LowerChar(c)) == LowerChar(c)
  {
  }
}
