/** `getIndicesOfSnps`: the positions in an inclusive range where a query
    row differs from a reference row, with ambiguous query bases counted
    apart as gaps. */
module SnpDetector {
  import opened Nucleotide

  /** Every `charAt(i)` of the scan is inside both rows (or the range is empty). */
  predicate IndexableRange(reference: string, alternate: string, start: int, stop: int) {
    start > stop || (0 <= start && stop < |reference| && stop < |alternate|)
  }

  /** Position `i` is a SNP: after the uracil rule the query base is not
      ambiguous and differs from the reference base. */
  predicate IsSnpAt(reference: string, alternate: string, i: int)
    requires 0 <= i < |reference| && i < |alternate|
  {
    !IsN(FoldU(alternate[i])) && FoldU(alternate[i]) != FoldU(reference[i])
  }

  /** The SNP positions in `[start, k)`, in scan order. */
  function SnpsBelow(reference: string, alternate: string, start: int, k: int): seq<int>
    requires k <= start || (0 <= start && k <= |reference| && k <= |alternate|)
    decreases k - start
  {
    if k <= start then []
    else SnpsBelow(reference, alternate, start, k - 1)
         + (if IsSnpAt(reference, alternate, k - 1) then [k - 1] else [])
  }

  /** The SNP positions in the inclusive range `[start, stop]`. */
  function SnpIndices(reference: string, alternate: string, start: int, stop: int): seq<int>
    requires IndexableRange(reference, alternate, start, stop)
  {
    SnpsBelow(reference, alternate, start, stop + 1)
  }

  /** The ambiguous query bases in the inclusive range `[start, stop]`. */
  function GapCount(alternate: string, start: int, stop: int): nat
    requires start > stop || (0 <= start && stop < |alternate|)
  {
    if start > stop then 0 else CountN(alternate, start, stop + 1)
  }

  /** The scan of `getIndicesOfSnps` (FinalizeRunOperation.java:960-999). The
      gap count is what the source writes into its calculation record. */
  method GetIndicesOfSnps(referenceSequence: string, alternateSequence: string, start: int, stop: int)
    returns (indicesOfSnps: seq<int>, numberOfGapsEncountered: nat)
    requires IndexableRange(referenceSequence, alternateSequence, start, stop)
    ensures indicesOfSnps == SnpIndices(referenceSequence, alternateSequence, start, stop)
    ensures numberOfGapsEncountered == GapCount(alternateSequence, start, stop)
  {
    indicesOfSnps := [];
    numberOfGapsEncountered := 0;
    var i := start;
    while i <= stop
      invariant start <= i && (i <= stop + 1 || i == start)
      invariant indicesOfSnps == SnpsBelow(referenceSequence, alternateSequence, start, i)
      invariant numberOfGapsEncountered == if i <= start then 0 else CountN(alternateSequence, start, i)
    {
      var ref := FoldU(referenceSequence[i]);
      var alt := FoldU(alternateSequence[i]);
      if IsN(alt) {
        numberOfGapsEncountered := numberOfGapsEncountered + 1;
      } else if alt != ref {
        indicesOfSnps := indicesOfSnps + [i];
      }
      i := i + 1;
    }
  }

  lemma {:induction false} SnpsBelowCharacterized(reference: string, alternate: string, start: int, k: int)
    requires k <= start || (0 <= start && k <= |reference| && k <= |alternate|)
    ensures forall j :: 0 <= j < |SnpsBelow(reference, alternate, start, k)| ==>
      start <= SnpsBelow(reference, alternate, start, k)[j] < k
    ensures forall j :: 0 <= j < |SnpsBelow(reference, alternate, start, k)| ==>
      IsSnpAt(reference, alternate, SnpsBelow(reference, alternate, start, k)[j])
    ensures forall j, l :: 0 <= j < l < |SnpsBelow(reference, alternate, start, k)| ==>
      SnpsBelow(reference, alternate, start, k)[j] < SnpsBelow(reference, alternate, start, k)[l]
    ensures forall x :: start <= x < k && IsSnpAt(reference, alternate, x) ==> x in SnpsBelow(reference, alternate, start, k)
    decreases k - start
  {
    if k > start {
      SnpsBelowCharacterized(reference, alternate, start, k - 1);
      var r0 := SnpsBelow(reference, alternate, start, k - 1);
      var r := SnpsBelow(reference, alternate, start, k);
      if IsSnpAt(reference, alternate, k - 1) {
        assert r == r0 + [k - 1];
      } else {
        assert r == r0;
      }
    }
  }

  /** The returned positions are strictly increasing, lie in `[start, stop]`,
      and are exactly the SNP positions of the range; an empty range yields
      no positions and no gaps. */
  lemma SnpIndicesAreTheSnps(reference: string, alternate: string, start: int, stop: int)
    requires IndexableRange(reference, alternate, start, stop)
    ensures var r := SnpIndices(reference, alternate, start, stop);
      && (forall j, l :: 0 <= j < l < |r| ==> r[j] < r[l])
      && (forall j :: 0 <= j < |r| ==> start <= r[j] <= stop)
      && (forall x :: x in r <==> start <= x <= stop && IsSnpAt(reference, alternate, x))
    ensures start > stop ==> SnpIndices(reference, alternate, start, stop) == [] && GapCount(alternate, start, stop) == 0
  {
    SnpsBelowCharacterized(reference, alternate, start, stop + 1);
  }

  /** The gap count is the number of `N`/`n` query positions in the range. */
  lemma GapCountIsNPositions(alternate: string, start: int, stop: int)
    requires 0 <= start <= stop < |alternate|
    ensures GapCount(alternate, start, stop) == |set i | start <= i <= stop && IsN(alternate[i])|
  {
    CountNIsCardinality(alternate, start, stop + 1);
    assert NPositions(alternate, start, stop + 1) == set i | start <= i <= stop && IsN(alternate[i]);
  }

  lemma {:induction false} SnpsAndGapsBelowBound(reference: string, alternate: string, start: int, k: int)
    requires start < k && 0 <= start && k <= |reference| && k <= |alternate|
    ensures |SnpsBelow(reference, alternate, start, k)| + CountN(alternate, start, k) <= k - start
    decreases k - start
  {
    if k - 1 > start {
      SnpsAndGapsBelowBound(reference, alternate, start, k - 1);
    }
  }

  /** SNPs and gaps together never exceed the number of positions scanned. */
  lemma SnpsAndGapsBound(reference: string, alternate: string, start: int, stop: int)
    requires IndexableRange(reference, alternate, start, stop)
    ensures |SnpIndices(reference, alternate, start, stop)| + GapCount(alternate, start, stop)
            <= if start > stop then 0 else stop - start + 1
  {
    if start <= stop {
      SnpsAndGapsBelowBound(reference, alternate, start, stop + 1);
    }
  }

  lemma {:induction false} IdenticalBelow(reference: string, alternate: string, start: int, k: int)
    requires k <= start || (0 <= start && k <= |reference| && k <= |alternate|)
    requires forall i :: start <= i < k ==> FoldU(alternate[i]) == FoldU(reference[i]) && !IsN(alternate[i])
    ensures SnpsBelow(reference, alternate, start, k) == []
    ensures k > start ==> CountN(alternate, start, k) == 0
    decreases k - start
  {
    if k > start {
      IdenticalBelow(reference, alternate, start, k - 1);
    }
  }

  /** A query equal to the reference up to the uracil rule, with no
      ambiguous base, yields no SNPs and no gaps. */
  lemma IdenticalUpToUracilHasNoSnps(reference: string, alternate: string, start: int, stop: int)
    requires IndexableRange(reference, alternate, start, stop)
    requires forall i :: start <= i <= stop ==> FoldU(alternate[i]) == FoldU(reference[i]) && !IsN(alternate[i])
    ensures SnpIndices(reference, alternate, start, stop) == []
    ensures GapCount(alternate, start, stop) == 0
  {
    IdenticalBelow(reference, alternate, start, stop + 1);
  }

  /** "AUG" against "ATG" over `[0, 2]`: `U` and `T` are the same base. */
  lemma UracilExample()
    ensures SnpIndices("AUG", "ATG", 0, 2) == [] && GapCount("ATG", 0, 2) == 0
  {
    IdenticalUpToUracilHasNoSnps("AUG", "ATG", 0, 2);
  }
}
