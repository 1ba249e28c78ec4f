/** The gap counters and the minimum-coverage scans of
    `parseNucleotideSequenceDocument`, `parseAlignmentDocument` and the CDS
    pass of `performOperation`. Coverage is the per-column read count that
    the alignment summary reports, given here as a sequence. */
module Coverage {
  import opened Common
  import opened Nucleotide

  /** Total gap count: every `N`/`n` of the consensus
      (FinalizeRunOperation.java:621-634). */
  method CountTotalGaps(sequenceString: string) returns (gapCount: nat)
    ensures gapCount == CountN(sequenceString, 0, |sequenceString|)
    ensures gapCount == |NPositions(sequenceString, 0, |sequenceString|)|
  {
    gapCount := 0;
    var i := 0;
    while i < |sequenceString|
      invariant 0 <= i <= |sequenceString|
      invariant gapCount == CountN(sequenceString, 0, i)
    {
      var c := sequenceString[i];
      if c == 'n' || c == 'N' {
        gapCount := gapCount + 1;
      }
      i := i + 1;
    }
    CountNIsCardinality(sequenceString, 0, |sequenceString|);
  }

  /** The 1-based inclusive CDS interval `[cdsMin, cdsMax]` reads only
      characters of the row (or is empty). */
  predicate CdsIntervalInside(sequence: string, cdsMin: int, cdsMax: int) {
    cdsMin > cdsMax || (1 <= cdsMin && cdsMax <= |sequence|)
  }

  /** The ambiguous bases of the 1-based inclusive interval `[cdsMin, cdsMax]`. */
  function CdsGapCount(sequence: string, cdsMin: int, cdsMax: int): nat
    requires CdsIntervalInside(sequence, cdsMin, cdsMax)
  {
    if cdsMin > cdsMax then 0 else CountN(sequence, cdsMin - 1, cdsMax)
  }

  /** CDS gap count (FinalizeRunOperation.java:1527-1537): `charAt(i - 1)`
      for every 1-based `i` of the CDS annotation. */
  method CountCdsGaps(sequence: string, cdsMin: int, cdsMax: int) returns (cdsGapCount: nat)
    requires CdsIntervalInside(sequence, cdsMin, cdsMax)
    ensures cdsGapCount == CdsGapCount(sequence, cdsMin, cdsMax)
    ensures cdsMin <= cdsMax ==> cdsGapCount == |NPositions(sequence, cdsMin - 1, cdsMax)|
  {
    cdsGapCount := 0;
    var i := cdsMin;
    while i <= cdsMax
      invariant cdsMin <= i && (i <= cdsMax + 1 || i == cdsMin)
      invariant cdsGapCount == if i <= cdsMin then 0 else CountN(sequence, cdsMin - 1, i - 1)
    {
      var c := sequence[i - 1];
      if c == 'N' || c == 'n' {
        cdsGapCount := cdsGapCount + 1;
      }
      i := i + 1;
    }
    if cdsMin <= cdsMax {
      CountNIsCardinality(sequence, cdsMin - 1, cdsMax);
    }
  }

  /** The half-open column window `[max(0, min), min(columns, max + 1))` the
      source scans for an annotation `[min, max]`
      (FinalizeRunOperation.java:748-755, 779-786). */
  function ColumnWindowLow(annotationMinimum: int): nat {
    if annotationMinimum < 0 then 0 else annotationMinimum
  }

  function ColumnWindowHigh(annotationMaximum: int, columns: nat): (hi: int)
    ensures hi <= columns
  {
    Min(columns, annotationMaximum + 1)
  }

  /** Both scans read `consensus[i]` and `coverage[i]` for columns of the alignment. */
  predicate ColumnsReadable(consensus: string, coverage: seq<int>, lo: int, hi: int) {
    0 <= lo && (hi <= lo || (hi <= |consensus| && hi <= |coverage|))
  }

  /** `min(Integer.MAX_VALUE, min of coverage[i] - 1 over the non-gap
      columns i of [lo, hi))`, taken left to right as the loop does. */
  function MinCoverage(consensus: string, coverage: seq<int>, lo: int, hi: int): int
    requires ColumnsReadable(consensus, coverage, lo, hi)
    decreases hi - lo
  {
    if hi <= lo then IntMax
    else
      var m := MinCoverage(consensus, coverage, lo, hi - 1);
      if consensus[hi - 1] != Dash && coverage[hi - 1] - 1 < m then coverage[hi - 1] - 1 else m
  }

  /** The minimum-coverage loop (FinalizeRunOperation.java:756-764, 790-797). */
  method MinimumCoverage(consensus: string, coverage: seq<int>, lo: int, hi: int) returns (minimumCoverage: int)
    requires ColumnsReadable(consensus, coverage, lo, hi)
    ensures minimumCoverage == MinCoverage(consensus, coverage, lo, hi)
  {
    minimumCoverage := IntMax;
    var i := lo;
    while i < hi
      invariant lo <= i && (i <= hi || i == lo)
      invariant minimumCoverage == MinCoverage(consensus, coverage, lo, i)
    {
      if consensus[i] != Dash {
        var columnCoverage := coverage[i] - 1;
        if columnCoverage < minimumCoverage {
          minimumCoverage := columnCoverage;
        }
      }
      i := i + 1;
    }
  }

  /** A column that is not a gap in the consensus. */
  predicate CoveredColumn(consensus: string, coverage: seq<int>, lo: int, hi: int, i: int)
    requires ColumnsReadable(consensus, coverage, lo, hi)
  {
    lo <= i < hi && consensus[i] != Dash
  }

  /** The result is below the sentinel and below `coverage[i] - 1` of every
      non-gap column; it is the sentinel or the value of one such column. */
  lemma {:induction false} MinCoverageIsMinimum(consensus: string, coverage: seq<int>, lo: int, hi: int)
    requires ColumnsReadable(consensus, coverage, lo, hi)
    ensures MinCoverage(consensus, coverage, lo, hi) <= IntMax
    ensures forall i :: CoveredColumn(consensus, coverage, lo, hi, i) ==>
      MinCoverage(consensus, coverage, lo, hi) <= coverage[i] - 1
    ensures MinCoverage(consensus, coverage, lo, hi) == IntMax ||
      exists i :: CoveredColumn(consensus, coverage, lo, hi, i) &&
        MinCoverage(consensus, coverage, lo, hi) == coverage[i] - 1
    decreases hi - lo
  {
    if hi > lo {
      MinCoverageIsMinimum(consensus, coverage, lo, hi - 1);
      var m := MinCoverage(consensus, coverage, lo, hi - 1);
      forall i | CoveredColumn(consensus, coverage, lo, hi, i)
        ensures MinCoverage(consensus, coverage, lo, hi) <= coverage[i] - 1
      {
        if i < hi - 1 {
          assert CoveredColumn(consensus, coverage, lo, hi - 1, i);
        }
      }
      if m != IntMax && MinCoverage(consensus, coverage, lo, hi) == m {
        var j :| CoveredColumn(consensus, coverage, lo, hi - 1, j) && m == coverage[j] - 1;
        assert CoveredColumn(consensus, coverage, lo, hi, j);
      }
    }
  }

  /** With no non-gap column in the window the result is `Integer.MAX_VALUE`;
      when read counts are Java `int`s, one non-gap column is enough to bring
      it below the sentinel. */
  lemma {:induction false} MinCoverageSentinel(consensus: string, coverage: seq<int>, lo: int, hi: int)
    requires ColumnsReadable(consensus, coverage, lo, hi)
    requires forall i :: 0 <= i < |coverage| ==> coverage[i] <= IntMax
    ensures (MinCoverage(consensus, coverage, lo, hi) == IntMax) <==>
      !exists i :: CoveredColumn(consensus, coverage, lo, hi, i)
    decreases hi - lo
  {
    MinCoverageIsMinimum(consensus, coverage, lo, hi);
    if hi > lo {
      var h := hi - 1;
      MinCoverageSentinel(consensus, coverage, lo, h);
      if !exists i :: CoveredColumn(consensus, coverage, lo, hi, i) {
        forall i | CoveredColumn(consensus, coverage, lo, h, i)
          ensures CoveredColumn(consensus, coverage, lo, hi, i)
        {
        }
      }
    }
  }

  /** Gap columns never lower the minimum: coverage that differs only at
      gap columns gives the same result. */
  lemma {:induction false} MinCoverageIgnoresGapColumns(consensus: string, coverage: seq<int>, other: seq<int>, lo: int, hi: int)
    requires ColumnsReadable(consensus, coverage, lo, hi) && ColumnsReadable(consensus, other, lo, hi)
    requires forall i :: lo <= i < hi && consensus[i] != Dash ==> coverage[i] == other[i]
    ensures MinCoverage(consensus, coverage, lo, hi) == MinCoverage(consensus, other, lo, hi)
    decreases hi - lo
  {
    if hi > lo {
      MinCoverageIgnoresGapColumns(consensus, coverage, other, lo, hi - 1);
    }
  }

  /** Coverage 10, 0, 5 with the middle column a gap: the minimum is 5 - 1. */
  lemma GapColumnExample()
    ensures MinCoverage("A-A", [10, 0, 5], 0, 3) == 4
  {
  }
}
