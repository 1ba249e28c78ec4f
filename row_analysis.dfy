/** What the analysis does with one genome row of an alignment against its
    reference row (FinalizeRunOperation.java:1408-1443 for VP1 alignments,
    1525-1788 for whole-genome alignments), once the row has been matched to
    its record. Rows are lower-cased before they are compared, as the source
    does with `toLowerCase()`. */
module RowAnalysis {
  import opened Common
  import opened Nucleotide
  import opened SnpDetector
  import opened Coverage
  import opened Errors
  import opened Annotations
  import opened Recombination
  import opened ExcelRecord

  // ---------------------------------------------------------------------
  // VP1 alignments (FinalizeRunOperation.java:1408-1443)

  /** Every `charAt(i - 1)` for a 1-based `i` in `[vp1Min, vp1Max]` is inside
      both rows, or the interval is empty. */
  predicate Vp1RangeReadable(reference: string, sequence: string, vp1Min: int, vp1Max: int) {
    vp1Min > vp1Max || (1 <= vp1Min && vp1Max <= |reference| && vp1Max <= |sequence|)
  }

  /** The 1-based position `p` is recorded as a VP1 substitution: after the
      uracil rule the sample base is neither a gap nor ambiguous and differs
      from the reference base. */
  predicate IsVp1SnpPosition(reference: string, sequence: string, p: int)
    requires 1 <= p <= |reference| && p <= |sequence|
  {
    FoldU(sequence[p - 1]) != Dash && IsSnpAt(reference, sequence, p - 1)
  }

  /** `snp` describes a substitution of the VP1 interval starting at `vp1Min`. */
  predicate Vp1SnpRecorded(referenceName: string, reference: string, sequence: string, vp1Min: int,
                           snp: SingleNucleotidePolymorphism)
  {
    var p := vp1Min + snp.index - 1;
    1 <= snp.index && 1 <= p <= |reference| && p <= |sequence| &&
    snp.reference == referenceName && snp.ref == FoldU(reference[p - 1]) && snp.alt == FoldU(sequence[p - 1]) &&
    IsVp1SnpPosition(reference, sequence, p)
  }

  /** What the VP1 pass accumulates: the substitutions, the ambiguous bases
      and whether a gap was seen. */
  datatype Vp1Scan = Vp1Scan(snps: seq<SingleNucleotidePolymorphism>, gapCount: nat, sawDash: bool)

  /** The pass over the 1-based positions `[vp1Min, k)`. */
  function Vp1ScanBelow(referenceName: string, reference: string, sequence: string, vp1Min: int, k: int): Vp1Scan
    requires vp1Min <= k
    requires k == vp1Min || (1 <= vp1Min && k - 1 <= |reference| && k - 1 <= |sequence|)
    decreases k - vp1Min
  {
    if k == vp1Min then Vp1Scan([], 0, false)
    else
      var prev := Vp1ScanBelow(referenceName, reference, sequence, vp1Min, k - 1);
      var ref := FoldU(reference[k - 2]);
      var alt := FoldU(sequence[k - 2]);
      if alt == Dash then prev.(sawDash := true)
      else if IsN(alt) then prev.(gapCount := prev.gapCount + 1)
      else if ref != alt then prev.(snps := prev.snps + [SingleNucleotidePolymorphism(referenceName, ref, alt, k - vp1Min)])
      else prev
  }

  /** The pass over the whole inclusive interval `[vp1Min, vp1Max]`. */
  function Vp1ScanOf(referenceName: string, reference: string, sequence: string, vp1Min: int, vp1Max: int): Vp1Scan
    requires Vp1RangeReadable(reference, sequence, vp1Min, vp1Max)
  {
    if vp1Min > vp1Max then Vp1Scan([], 0, false)
    else Vp1ScanBelow(referenceName, reference, sequence, vp1Min, vp1Max + 1)
  }

  /** The counts of the pass over `[vp1Min, k)`. */
  lemma {:induction false} Vp1ScanBelowCounts(referenceName: string, reference: string, sequence: string,
                                               vp1Min: int, k: int)
    requires vp1Min <= k
    requires k == vp1Min || (1 <= vp1Min && k - 1 <= |reference| && k - 1 <= |sequence|)
    ensures var scan := Vp1ScanBelow(referenceName, reference, sequence, vp1Min, k);
      |scan.snps| + scan.gapCount <= k - vp1Min
    ensures k > vp1Min ==> Vp1ScanBelow(referenceName, reference, sequence, vp1Min, k).gapCount == CountN(sequence, vp1Min - 1, k - 1)
    ensures Vp1ScanBelow(referenceName, reference, sequence, vp1Min, k).sawDash <==>
      exists q :: vp1Min - 1 <= q < k - 1 && sequence[q] == Dash
    decreases k - vp1Min
  {
    if k > vp1Min {
      Vp1ScanBelowCounts(referenceName, reference, sequence, vp1Min, k - 1);
      var prev := Vp1ScanBelow(referenceName, reference, sequence, vp1Min, k - 1);
      var scan := Vp1ScanBelow(referenceName, reference, sequence, vp1Min, k);
      var alt := FoldU(sequence[k - 2]);
      assert alt == Dash <==> sequence[k - 2] == Dash;
      assert IsN(alt) <==> IsN(sequence[k - 2]);
      if scan.sawDash && !prev.sawDash {
        assert sequence[k - 2] == Dash;
      }
    }
  }

  /** Every element of `snps` is a substitution at a 1-based offset of at
      most `bound` into the interval. */
  predicate SnpsRecorded(referenceName: string, reference: string, sequence: string, vp1Min: int, bound: int,
                         snps: seq<SingleNucleotidePolymorphism>)
  {
    forall j :: 0 <= j < |snps| ==> snps[j].index <= bound && Vp1SnpRecorded(referenceName, reference, sequence, vp1Min, snps[j])
  }

  predicate IndicesIncreasing(snps: seq<SingleNucleotidePolymorphism>) {
    forall j, l :: 0 <= j < l < |snps| ==> snps[j].index < snps[l].index
  }

  /** Every substitution at a 1-based position of `[vp1Min, k)` is in `snps`. */
  predicate SnpsComplete(reference: string, sequence: string, vp1Min: int, k: int, snps: seq<SingleNucleotidePolymorphism>)
    requires k == vp1Min || (1 <= vp1Min && k - 1 <= |reference| && k - 1 <= |sequence|)
  {
    forall p :: vp1Min <= p < k && IsVp1SnpPosition(reference, sequence, p) ==>
      exists j :: 0 <= j < |snps| && snps[j].index == p - vp1Min + 1
  }

  /** Every substitution the pass over `[vp1Min, k)` records is one, at a
      position of the range, in increasing order. */
  lemma {:induction false} Vp1ScanBelowSound(referenceName: string, reference: string, sequence: string,
                                              vp1Min: int, k: int)
    requires vp1Min <= k
    requires k == vp1Min || (1 <= vp1Min && k - 1 <= |reference| && k - 1 <= |sequence|)
    ensures SnpsRecorded(referenceName, reference, sequence, vp1Min, k - vp1Min,
                         Vp1ScanBelow(referenceName, reference, sequence, vp1Min, k).snps)
    ensures IndicesIncreasing(Vp1ScanBelow(referenceName, reference, sequence, vp1Min, k).snps)
    decreases k - vp1Min
  {
    if k > vp1Min {
      Vp1ScanBelowSound(referenceName, reference, sequence, vp1Min, k - 1);
      var prev := Vp1ScanBelow(referenceName, reference, sequence, vp1Min, k - 1);
      var scan := Vp1ScanBelow(referenceName, reference, sequence, vp1Min, k);
      if |scan.snps| > |prev.snps| {
        var snp := SingleNucleotidePolymorphism(referenceName, FoldU(reference[k - 2]), FoldU(sequence[k - 2]), k - vp1Min);
        assert scan.snps == prev.snps + [snp];
        assert IsN(FoldU(sequence[k - 2])) <==> IsN(sequence[k - 2]);
        assert IsVp1SnpPosition(reference, sequence, k - 1);
        assert Vp1SnpRecorded(referenceName, reference, sequence, vp1Min, snp);
      } else {
        assert scan.snps == prev.snps;
      }
    }
  }

  /** Every substitution of `[vp1Min, k)` is recorded. */
  lemma {:induction false} Vp1ScanBelowComplete(referenceName: string, reference: string, sequence: string,
                                                 vp1Min: int, k: int)
    requires vp1Min <= k
    requires k == vp1Min || (1 <= vp1Min && k - 1 <= |reference| && k - 1 <= |sequence|)
    ensures SnpsComplete(reference, sequence, vp1Min, k, Vp1ScanBelow(referenceName, reference, sequence, vp1Min, k).snps)
    decreases k - vp1Min
  {
    if k > vp1Min {
      Vp1ScanBelowComplete(referenceName, reference, sequence, vp1Min, k - 1);
      var prev := Vp1ScanBelow(referenceName, reference, sequence, vp1Min, k - 1);
      var scan := Vp1ScanBelow(referenceName, reference, sequence, vp1Min, k);
      assert IsN(FoldU(sequence[k - 2])) <==> IsN(sequence[k - 2]);
      forall p | vp1Min <= p < k && IsVp1SnpPosition(reference, sequence, p)
        ensures exists j :: 0 <= j < |scan.snps| && scan.snps[j].index == p - vp1Min + 1
      {
        if p < k - 1 {
          var j :| 0 <= j < |prev.snps| && prev.snps[j].index == p - vp1Min + 1;
          assert scan.snps == prev.snps || scan.snps == prev.snps + [scan.snps[|scan.snps| - 1]];
          assert scan.snps[j] == prev.snps[j];
        } else {
          assert scan.snps == prev.snps + [SingleNucleotidePolymorphism(referenceName, FoldU(reference[k - 2]), FoldU(sequence[k - 2]), k - vp1Min)];
          assert scan.snps[|scan.snps| - 1].index == p - vp1Min + 1;
        }
      }
    }
  }

  /** The VP1 pass records exactly the substitutions of the interval, in
      order, numbered from 1 at the start of VP1; gap positions are neither
      substitutions nor ambiguous bases; and the ambiguous bases are those
      the CDS and genome gap counts count. */
  lemma Vp1ScanIsTheSubstitutions(referenceName: string, reference: string, sequence: string, vp1Min: int, vp1Max: int)
    requires Vp1RangeReadable(reference, sequence, vp1Min, vp1Max)
    ensures SnpsRecorded(referenceName, reference, sequence, vp1Min, vp1Max - vp1Min + 1,
                         Vp1ScanOf(referenceName, reference, sequence, vp1Min, vp1Max).snps)
    ensures IndicesIncreasing(Vp1ScanOf(referenceName, reference, sequence, vp1Min, vp1Max).snps)
    ensures vp1Min <= vp1Max ==>
      SnpsComplete(reference, sequence, vp1Min, vp1Max + 1, Vp1ScanOf(referenceName, reference, sequence, vp1Min, vp1Max).snps)
    ensures var scan := Vp1ScanOf(referenceName, reference, sequence, vp1Min, vp1Max);
      scan.gapCount == CdsGapCount(sequence, vp1Min, vp1Max) &&
      |scan.snps| + scan.gapCount <= if vp1Min > vp1Max then 0 else vp1Max - vp1Min + 1
    ensures Vp1ScanOf(referenceName, reference, sequence, vp1Min, vp1Max).sawDash <==>
      exists q :: vp1Min - 1 <= q < vp1Max && sequence[q] == Dash
  {
    if vp1Min <= vp1Max {
      assert Vp1ScanOf(referenceName, reference, sequence, vp1Min, vp1Max) ==
        Vp1ScanBelow(referenceName, reference, sequence, vp1Min, vp1Max + 1);
      Vp1ScanBelowCounts(referenceName, reference, sequence, vp1Min, vp1Max + 1);
      Vp1ScanBelowSound(referenceName, reference, sequence, vp1Min, vp1Max + 1);
      Vp1ScanBelowComplete(referenceName, reference, sequence, vp1Min, vp1Max + 1);
    }
  }

  lemma {:induction false} IdenticalVp1Below(referenceName: string, reference: string, sequence: string, vp1Min: int, k: int)
    requires vp1Min <= k
    requires k == vp1Min || (1 <= vp1Min && k - 1 <= |reference| && k - 1 <= |sequence|)
    requires forall q :: vp1Min - 1 <= q < k - 1 ==>
      FoldU(sequence[q]) == FoldU(reference[q]) && !IsN(sequence[q]) && sequence[q] != Dash
    ensures Vp1ScanBelow(referenceName, reference, sequence, vp1Min, k) == Vp1Scan([], 0, false)
    decreases k - vp1Min
  {
    if k > vp1Min {
      IdenticalVp1Below(referenceName, reference, sequence, vp1Min, k - 1);
      assert IsN(FoldU(sequence[k - 2])) <==> IsN(sequence[k - 2]);
    }
  }

  /** A sample that agrees with the reference across VP1 up to the uracil
      rule, with no ambiguous base and no gap, has no VP1 substitution, no
      VP1 gap and does not raise the partial-coverage flag. */
  lemma IdenticalVp1HasNoSnps(referenceName: string, reference: string, sequence: string, vp1Min: int, vp1Max: int)
    requires Vp1RangeReadable(reference, sequence, vp1Min, vp1Max)
    requires forall q :: vp1Min - 1 <= q < vp1Max ==>
      FoldU(sequence[q]) == FoldU(reference[q]) && !IsN(sequence[q]) && sequence[q] != Dash
    ensures Vp1ScanOf(referenceName, reference, sequence, vp1Min, vp1Max) == Vp1Scan([], 0, false)
  {
    if vp1Min <= vp1Max {
      IdenticalVp1Below(referenceName, reference, sequence, vp1Min, vp1Max + 1);
    }
  }

  /** The 1-based position at which the VP1 pass over a range that is not
      readable throws: the first `i` of `[vp1Min, vp1Max]` whose
      `charAt(i - 1)` leaves one of the rows. */
  function Vp1AbortPosition(reference: string, sequence: string, vp1Min: int, vp1Max: int): (k: int)
    requires !Vp1RangeReadable(reference, sequence, vp1Min, vp1Max)
    ensures vp1Min <= k <= vp1Max
    ensures k - 1 < 0 || k - 1 >= |reference| || k - 1 >= |sequence|
    ensures k == vp1Min || (1 <= vp1Min && k - 1 <= |reference| && k - 1 <= |sequence|)
  {
    if vp1Min < 1 then vp1Min
    else if vp1Min > Min(|reference|, |sequence|) + 1 then vp1Min
    else Min(|reference|, |sequence|) + 1
  }

  /** One genome row of a VP1 alignment (FinalizeRunOperation.java:1408-1443):
      the row's substitutions and ambiguous bases over the reference's VP1
      interval, and the partial-coverage flag raised by any gap. When an
      index leaves the rows, the pass stops there with the fatal error; the
      SNPs and the gap count are not stored, but the gaps seen before that
      position have already raised the flag. */
  method AnalyzeVp1Row(rec: ExcelData, referenceName: string, referenceRow: string, sequenceRow: string,
                       vp1Min: int, vp1Max: int)
    returns (fatal: Option<Fatal>)
    modifies rec`vp1Snps, rec`vp1GapCount, rec`partialVp1CoverageFlag
    ensures fatal.Some? <==> !Vp1RangeReadable(referenceRow, sequenceRow, vp1Min, vp1Max)
    ensures fatal.Some? ==> fatal == Some(IndexOutOfBounds)
    ensures fatal.None? ==>
      var scan := Vp1ScanOf(referenceName, Lower(referenceRow), Lower(sequenceRow), vp1Min, vp1Max);
      rec.vp1Snps == Some(scan.snps) && rec.vp1GapCount == Some(scan.gapCount) &&
      rec.partialVp1CoverageFlag == (old(rec.partialVp1CoverageFlag) || scan.sawDash)
    ensures fatal.Some? ==>
      var reference := Lower(referenceRow);
      var sequence := Lower(sequenceRow);
      var stop := Vp1AbortPosition(reference, sequence, vp1Min, vp1Max);
      rec.vp1Snps == old(rec.vp1Snps) && rec.vp1GapCount == old(rec.vp1GapCount) &&
      rec.partialVp1CoverageFlag ==
        (old(rec.partialVp1CoverageFlag) || Vp1ScanBelow(referenceName, reference, sequence, vp1Min, stop).sawDash)
  {
    var reference := Lower(referenceRow);
    var sequence := Lower(sequenceRow);
    var vp1Snps: seq<SingleNucleotidePolymorphism> := [];
    var vp1GapCount: nat := 0;
    var i := vp1Min;
    while i <= vp1Max
      invariant vp1Min <= i && (i <= vp1Max + 1 || i == vp1Min)
      invariant !Vp1RangeReadable(reference, sequence, vp1Min, vp1Max) ==>
        i <= Vp1AbortPosition(reference, sequence, vp1Min, vp1Max)
      invariant i == vp1Min || (1 <= vp1Min && i - 1 <= |reference| && i - 1 <= |sequence|)
      invariant vp1Snps == Vp1ScanBelow(referenceName, reference, sequence, vp1Min, i).snps
      invariant vp1GapCount == Vp1ScanBelow(referenceName, reference, sequence, vp1Min, i).gapCount
      invariant rec.partialVp1CoverageFlag ==
        (old(rec.partialVp1CoverageFlag) || Vp1ScanBelow(referenceName, reference, sequence, vp1Min, i).sawDash)
      invariant rec.vp1Snps == old(rec.vp1Snps) && rec.vp1GapCount == old(rec.vp1GapCount)
    {
      if i - 1 < 0 || i - 1 >= |reference| || i - 1 >= |sequence| {
        return Some(IndexOutOfBounds);
      }
      var ref := FoldU(reference[i - 1]);
      var alt := FoldU(sequence[i - 1]);
      if alt == Dash {
        rec.partialVp1CoverageFlag := true;
      } else if IsN(alt) {
        vp1GapCount := vp1GapCount + 1;
      } else if ref != alt {
        vp1Snps := vp1Snps + [SingleNucleotidePolymorphism(referenceName, ref, alt, i - vp1Min + 1)];
      }
      i := i + 1;
    }
    rec.vp1Snps := Some(vp1Snps);
    rec.vp1GapCount := Some(vp1GapCount);
    fatal := None;
  }

  // ---------------------------------------------------------------------
  // Whole-genome alignments (FinalizeRunOperation.java:1525-1788)

  /** The row has a base that is not an alignment gap. */
  predicate HasBase(sequence: string) {
    exists i :: 0 <= i < |sequence| && sequence[i] != Dash
  }

  /** The reference the row is compared with: the nOPV2 row for nOPV2
      genomes, the alignment's reference row otherwise. */
  function ComparisonReference(referenceRow: string, nopv2Row: Option<string>, simplifiedType: string): string {
    if IsNopv2Type(simplifiedType) && nopv2Row.Some? then Lower(nopv2Row.value) else Lower(referenceRow)
  }

  /** The error the alignment is recorded under from each analysed row. */
  function Vp1WindowErrors(sorted: seq<Annotation>, alignmentName: string): seq<ErrorEntry> {
    if Vp1WindowUnresolved(sorted) then [ErrorEntry(AlignmentsWithAnUnexpectedNumberOfVp1AnnotationIntervals, alignmentName)]
    else []
  }

  /** What a row of a whole-genome alignment produced. */
  datatype CdsRowOutcome =
    | AllGaps
    | Analyzed(lowest: nat, highest: nat, fivePrime: SnpsCalculation, threePrime: SnpsCalculation,
               vp1: SnpsCalculation, errors: seq<ErrorEntry>)
    | RowAborted(fatal: Fatal)

  /** One genome row of a whole-genome alignment: the CDS gap count, the
      non-gap span, the 5', 3' and VP1 windows and their SNP calculations,
      the recombination note and the partial-CDS note. The rows of an
      alignment have equal lengths. `tTest(flank, vp1)` is whether the
      one-tailed Welch test of a flank against the VP1 window passes. */
  method AnalyzeCdsRow(rec: ExcelData, referenceRow: string, nopv2Row: Option<string>, sequenceRow: string,
                       simplifiedType: string, cdsMin: int, cdsMax: int, sorted: seq<Annotation>,
                       alignmentName: string, tTest: (SnpsCalculation, SnpsCalculation) -> bool)
    returns (outcome: CdsRowOutcome)
    requires |sorted| > 0 && SortedByMinimum(sorted)
    requires |referenceRow| == |sequenceRow| && (nopv2Row.Some? ==> |nopv2Row.value| == |sequenceRow|)
    modifies rec`cdsGapCount, rec`recombinationNote, rec`partialCdsNote
    ensures outcome == RowAborted(IndexOutOfBounds) <==> !CdsIntervalInside(sequenceRow, cdsMin, cdsMax)
    ensures !CdsIntervalInside(sequenceRow, cdsMin, cdsMax) ==> rec.cdsGapCount == old(rec.cdsGapCount)
    ensures outcome.Analyzed? <==>
      CdsIntervalInside(sequenceRow, cdsMin, cdsMax) && HasBase(Lower(sequenceRow)) &&
      !(IsNopv2Type(simplifiedType) && nopv2Row.None?)
    ensures CdsIntervalInside(sequenceRow, cdsMin, cdsMax) ==>
      rec.cdsGapCount == Some(CdsGapCount(Lower(sequenceRow), cdsMin, cdsMax))
    ensures outcome.AllGaps? <==> CdsIntervalInside(sequenceRow, cdsMin, cdsMax) && !HasBase(Lower(sequenceRow))
    ensures outcome == RowAborted(MissingNopv2Reference(alignmentName)) <==>
      CdsIntervalInside(sequenceRow, cdsMin, cdsMax) && HasBase(Lower(sequenceRow)) &&
      IsNopv2Type(simplifiedType) && nopv2Row.None?
    ensures !outcome.Analyzed? ==>
      rec.recombinationNote == old(rec.recombinationNote) && rec.partialCdsNote == old(rec.partialCdsNote)
    ensures outcome.Analyzed? ==>
      var sequence := Lower(sequenceRow);
      var reference := ComparisonReference(referenceRow, nopv2Row, simplifiedType);
      var lowest := outcome.lowest;
      var highest := outcome.highest;
      lowest <= highest < |sequence| &&
      sequence[lowest] != Dash && (forall i :: 0 <= i < lowest ==> sequence[i] == Dash) &&
      sequence[highest] != Dash && (forall i :: highest < i < |sequence| ==> sequence[i] == Dash) &&
      IndexableRange(reference, sequence, lowest, FivePrimeStop(lowest, highest, sorted)) &&
      IndexableRange(reference, sequence, ThreePrimeStart(lowest, highest, sorted), highest) &&
      IndexableRange(reference, sequence, Vp1Window(lowest, highest, sorted).start, Vp1Window(lowest, highest, sorted).stop) &&
      IndexableRange(reference, sequence, lowest, highest) &&
      outcome.fivePrime == WindowCalculation(reference, sequence, Window(lowest, FivePrimeStop(lowest, highest, sorted)), None) &&
      outcome.threePrime == WindowCalculation(reference, sequence, Window(ThreePrimeStart(lowest, highest, sorted), highest), None) &&
      outcome.vp1 == WindowCalculation(reference, sequence, Vp1Window(lowest, highest, sorted), Some(Window(lowest, highest))) &&
      outcome.errors == Vp1WindowErrors(sorted, alignmentName) &&
      rec.recombinationNote == RecombinationNote(outcome.fivePrime, outcome.threePrime, outcome.vp1,
                                                 tTest(outcome.fivePrime, outcome.vp1), tTest(outcome.threePrime, outcome.vp1)) &&
      rec.partialCdsNote ==
        (var note := PartialCdsNote(lowest, highest, cdsMin, cdsMax, LastContaining(sorted, lowest), LastContaining(sorted, highest));
         if note.Some? then note else old(rec.partialCdsNote))
  {
    var sequence := Lower(sequenceRow);
    if !CdsIntervalInside(sequence, cdsMin, cdsMax) {
      return RowAborted(IndexOutOfBounds);
    }
    var cdsGapCount := CountCdsGaps(sequence, cdsMin, cdsMax);
    rec.cdsGapCount := Some(cdsGapCount);
    var lowestIndexOfNonGap := LowestIndexOfNonGap(sequence);
    var highestIndexOfNonGap := HighestIndexOfNonGap(sequence);
    if lowestIndexOfNonGap.None? || highestIndexOfNonGap.None? {
      return AllGaps;
    }
    var lowest := lowestIndexOfNonGap.value;
    var highest := highestIndexOfNonGap.value;
    NonGapSpan(sequence, lowest, highest);
    var errors := Vp1WindowErrors(sorted, alignmentName);
    if IsNopv2Type(simplifiedType) && nopv2Row.None? {
      return RowAborted(MissingNopv2Reference(alignmentName));
    }
    var reference := ComparisonReference(referenceRow, nopv2Row, simplifiedType);
    var fivePrime, threePrime, vp1 := CompareSpan(rec, reference, sequence, lowest, highest, cdsMin, cdsMax, sorted, tTest);
    outcome := Analyzed(lowest, highest, fivePrime, threePrime, vp1, errors);
  }

  /** The comparison of a row's non-gap span `[lowest, highest]` with its
      reference (FinalizeRunOperation.java:1662-1788): the SNP calculations
      of the 5', 3' and VP1 windows, the recombination note they give, and
      the partial-CDS note when the span does not cover the CDS. */
  method CompareSpan(rec: ExcelData, reference: string, sequence: string, lowest: nat, highest: nat,
                     cdsMin: int, cdsMax: int, sorted: seq<Annotation>, tTest: (SnpsCalculation, SnpsCalculation) -> bool)
    returns (fivePrime: SnpsCalculation, threePrime: SnpsCalculation, vp1: SnpsCalculation)
    requires |sorted| > 0 && SortedByMinimum(sorted)
    requires |reference| == |sequence| && lowest <= highest < |sequence|
    modifies rec`recombinationNote, rec`partialCdsNote
    ensures IndexableRange(reference, sequence, lowest, FivePrimeStop(lowest, highest, sorted))
    ensures IndexableRange(reference, sequence, ThreePrimeStart(lowest, highest, sorted), highest)
    ensures IndexableRange(reference, sequence, Vp1Window(lowest, highest, sorted).start, Vp1Window(lowest, highest, sorted).stop)
    ensures IndexableRange(reference, sequence, lowest, highest)
    ensures fivePrime == WindowCalculation(reference, sequence, Window(lowest, FivePrimeStop(lowest, highest, sorted)), None)
    ensures threePrime == WindowCalculation(reference, sequence, Window(ThreePrimeStart(lowest, highest, sorted), highest), None)
    ensures vp1 == WindowCalculation(reference, sequence, Vp1Window(lowest, highest, sorted), Some(Window(lowest, highest)))
    ensures rec.recombinationNote == RecombinationNote(fivePrime, threePrime, vp1, tTest(fivePrime, vp1), tTest(threePrime, vp1))
    ensures rec.partialCdsNote ==
      (var note := PartialCdsNote(lowest, highest, cdsMin, cdsMax, LastContaining(sorted, lowest), LastContaining(sorted, highest));
       if note.Some? then note else old(rec.partialCdsNote))
  {
    var fivePrimeWindow := FivePrimeWindow(lowest, highest, sorted);
    var threePrimeWindow := ThreePrimeWindow(lowest, highest, sorted);
    WindowsInsideSpan(reference, sequence, lowest, highest, sorted);
    fivePrime := CalculateWindow(reference, sequence, Window(fivePrimeWindow.start, fivePrimeWindow.stop), None);
    threePrime := CalculateWindow(reference, sequence, Window(threePrimeWindow.start, threePrimeWindow.stop), None);
    vp1 := CalculateWindow(reference, sequence, Vp1Window(lowest, highest, sorted), Some(Window(lowest, highest)));
    rec.recombinationNote := RecombinationNote(fivePrime, threePrime, vp1, tTest(fivePrime, vp1), tTest(threePrime, vp1));
    var partialCdsNote := PartialCdsNote(lowest, highest, cdsMin, cdsMax, fivePrimeWindow.bounding, threePrimeWindow.bounding);
    if partialCdsNote.Some? {
      rec.partialCdsNote := partialCdsNote;
    }
  }

  /** A row that matches its reference across its whole non-gap span, up
      to the uracil rule and without ambiguous bases, gets no recombination
      note: no window has a gap or a SNP. */
  lemma IdenticalRowHasNoRecombinationNote(reference: string, sequence: string, lowest: nat, highest: nat,
                                           sorted: seq<Annotation>, tTest: (SnpsCalculation, SnpsCalculation) -> bool)
    requires |sorted| > 0 && SortedByMinimum(sorted)
    requires |reference| == |sequence| && lowest <= highest < |sequence|
    requires forall i :: lowest <= i <= highest ==> FoldU(sequence[i]) == FoldU(reference[i]) && !IsN(sequence[i])
    ensures
      var five := (WindowsInsideSpan(reference, sequence, lowest, highest, sorted);
        WindowCalculation(reference, sequence, Window(lowest, FivePrimeStop(lowest, highest, sorted)), None));
      var three := (WindowsInsideSpan(reference, sequence, lowest, highest, sorted);
        WindowCalculation(reference, sequence, Window(ThreePrimeStart(lowest, highest, sorted), highest), None));
      var vp1 := (WindowsInsideSpan(reference, sequence, lowest, highest, sorted);
        WindowCalculation(reference, sequence, Vp1Window(lowest, highest, sorted), Some(Window(lowest, highest))));
      RecombinationNote(five, three, vp1, tTest(five, vp1), tTest(three, vp1)).None?
  {
    WindowsInsideSpan(reference, sequence, lowest, highest, sorted);
    FivePrimeWindowBounds(lowest, highest, sorted);
    ThreePrimeWindowBounds(lowest, highest, sorted);
    var fiveStop := FivePrimeStop(lowest, highest, sorted);
    var threeStart := ThreePrimeStart(lowest, highest, sorted);
    var w := Vp1Window(lowest, highest, sorted);
    IdenticalUpToUracilHasNoSnps(reference, sequence, lowest, fiveStop);
    IdenticalUpToUracilHasNoSnps(reference, sequence, threeStart, highest);
    IdenticalUpToUracilHasNoSnps(reference, sequence, w.start, w.stop);
    IdenticalUpToUracilHasNoSnps(reference, sequence, lowest, highest);
    var five := WindowCalculation(reference, sequence, Window(lowest, fiveStop), None);
    var three := WindowCalculation(reference, sequence, Window(threeStart, highest), None);
    var vp1 := WindowCalculation(reference, sequence, w, Some(Window(lowest, highest)));
    NoVp1SnpsNoNote(five, three, vp1, tTest(five, vp1), tTest(three, vp1));
  }
}
