/** The per-genome record of the final analysis (`ExcelData`,
    FinalizeRunOperation.java:495-800): the statistics the parsers and the
    alignment pass write into it, and the colour result, SNP summary and notes the
    report reads out of it. */
module ExcelRecord {
  import opened Common
  import opened Text
  import opened Nucleotide
  import opened Coverage
  import opened Errors
  import opened Annotations
  import opened Names

  /** A VP1 substitution: the reference row's name, the reference and sample
      bases after the uracil rule, and the 1-based position within VP1. */
  datatype SingleNucleotidePolymorphism = SingleNucleotidePolymorphism(
    reference: string,
    ref: char,
    alt: char,
    index: int)

  /** The colour result of a genome. */
  datatype Color = Green | YellowRedo | YellowKeep | YellowRemove | RedRedo

  /** The report keys (FinalizeRunOperation.java:39-43). */
  function ColorResultKey(c: Color): string {
    match c
    case Green => "GREEN"
    case YellowRedo => "YELLOW-REDO"
    case YellowKeep => "YELLOW_KEEP"
    case YellowRemove => "YELLOW_REMOVE"
    case RedRedo => "RED-REDO"
  }

  /** The thresholds (FinalizeRunOperation.java:439-442). */
  const AverageReadCoverageThresholdForGreenGenomes: real := 50.0
  const AverageReadCoverageThresholdForYellowGenomes: real := 25.0
  const CdsMinimumCoverageForGreenGenomes: int := 3
  const Vp1MinimumCoverageForYellowGenomes: int := 6

  /** The VP1 coverage gate: data present and at least 6. */
  predicate Vp1CoverageAdequate(vp1MinimumCoverage: Option<int>) {
    vp1MinimumCoverage.Some? && vp1MinimumCoverage.value >= Vp1MinimumCoverageForYellowGenomes
  }

  /** The CDS coverage gate for green genomes: data present and at least 3. */
  predicate CdsCoverageAdequate(cdsMinimumCoverage: Option<int>) {
    cdsMinimumCoverage.Some? && cdsMinimumCoverage.value >= CdsMinimumCoverageForGreenGenomes
  }

  /** The colour rules of `calculateColorResultKey`
      (FinalizeRunOperation.java:520-556), applied to the record's values. */
  function Grade(averageCoverage: real, totalGapCount: nat, cdsGapCount: nat, partialCdsNote: Option<string>,
                 cdsMinimumCoverage: Option<int>, vp1MinimumCoverage: Option<int>): Color
  {
    var byCoverage :=
      if averageCoverage > AverageReadCoverageThresholdForGreenGenomes then
        if cdsGapCount > 0 || partialCdsNote.Some? then YellowRedo
        else if totalGapCount > 0 then YellowKeep
        else Green
      else if averageCoverage > AverageReadCoverageThresholdForYellowGenomes then
        if cdsGapCount > 0 || partialCdsNote.Some? then YellowRedo else YellowKeep
      else RedRedo;
    var afterCdsGate := if byCoverage == Green && !CdsCoverageAdequate(cdsMinimumCoverage) then YellowRedo else byCoverage;
    if !Vp1CoverageAdequate(vp1MinimumCoverage) then RedRedo else afterCdsGate
  }

  /** No record is ever graded `YELLOW_REMOVE`. */
  lemma GradeNeverYellowRemove(averageCoverage: real, totalGapCount: nat, cdsGapCount: nat, partialCdsNote: Option<string>,
                               cdsMinimumCoverage: Option<int>, vp1MinimumCoverage: Option<int>)
    ensures Grade(averageCoverage, totalGapCount, cdsGapCount, partialCdsNote, cdsMinimumCoverage, vp1MinimumCoverage) != YellowRemove
  {
  }

  /** `RED-REDO` exactly when the VP1 gate fails or the average coverage is
      at most 25; so a missing or low VP1 coverage always forces it. */
  lemma GradeRedExactly(averageCoverage: real, totalGapCount: nat, cdsGapCount: nat, partialCdsNote: Option<string>,
                        cdsMinimumCoverage: Option<int>, vp1MinimumCoverage: Option<int>)
    ensures Grade(averageCoverage, totalGapCount, cdsGapCount, partialCdsNote, cdsMinimumCoverage, vp1MinimumCoverage) == RedRedo
       <==> !Vp1CoverageAdequate(vp1MinimumCoverage) || averageCoverage <= AverageReadCoverageThresholdForYellowGenomes
    ensures !Vp1CoverageAdequate(vp1MinimumCoverage) ==>
      Grade(averageCoverage, totalGapCount, cdsGapCount, partialCdsNote, cdsMinimumCoverage, vp1MinimumCoverage) == RedRedo
  {
  }

  /** `GREEN` exactly when the average coverage is above 50, there are no
      gaps at all, the CDS is complete, and both coverage gates pass. */
  lemma GradeGreenExactly(averageCoverage: real, totalGapCount: nat, cdsGapCount: nat, partialCdsNote: Option<string>,
                          cdsMinimumCoverage: Option<int>, vp1MinimumCoverage: Option<int>)
    ensures Grade(averageCoverage, totalGapCount, cdsGapCount, partialCdsNote, cdsMinimumCoverage, vp1MinimumCoverage) == Green
       <==> averageCoverage > AverageReadCoverageThresholdForGreenGenomes && cdsGapCount == 0 && totalGapCount == 0 &&
            partialCdsNote.None? && CdsCoverageAdequate(cdsMinimumCoverage) && Vp1CoverageAdequate(vp1MinimumCoverage)
  {
  }

  /** `YELLOW_KEEP` exactly when the VP1 gate passes, the CDS has no gaps and
      is complete, and either the coverage is above 50 with gaps outside the
      CDS or it lies in (25, 50]. */
  lemma GradeYellowKeepExactly(averageCoverage: real, totalGapCount: nat, cdsGapCount: nat, partialCdsNote: Option<string>,
                               cdsMinimumCoverage: Option<int>, vp1MinimumCoverage: Option<int>)
    ensures Grade(averageCoverage, totalGapCount, cdsGapCount, partialCdsNote, cdsMinimumCoverage, vp1MinimumCoverage) == YellowKeep
       <==> Vp1CoverageAdequate(vp1MinimumCoverage) && cdsGapCount == 0 && partialCdsNote.None? &&
            ((averageCoverage > AverageReadCoverageThresholdForGreenGenomes && totalGapCount > 0) ||
             (AverageReadCoverageThresholdForYellowGenomes < averageCoverage <= AverageReadCoverageThresholdForGreenGenomes))
  {
  }

  /** Two of the rules read together on concrete records: a clean genome
      at coverage 60 with both gates passing is green; with CDS coverage 2 it
      is sent for a redo. */
  lemma GradeExamples()
    ensures Grade(60.0, 0, 0, None, Some(3), Some(6)) == Green
    ensures Grade(60.0, 0, 0, None, Some(2), Some(6)) == YellowRedo
    ensures Grade(60.0, 0, 0, None, Some(30), Some(5)) == RedRedo
    ensures Grade(30.0, 4, 0, None, Some(30), Some(30)) == YellowKeep
  {
  }

  const CdsCoverageUnavailableNote: string := "CDS coverage data unavailable"
  const Vp1CoverageUnavailableNote: string := "VP1 coverage data unavailable"

  function CdsCoverageTooLowNote(cdsMinimumCoverage: int): string {
    "CDS min. coverage too low: " + IntToString(cdsMinimumCoverage) + " <= " + IntToString(CdsMinimumCoverageForGreenGenomes - 1)
  }

  function Vp1CoverageTooLowNote(vp1MinimumCoverage: int): string {
    "VP1 min. coverage too low: " + IntToString(vp1MinimumCoverage) + " <= " + IntToString(Vp1MinimumCoverageForYellowGenomes - 1)
  }

  function GapsNote(totalGapCount: int): string {
    "Gaps (n = " + IntToString(totalGapCount) + ")"
  }

  /** The CDS coverage note, if any (FinalizeRunOperation.java:577-588). */
  function CdsCoverageNotes(totalGapCount: nat, cdsMinimumCoverage: Option<int>): seq<string> {
    if cdsMinimumCoverage.None? then [CdsCoverageUnavailableNote]
    else if totalGapCount == 0 && cdsMinimumCoverage.value < CdsMinimumCoverageForGreenGenomes
    then [CdsCoverageTooLowNote(cdsMinimumCoverage.value)]
    else []
  }

  /** The VP1 coverage note, if any (FinalizeRunOperation.java:589-597). */
  function Vp1CoverageNotes(vp1MinimumCoverage: Option<int>): seq<string> {
    if vp1MinimumCoverage.None? then [Vp1CoverageUnavailableNote]
    else if vp1MinimumCoverage.value < Vp1MinimumCoverageForYellowGenomes
    then [Vp1CoverageTooLowNote(vp1MinimumCoverage.value)]
    else []
  }

  function GapNotes(totalGapCount: nat): seq<string> {
    if totalGapCount > 0 then [GapsNote(totalGapCount)] else []
  }

  function OptionalNote(note: Option<string>): seq<string> {
    if note.Some? then [note.value] else []
  }

  /** The notes `calculateNotes` collects (FinalizeRunOperation.java:575-614),
      in order. */
  function NoteEntries(totalGapCount: nat, cdsMinimumCoverage: Option<int>, vp1MinimumCoverage: Option<int>,
                       partialCdsNote: Option<string>, recombinationNote: Option<string>): seq<string>
  {
    CdsCoverageNotes(totalGapCount, cdsMinimumCoverage) + Vp1CoverageNotes(vp1MinimumCoverage) +
    GapNotes(totalGapCount) + OptionalNote(partialCdsNote) + OptionalNote(recombinationNote)
  }

  /** Every failed VP1 gate is explained in the notes, so every genome the
      VP1 gate sends to `RED-REDO` says why. */
  lemma NotesExplainVp1Gate(totalGapCount: nat, cdsMinimumCoverage: Option<int>, vp1MinimumCoverage: Option<int>,
                            partialCdsNote: Option<string>, recombinationNote: Option<string>)
    ensures vp1MinimumCoverage.None? ==>
      Vp1CoverageUnavailableNote in NoteEntries(totalGapCount, cdsMinimumCoverage, vp1MinimumCoverage, partialCdsNote, recombinationNote)
    ensures vp1MinimumCoverage.Some? && !Vp1CoverageAdequate(vp1MinimumCoverage) ==>
      Vp1CoverageTooLowNote(vp1MinimumCoverage.value) in
        NoteEntries(totalGapCount, cdsMinimumCoverage, vp1MinimumCoverage, partialCdsNote, recombinationNote)
  {
    var first := CdsCoverageNotes(totalGapCount, cdsMinimumCoverage);
    var entries := NoteEntries(totalGapCount, cdsMinimumCoverage, vp1MinimumCoverage, partialCdsNote, recombinationNote);
    if !Vp1CoverageAdequate(vp1MinimumCoverage) {
      assert entries[|first|] == if vp1MinimumCoverage.None? then Vp1CoverageUnavailableNote
        else Vp1CoverageTooLowNote(vp1MinimumCoverage.value);
    }
  }

  /** A green genome carries no coverage, gap or partial-CDS note: only the
      recombination note, if any. */
  lemma GreenNotesAreRecombinationOnly(averageCoverage: real, totalGapCount: nat, cdsGapCount: nat,
                                       partialCdsNote: Option<string>, cdsMinimumCoverage: Option<int>,
                                       vp1MinimumCoverage: Option<int>, recombinationNote: Option<string>)
    requires Grade(averageCoverage, totalGapCount, cdsGapCount, partialCdsNote, cdsMinimumCoverage, vp1MinimumCoverage) == Green
    ensures NoteEntries(totalGapCount, cdsMinimumCoverage, vp1MinimumCoverage, partialCdsNote, recombinationNote) ==
      if recombinationNote.Some? then [recombinationNote.value] else []
  {
    GradeGreenExactly(averageCoverage, totalGapCount, cdsGapCount, partialCdsNote, cdsMinimumCoverage, vp1MinimumCoverage);
  }

  /** The low-CDS-coverage note is only given to genomes without gaps. */
  lemma CdsLowNoteNeedsNoGaps(totalGapCount: nat, cdsMinimumCoverage: int, vp1MinimumCoverage: Option<int>,
                              partialCdsNote: Option<string>, recombinationNote: Option<string>)
    requires totalGapCount > 0
    ensures NoteEntries(totalGapCount, Some(cdsMinimumCoverage), vp1MinimumCoverage, partialCdsNote, recombinationNote)[0] != CdsCoverageTooLowNote(cdsMinimumCoverage)
  {
    var entries := NoteEntries(totalGapCount, Some(cdsMinimumCoverage), vp1MinimumCoverage, partialCdsNote, recombinationNote);
    var e := CdsCoverageTooLowNote(cdsMinimumCoverage);
    assert e[0] == 'C';
    if vp1MinimumCoverage.None? {
      assert entries[0] == Vp1CoverageUnavailableNote;
    } else if vp1MinimumCoverage.value < Vp1MinimumCoverageForYellowGenomes {
      assert entries[0][0] == 'V';
    } else {
      assert entries[0] == GapsNote(totalGapCount);
      assert entries[0][0] == 'G';
    }
  }

  /** The recombination note a new record starts with. */
  const DefaultRecombinationNote: string := "recombination status indeterminate"

  /** A VP1 excerpt queued for the genotype alignment. */
  datatype NamedSequence = NamedSequence(name: string, sequence: string)

  /** What a parse produced: the errors it recorded and the queued excerpt,
      or the exception that aborts the run. */
  datatype ParseOutcome = Parsed(errors: seq<ErrorEntry>, vp1Excerpt: Option<NamedSequence>) | ParseAborted(fatal: Fatal)

  /** The names of `PolioReferenceType` (FinalizeRunOperation.java:58-68, 416). */
  const PolioTypes: set<string> := {"PV1", "PV2", "PV3", "nOPV2"}

  /** The last annotation named VP1 (the loop at 641-646 keeps overwriting). */
  function LastVp1Annotation(annotations: seq<Annotation>): Option<Annotation> {
    if |annotations| == 0 then None
    else if IsVp1Annotation(annotations[|annotations| - 1]) then Some(annotations[|annotations| - 1])
    else LastVp1Annotation(annotations[..|annotations| - 1])
  }

  lemma {:induction false} LastVp1AnnotationIsLast(annotations: seq<Annotation>)
    ensures LastVp1Annotation(annotations).None? <==> forall i :: 0 <= i < |annotations| ==> !IsVp1Annotation(annotations[i])
    ensures LastVp1Annotation(annotations).Some? ==>
      exists i :: 0 <= i < |annotations| && annotations[i] == LastVp1Annotation(annotations).value &&
        IsVp1Annotation(annotations[i]) && forall j :: i < j < |annotations| ==> !IsVp1Annotation(annotations[j])
  {
    if |annotations| > 0 {
      var init := annotations[..|annotations| - 1];
      LastVp1AnnotationIsLast(init);
      assert forall i :: 0 <= i < |init| ==> init[i] == annotations[i];
      if !IsVp1Annotation(annotations[|annotations| - 1]) && LastVp1Annotation(annotations).Some? {
        var i :| 0 <= i < |init| && init[i] == LastVp1Annotation(init).value && IsVp1Annotation(init[i]) &&
          forall j :: i < j < |init| ==> !IsVp1Annotation(init[j]);
        assert annotations[i] == LastVp1Annotation(annotations).value;
      }
    }
  }

  /** The bounds `substring` is called with for the VP1 excerpt
      (FinalizeRunOperation.java:671-680): the 1-based interval clipped to
      the genome. */
  function ExcerptBegin(vp1: Annotation): int { Max(0, vp1.minimumIndex - 1) }

  function ExcerptEnd(vp1: Annotation, sequenceLength: nat): int { Min(sequenceLength, vp1.maximumIndex) }

  /** The outcome of `parseNucleotideSequenceDocument`
      (FinalizeRunOperation.java:638-685) given the type with any duplicate
      suffix removed. */
  function NucleotideOutcome(genomeName: string, simplifiedType: string, sequenceString: string,
                             annotations: seq<Annotation>): ParseOutcome
  {
    if |annotations| == 0 then Parsed([ErrorEntry(GenomesWithoutAnnotations, genomeName)], None)
    else match LastVp1Annotation(annotations)
      case None => Parsed([ErrorEntry(GenomesWithoutAVp1Annotation, genomeName)], None)
      case Some(vp1) =>
        if vp1.numberOfIntervals != 1 then
          Parsed([ErrorEntry(GenomesWithAnUnexpectedNumberOfVp1AnnotationIntervals, genomeName)], None)
        else if simplifiedType !in PolioTypes then Parsed([], None)
        else
          var begin := ExcerptBegin(vp1);
          var end := ExcerptEnd(vp1, |sequenceString|);
          if begin > end then ParseAborted(IndexOutOfBounds)
          else Parsed([], Some(NamedSequence(InputDocumentName(genomeName), sequenceString[begin..end])))
  }

  /** A queued excerpt is named after its genome and is exactly the
      genome's VP1 interval, clipped to the genome; an interval inside the
      genome gives `max - min + 1` bases. The run aborts exactly when the
      clipped interval is reversed. */
  lemma Vp1ExcerptIsInterval(genomeName: string, simplifiedType: string, sequenceString: string, annotations: seq<Annotation>)
    requires |annotations| > 0 && LastVp1Annotation(annotations).Some?
    requires LastVp1Annotation(annotations).value.numberOfIntervals == 1 && simplifiedType in PolioTypes
    ensures var vp1 := LastVp1Annotation(annotations).value;
      NucleotideOutcome(genomeName, simplifiedType, sequenceString, annotations).ParseAborted? <==>
        ExcerptBegin(vp1) > ExcerptEnd(vp1, |sequenceString|)
    ensures var vp1 := LastVp1Annotation(annotations).value;
      var outcome := NucleotideOutcome(genomeName, simplifiedType, sequenceString, annotations);
      outcome.Parsed? ==>
        outcome.errors == [] && outcome.vp1Excerpt.Some? &&
        outcome.vp1Excerpt.value.name == "INPUT_DOCUMENT: " + genomeName &&
        |outcome.vp1Excerpt.value.sequence| == ExcerptEnd(vp1, |sequenceString|) - ExcerptBegin(vp1) &&
        forall k :: 0 <= k < |outcome.vp1Excerpt.value.sequence| ==>
          outcome.vp1Excerpt.value.sequence[k] == sequenceString[ExcerptBegin(vp1) + k]
    ensures var vp1 := LastVp1Annotation(annotations).value;
      1 <= vp1.minimumIndex <= vp1.maximumIndex <= |sequenceString| ==>
        NucleotideOutcome(genomeName, simplifiedType, sequenceString, annotations) ==
          Parsed([], Some(NamedSequence(InputDocumentName(genomeName), sequenceString[vp1.minimumIndex - 1..vp1.maximumIndex])))
  {
  }

  /** The error a genome is recorded under, if any, depends only on its
      annotations: none at all, no VP1, or a last VP1 with several
      intervals; each category is recorded exactly in its case. */
  lemma NucleotideErrorsExactly(genomeName: string, simplifiedType: string, sequenceString: string, annotations: seq<Annotation>)
    ensures NucleotideOutcome(genomeName, simplifiedType, sequenceString, annotations) ==
      Parsed([ErrorEntry(GenomesWithoutAnnotations, genomeName)], None)
      <==> |annotations| == 0
    ensures NucleotideOutcome(genomeName, simplifiedType, sequenceString, annotations) ==
      Parsed([ErrorEntry(GenomesWithoutAVp1Annotation, genomeName)], None)
      <==> |annotations| > 0 && forall i :: 0 <= i < |annotations| ==> !IsVp1Annotation(annotations[i])
    ensures NucleotideOutcome(genomeName, simplifiedType, sequenceString, annotations) ==
      Parsed([ErrorEntry(GenomesWithAnUnexpectedNumberOfVp1AnnotationIntervals, genomeName)], None)
      <==> |annotations| > 0 && LastVp1Annotation(annotations).Some? &&
           LastVp1Annotation(annotations).value.numberOfIntervals != 1
    ensures NucleotideOutcome(genomeName, simplifiedType, sequenceString, annotations).Parsed? &&
            NucleotideOutcome(genomeName, simplifiedType, sequenceString, annotations).errors == []
      <==> |annotations| > 0 && LastVp1Annotation(annotations).Some? &&
           LastVp1Annotation(annotations).value.numberOfIntervals == 1 &&
           NucleotideOutcome(genomeName, simplifiedType, sequenceString, annotations).Parsed?
    ensures NucleotideOutcome(genomeName, simplifiedType, sequenceString, annotations).Parsed? &&
            NucleotideOutcome(genomeName, simplifiedType, sequenceString, annotations).vp1Excerpt.Some? ==>
      simplifiedType in PolioTypes
  {
    LastVp1AnnotationIsLast(annotations);
  }

  /** The VP1 errors of `parseAlignmentDocument` (FinalizeRunOperation.java:738-768). */
  function ContigVp1Errors(genomeName: string, annotations: seq<Annotation>): (r: seq<ErrorEntry>)
    ensures |r| <= 1 && forall k :: 0 <= k < |r| ==> r[k].name == genomeName
    ensures r == [] <==> SingleIntervalMatch(annotations, IsVp1Annotation).Some?
  {
    if |Filter(annotations, IsVp1Annotation)| < 1 then [ErrorEntry(ContigsWithoutAVp1Annotation, genomeName)]
    else if SingleIntervalMatch(annotations, IsVp1Annotation).None? then
      [ErrorEntry(ContigsWithAnUnexpectedNumberOfVp1AnnotationIntervals, genomeName)]
    else []
  }

  /** The CDS errors of `parseAlignmentDocument` (FinalizeRunOperation.java:770-789). */
  function ContigCdsErrors(genomeName: string, annotations: seq<Annotation>): (r: seq<ErrorEntry>)
    ensures |r| <= 1 && forall k :: 0 <= k < |r| ==> r[k].name == genomeName
    ensures r == [] <==> SingleIntervalMatch(annotations, IsCdsAnnotation).Some?
  {
    if |Filter(annotations, IsCdsAnnotation)| < 1 then [ErrorEntry(ContigsWithoutACdsAnnotation, genomeName)]
    else if SingleIntervalMatch(annotations, IsCdsAnnotation).None? then
      [ErrorEntry(ContigsWithAnUnexpectedNumberOfCdsAnnotationIntervals, genomeName)]
    else []
  }

  function AlignmentErrors(genomeName: string, annotations: seq<Annotation>): seq<ErrorEntry> {
    if |annotations| == 0 then [ErrorEntry(GenomesWithoutAnnotations, genomeName)]
    else ContigVp1Errors(genomeName, annotations) + ContigCdsErrors(genomeName, annotations)
  }

  /** A contig's VP1 error: `CONTIGS_WITHOUT_A_VP1_ANNOTATION` when no
      annotation is named VP1, the unexpected-intervals category when some
      is but no single one-interval VP1 exists, none otherwise. */
  lemma ContigVp1ErrorsExactly(genomeName: string, annotations: seq<Annotation>)
    ensures ContigVp1Errors(genomeName, annotations) == [] <==>
      exists i :: UniqueIndex(annotations, IsVp1Annotation, i) && annotations[i].numberOfIntervals == 1
    ensures ContigVp1Errors(genomeName, annotations) == [ErrorEntry(ContigsWithoutAVp1Annotation, genomeName)] <==>
      forall i :: 0 <= i < |annotations| ==> !IsVp1Annotation(annotations[i])
    ensures (ContigVp1Errors(genomeName, annotations) ==
             [ErrorEntry(ContigsWithAnUnexpectedNumberOfVp1AnnotationIntervals, genomeName)]) <==>
      (exists i :: 0 <= i < |annotations| && IsVp1Annotation(annotations[i])) &&
      !(exists i :: UniqueIndex(annotations, IsVp1Annotation, i) && annotations[i].numberOfIntervals == 1)
  {
    NoMatch(annotations, IsVp1Annotation);
  }

  /** A contig's CDS error, in the same three cases as its VP1 error. */
  lemma ContigCdsErrorsExactly(genomeName: string, annotations: seq<Annotation>)
    ensures ContigCdsErrors(genomeName, annotations) == [] <==>
      exists i :: UniqueIndex(annotations, IsCdsAnnotation, i) && annotations[i].numberOfIntervals == 1
    ensures ContigCdsErrors(genomeName, annotations) == [ErrorEntry(ContigsWithoutACdsAnnotation, genomeName)] <==>
      forall i :: 0 <= i < |annotations| ==> !IsCdsAnnotation(annotations[i])
    ensures (ContigCdsErrors(genomeName, annotations) ==
             [ErrorEntry(ContigsWithAnUnexpectedNumberOfCdsAnnotationIntervals, genomeName)]) <==>
      (exists i :: 0 <= i < |annotations| && IsCdsAnnotation(annotations[i])) &&
      !(exists i :: UniqueIndex(annotations, IsCdsAnnotation, i) && annotations[i].numberOfIntervals == 1)
  {
    NoMatch(annotations, IsCdsAnnotation);
  }

  /** A contig without annotations records only that; otherwise at most one
      VP1 error followed by at most one CDS error, each named after the
      genome; none at all exactly when both annotations resolve. */
  lemma AlignmentErrorsShape(genomeName: string, annotations: seq<Annotation>)
    ensures |annotations| == 0 ==>
      AlignmentErrors(genomeName, annotations) == [ErrorEntry(GenomesWithoutAnnotations, genomeName)]
    ensures |annotations| > 0 ==>
      AlignmentErrors(genomeName, annotations) == ContigVp1Errors(genomeName, annotations) + ContigCdsErrors(genomeName, annotations) &&
      |ContigVp1Errors(genomeName, annotations)| <= 1 && |ContigCdsErrors(genomeName, annotations)| <= 1
    ensures forall k :: 0 <= k < |AlignmentErrors(genomeName, annotations)| ==>
      AlignmentErrors(genomeName, annotations)[k].name == genomeName
    ensures AlignmentErrors(genomeName, annotations) == [] <==>
      SingleIntervalMatch(annotations, IsVp1Annotation).Some? && SingleIntervalMatch(annotations, IsCdsAnnotation).Some?
  {
  }




  /** The column window the CDS minimum coverage is taken over: the CDS
      annotation's, or the whole alignment when it does not resolve. */
  function CdsColumnLow(annotations: seq<Annotation>): int {
    if |annotations| > 0 && SingleIntervalMatch(annotations, IsCdsAnnotation).Some? then
      ColumnWindowLow(SingleIntervalMatch(annotations, IsCdsAnnotation).value.minimumIndex)
    else 0
  }

  function CdsColumnHigh(annotations: seq<Annotation>, columns: nat): int {
    if |annotations| > 0 && SingleIntervalMatch(annotations, IsCdsAnnotation).Some? then
      ColumnWindowHigh(SingleIntervalMatch(annotations, IsCdsAnnotation).value.maximumIndex, columns)
    else columns
  }

  class ExcelData {
    var fullCoverageLength: nat
    var totalGapCount: nat
    var averageCoverage: real
    var percentFullCoverageCoveredByReads: real
    var vp1Snps: Option<seq<SingleNucleotidePolymorphism>>
    var cdsGapCount: Option<nat>
    var vp1GapCount: Option<nat>
    var partialVp1CoverageFlag: bool
    var cdsMinimumCoverage: Option<int>
    var vp1MinimumCoverage: Option<int>
    var partialCdsNote: Option<string>
    var recombinationNote: Option<string>

    /** A record as the field initialisers leave it (FinalizeRunOperation.java:495-513). */
    constructor ()
      ensures fullCoverageLength == 0 && totalGapCount == 0
      ensures averageCoverage == 0.0 && percentFullCoverageCoveredByReads == 0.0
      ensures vp1Snps.None? && cdsGapCount.None? && vp1GapCount.None? && !partialVp1CoverageFlag
      ensures cdsMinimumCoverage.None? && vp1MinimumCoverage.None? && partialCdsNote.None?
      ensures recombinationNote == Some(DefaultRecombinationNote)
    {
      fullCoverageLength := 0;
      totalGapCount := 0;
      averageCoverage := 0.0;
      percentFullCoverageCoveredByReads := 0.0;
      vp1Snps := None;
      cdsGapCount := None;
      vp1GapCount := None;
      partialVp1CoverageFlag := false;
      cdsMinimumCoverage := None;
      vp1MinimumCoverage := None;
      partialCdsNote := None;
      recombinationNote := Some(DefaultRecombinationNote);
    }

    /** `calculateColorResultKey` (FinalizeRunOperation.java:515-557): a
        missing CDS gap count is first taken to be the total gap count. */
    method CalculateColorResultKey() returns (colorResultKey: string)
      modifies this`cdsGapCount
      ensures cdsGapCount == if old(cdsGapCount).None? then Some(totalGapCount) else old(cdsGapCount)
      ensures colorResultKey == ColorResultKey(Grade(averageCoverage, totalGapCount, cdsGapCount.value, partialCdsNote,
                                                     cdsMinimumCoverage, vp1MinimumCoverage))
    {
      if cdsGapCount.None? {
        cdsGapCount := Some(totalGapCount);
      }
      var color: Color;
      if averageCoverage > AverageReadCoverageThresholdForGreenGenomes {
        color := Green;
        if cdsGapCount.value > 0 || partialCdsNote.Some? {
          color := YellowRedo;
        } else if totalGapCount > 0 {
          color := YellowKeep;
        }
      } else if averageCoverage > AverageReadCoverageThresholdForYellowGenomes {
        color := YellowKeep;
        if cdsGapCount.value > 0 || partialCdsNote.Some? {
          color := YellowRedo;
        }
      } else {
        color := RedRedo;
      }
      if color == Green {
        if cdsMinimumCoverage.None? || cdsMinimumCoverage.value < CdsMinimumCoverageForGreenGenomes {
          color := YellowRedo;
        }
      }
      if vp1MinimumCoverage.None? || vp1MinimumCoverage.value < Vp1MinimumCoverageForYellowGenomes {
        color := RedRedo;
      }
      colorResultKey := ColorResultKey(color);
    }

    /** `calculateVp1SnpsString` (FinalizeRunOperation.java:558-574). */
    function CalculateVp1SnpsString(): (s: string)
      reads this
      ensures s == "-" <==> vp1Snps.None? || vp1GapCount.None? || partialVp1CoverageFlag
      ensures vp1Snps.Some? && vp1GapCount == Some(0) && !partialVp1CoverageFlag ==>
        IsIntText(s) && ParseInt(s) == |vp1Snps.value|
      ensures vp1Snps.Some? && vp1GapCount.Some? && vp1GapCount.value != 0 && !partialVp1CoverageFlag ==>
        s == IntToString(vp1GapCount.value + |vp1Snps.value|) + " = " + IntToString(vp1GapCount.value) +
             " (Gaps) + " + IntToString(|vp1Snps.value|) + " (SNPs)"
    {
      if vp1Snps.None? || vp1GapCount.None? then "-"
      else if partialVp1CoverageFlag then "-"
      else if vp1GapCount.value == 0 then
        ParseIntToString(|vp1Snps.value|);
        IntToStringShape(|vp1Snps.value|);
        IntToString(|vp1Snps.value|)
      else
        var vp1SnpCount := |vp1Snps.value|;
        IntToStringShape(vp1GapCount.value + vp1SnpCount);
        IntToString(vp1GapCount.value + vp1SnpCount) + " = " + IntToString(vp1GapCount.value) +
        " (Gaps) + " + IntToString(vp1SnpCount) + " (SNPs)"
    }

    /** `calculateNotes` (FinalizeRunOperation.java:575-614): the notes, in
        order, joined with "; ". */
    method CalculateNotes() returns (result: string)
      ensures result == Join("; ", NoteEntries(totalGapCount, cdsMinimumCoverage, vp1MinimumCoverage,
                                               partialCdsNote, recombinationNote))
    {
      var notes: seq<string> := [];
      if cdsMinimumCoverage.None? {
        notes := notes + [CdsCoverageUnavailableNote];
      } else if totalGapCount == 0 && cdsMinimumCoverage.value < CdsMinimumCoverageForGreenGenomes {
        notes := notes + [CdsCoverageTooLowNote(cdsMinimumCoverage.value)];
      }
      assert notes == CdsCoverageNotes(totalGapCount, cdsMinimumCoverage);
      ghost var before := notes;
      if vp1MinimumCoverage.None? {
        notes := notes + [Vp1CoverageUnavailableNote];
      } else if vp1MinimumCoverage.value < Vp1MinimumCoverageForYellowGenomes {
        notes := notes + [Vp1CoverageTooLowNote(vp1MinimumCoverage.value)];
      }
      assert notes == before + Vp1CoverageNotes(vp1MinimumCoverage);
      before := notes;
      if totalGapCount > 0 {
        notes := notes + [GapsNote(totalGapCount)];
      }
      assert notes == before + GapNotes(totalGapCount);
      before := notes;
      if partialCdsNote.Some? {
        notes := notes + [partialCdsNote.value];
      }
      assert notes == before + OptionalNote(partialCdsNote);
      before := notes;
      if recombinationNote.Some? {
        notes := notes + [recombinationNote.value];
      }
      assert notes == before + OptionalNote(recombinationNote);
      result := Join("; ", notes);
    }

    /** `parseNucleotideSequenceDocument` (FinalizeRunOperation.java:616-686),
        given the genome's sequence, its annotations and its type with any
        duplicate suffix removed. */
    method ParseNucleotideSequenceDocument(sampleName: string, genomeType: string, simplifiedType: string,
                                           sequenceString: string, annotations: seq<Annotation>)
      returns (outcome: ParseOutcome)
      modifies this`fullCoverageLength, this`totalGapCount
      ensures fullCoverageLength == |sequenceString|
      ensures totalGapCount == CountN(sequenceString, 0, |sequenceString|)
      ensures outcome == NucleotideOutcome(FormatGenomeName(sampleName, genomeType), simplifiedType, sequenceString, annotations)
    {
      var gapCount := CountTotalGaps(sequenceString);
      fullCoverageLength := |sequenceString|;
      totalGapCount := gapCount;
      var genomeName := FormatGenomeName(sampleName, genomeType);
      var vp1SequenceAnnotation: Option<Annotation> := None;
      var k := 0;
      while k < |annotations|
        invariant 0 <= k <= |annotations|
        invariant vp1SequenceAnnotation == LastVp1Annotation(annotations[..k])
      {
        assert annotations[..k + 1][..k] == annotations[..k];
        if IsVp1Name(annotations[k].name) {
          vp1SequenceAnnotation := Some(annotations[k]);
        }
        k := k + 1;
      }
      assert annotations[..|annotations|] == annotations;
      if |annotations| == 0 {
        outcome := Parsed([ErrorEntry(GenomesWithoutAnnotations, genomeName)], None);
      } else if vp1SequenceAnnotation.None? {
        outcome := Parsed([ErrorEntry(GenomesWithoutAVp1Annotation, genomeName)], None);
      } else if vp1SequenceAnnotation.value.numberOfIntervals != 1 {
        outcome := Parsed([ErrorEntry(GenomesWithAnUnexpectedNumberOfVp1AnnotationIntervals, genomeName)], None);
      } else if simplifiedType in PolioTypes {
        var begin := Max(0, vp1SequenceAnnotation.value.minimumIndex - 1);
        var end := Min(|sequenceString|, vp1SequenceAnnotation.value.maximumIndex);
        if begin > end {
          outcome := ParseAborted(IndexOutOfBounds);
        } else {
          outcome := Parsed([], Some(NamedSequence(InputDocumentName(genomeName), sequenceString[begin..end])));
        }
      } else {
        outcome := Parsed([], None);
      }
    }

    /** `parseAlignmentDocument` (FinalizeRunOperation.java:688-799), given
        the contig's mean coverage and percentage covered, its consensus, the
        per-column coverage and the reference's annotations. The VP1 minimum
        coverage is only written when the VP1 annotation resolves; the CDS
        minimum coverage is always written, over the whole alignment when the
        CDS annotation does not resolve. */
    method ParseAlignmentDocument(sampleName: string, genomeType: string, meanCoverage: real, percentCovered: real,
                                  consensusSequence: string, coverage: seq<int>, annotations: seq<Annotation>)
      returns (errors: seq<ErrorEntry>)
      requires |consensusSequence| == |coverage|
      modifies this`averageCoverage, this`percentFullCoverageCoveredByReads, this`vp1MinimumCoverage, this`cdsMinimumCoverage
      ensures averageCoverage == meanCoverage && percentFullCoverageCoveredByReads == percentCovered
      ensures errors == AlignmentErrors(FormatGenomeName(sampleName, genomeType), annotations)
      ensures vp1MinimumCoverage ==
        if |annotations| > 0 && SingleIntervalMatch(annotations, IsVp1Annotation).Some? then
          Some(MinCoverage(consensusSequence, coverage,
                           ColumnWindowLow(SingleIntervalMatch(annotations, IsVp1Annotation).value.minimumIndex),
                           ColumnWindowHigh(SingleIntervalMatch(annotations, IsVp1Annotation).value.maximumIndex, |coverage|)))
        else old(vp1MinimumCoverage)
      ensures cdsMinimumCoverage == Some(MinCoverage(consensusSequence, coverage,
                                                     CdsColumnLow(annotations), CdsColumnHigh(annotations, |coverage|)))
    {
      averageCoverage := meanCoverage;
      percentFullCoverageCoveredByReads := percentCovered;
      var alignmentNumberOfColumns := |coverage|;
      var genomeName := FormatGenomeName(sampleName, genomeType);
      var cdsLowerBoundInclusive: int := 0;
      var cdsUpperBoundExclusive: int := alignmentNumberOfColumns;
      errors := [];
      if |annotations| == 0 {
        errors := errors + [ErrorEntry(GenomesWithoutAnnotations, genomeName)];
      } else {
        if |Filter(annotations, IsVp1Annotation)| < 1 {
          errors := errors + [ErrorEntry(ContigsWithoutAVp1Annotation, genomeName)];
        } else if SingleIntervalMatch(annotations, IsVp1Annotation).None? {
          errors := errors + [ErrorEntry(ContigsWithAnUnexpectedNumberOfVp1AnnotationIntervals, genomeName)];
        } else {
          var vp1 := SingleIntervalMatch(annotations, IsVp1Annotation).value;
          var vp1LowerBoundInclusive := ColumnWindowLow(vp1.minimumIndex);
          var vp1UpperBoundExclusive := ColumnWindowHigh(vp1.maximumIndex, alignmentNumberOfColumns);
          var vp1MinimumCoverageFound := MinimumCoverage(consensusSequence, coverage, vp1LowerBoundInclusive, vp1UpperBoundExclusive);
          vp1MinimumCoverage := Some(vp1MinimumCoverageFound);
        }
        if |Filter(annotations, IsCdsAnnotation)| < 1 {
          errors := errors + [ErrorEntry(ContigsWithoutACdsAnnotation, genomeName)];
        } else if SingleIntervalMatch(annotations, IsCdsAnnotation).None? {
          errors := errors + [ErrorEntry(ContigsWithAnUnexpectedNumberOfCdsAnnotationIntervals, genomeName)];
        } else {
          var cds := SingleIntervalMatch(annotations, IsCdsAnnotation).value;
          cdsLowerBoundInclusive := ColumnWindowLow(cds.minimumIndex);
          cdsUpperBoundExclusive := ColumnWindowHigh(cds.maximumIndex, alignmentNumberOfColumns);
        }
      }
      var cdsMinimumCoverageFound := MinimumCoverage(consensusSequence, coverage, cdsLowerBoundInclusive, cdsUpperBoundExclusive);
      cdsMinimumCoverage := Some(cdsMinimumCoverageFound);
    }
  }
}
