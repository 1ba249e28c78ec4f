/** What `performOperation` settles once per alignment before it looks at the
    sample rows (FinalizeRunOperation.java:1320-1374, 1446-1493): which row
    is the reference, which row is the nOPV2 reference, which kind of
    alignment it is, and which annotations bound the analysis. */
module AlignmentSetup {
  import opened Common
  import opened Errors
  import opened Annotations

  /** The keys of `referenceGenomeNameToTypesMap` (FinalizeRunOperation.java:408-415). */
  const ReferenceGenomeNames: set<string> := {"AY184219", "AY184220", "AY184221", "MZ245455", "nOPV2"}

  predicate IsNopv2ReferenceName(name: string) {
    name == "nOPV2" || name == "MZ245455"
  }

  /** The reference row: the contig's own reference index when it has one
      (`-1` otherwise), else the first row named after a reference genome
      (FinalizeRunOperation.java:1323-1337). `None` is recorded as an
      alignment without a reference sequence. */
  method ResolveReferenceRow(contigReferenceSequenceIndex: int, rowNames: seq<string>) returns (index: Option<nat>)
    requires contigReferenceSequenceIndex == -1 || 0 <= contigReferenceSequenceIndex < |rowNames|
    ensures contigReferenceSequenceIndex != -1 ==> index == Some(contigReferenceSequenceIndex)
    ensures contigReferenceSequenceIndex == -1 && index.Some? ==>
      index.value < |rowNames| && rowNames[index.value] in ReferenceGenomeNames &&
      forall j :: 0 <= j < index.value ==> rowNames[j] !in ReferenceGenomeNames
    ensures contigReferenceSequenceIndex == -1 && index.None? ==>
      forall j :: 0 <= j < |rowNames| ==> rowNames[j] !in ReferenceGenomeNames
  {
    if contigReferenceSequenceIndex != -1 {
      return Some(contigReferenceSequenceIndex);
    }
    index := None;
    var i := 0;
    while i < |rowNames|
      invariant 0 <= i <= |rowNames|
      invariant forall j :: 0 <= j < i ==> rowNames[j] !in ReferenceGenomeNames
    {
      if rowNames[i] in ReferenceGenomeNames {
        index := Some(i);
        return;
      }
      i := i + 1;
    }
  }

  /** The first row named "nOPV2" or "MZ245455" (FinalizeRunOperation.java:1342-1349). */
  method FindNopv2Row(rowNames: seq<string>) returns (index: Option<nat>)
    ensures index.Some? ==>
      index.value < |rowNames| && IsNopv2ReferenceName(rowNames[index.value]) &&
      forall j :: 0 <= j < index.value ==> !IsNopv2ReferenceName(rowNames[j])
    ensures index.None? ==> forall j :: 0 <= j < |rowNames| ==> !IsNopv2ReferenceName(rowNames[j])
  {
    index := None;
    var i := 0;
    while i < |rowNames|
      invariant 0 <= i <= |rowNames|
      invariant forall j :: 0 <= j < i ==> !IsNopv2ReferenceName(rowNames[j])
    {
      if IsNopv2ReferenceName(rowNames[i]) {
        index := Some(i);
        return;
      }
      i := i + 1;
    }
  }

  /** The characters `\s` matches in a Java regular expression. */
  predicate IsRegexSpace(c: char) {
    c == ' ' || c == '\t' || c == '\n' || c == '\U{000B}' || c == '\U{000C}' || c == '\r'
  }

  /** The characters `.` does not match in a Java regular expression. */
  predicate IsLineTerminator(c: char) {
    c == '\n' || c == '\r' || c == '\U{0085}' || c == '\U{2028}' || c == '\U{2029}'
  }

  function TrimTrailingSpace(s: string): (t: string)
    ensures |t| <= |s| && t == s[..|t|]
    ensures forall i :: |t| <= i < |s| ==> IsRegexSpace(s[i])
    ensures |t| > 0 ==> !IsRegexSpace(t[|t| - 1])
  {
    if |s| > 0 && IsRegexSpace(s[|s| - 1]) then TrimTrailingSpace(s[..|s| - 1]) else s
  }

  /** `name.matches(".*[Vv][Pp]1\\s*$")`: a VP1-only alignment
      (FinalizeRunOperation.java:1352). */
  predicate IsVp1AlignmentName(name: string) {
    var t := TrimTrailingSpace(name);
    |t| >= 3 && IsVp1Name(t[|t| - 3..]) && forall i :: 0 <= i < |t| - 3 ==> !IsLineTerminator(t[i])
  }

  /** Trailing whitespace never changes the kind of alignment. */
  lemma {:induction false} TrailingSpaceIrrelevant(name: string, c: char)
    requires IsRegexSpace(c)
    ensures IsVp1AlignmentName(name + [c]) <==> IsVp1AlignmentName(name)
  {
    assert (name + [c])[..|name + [c]| - 1] == name;
  }

  /** The VP1 interval of a VP1 alignment's reference, or why there is none. */
  datatype Vp1Setup = Vp1Ready(vp1MinimumIndex: int, vp1MaximumIndex: int) | Vp1Skipped(entry: ErrorEntry)

  /** The VP1 selection as written (FinalizeRunOperation.java:1353-1374): a
      reference without any VP1 annotation is recorded under
      `ALIGNMENTS_WITHOUT_REFERENCE_SEQUENCES`; several VP1 annotations, or
      one with several intervals, under the unexpected-interval category. */
  function PrepareVp1AlignmentAsWritten(alignmentName: string, annotations: seq<Annotation>): (r: Vp1Setup)
    ensures r.Vp1Skipped? ==> r.entry.name == alignmentName
    ensures r.Vp1Skipped? && r.entry.error == AlignmentsWithoutReferenceSequences <==>
      forall i :: 0 <= i < |annotations| ==> !IsVp1Annotation(annotations[i])
  {
    NoMatch(annotations, IsVp1Annotation);
    if |Filter(annotations, IsVp1Annotation)| < 1 then
      Vp1Skipped(ErrorEntry(AlignmentsWithoutReferenceSequences, alignmentName))
    else
      match SingleIntervalMatch(annotations, IsVp1Annotation)
      case Some(a) => Vp1Ready(a.minimumIndex, a.maximumIndex)
      case None => Vp1Skipped(ErrorEntry(AlignmentsWithAnUnexpectedNumberOfVp1AnnotationIntervals, alignmentName))
  }

  /** As written, a reference with no VP1 annotation is reported exactly like
      an alignment with no reference row at all (1335), although the
      dedicated category `ALIGNMENTS_WITHOUT_A_VP1_ANNOTATION` exists. */
  lemma MissingVp1ReportedAsMissingReference(alignmentName: string)
    ensures PrepareVp1AlignmentAsWritten(alignmentName, [Annotation("CDS", "CDS", 1, 1, 100)])
         == Vp1Skipped(ErrorEntry(AlignmentsWithoutReferenceSequences, alignmentName))
  {
    assert !IsVp1Annotation([Annotation("CDS", "CDS", 1, 1, 100)][0]);
  }

  /** The VP1 selection with the missing-annotation case recorded under
      `ALIGNMENTS_WITHOUT_A_VP1_ANNOTATION`: ready exactly when one annotation
      is named VP1 and it has one interval, whose bounds it then carries. */
  function PrepareVp1Alignment(alignmentName: string, annotations: seq<Annotation>): (r: Vp1Setup)
    ensures r.Vp1Skipped? ==> r.entry.name == alignmentName
    ensures r.Vp1Skipped? ==>
      r.entry.error == AlignmentsWithoutAVp1Annotation ||
      r.entry.error == AlignmentsWithAnUnexpectedNumberOfVp1AnnotationIntervals
    ensures r.Vp1Skipped? && r.entry.error == AlignmentsWithoutAVp1Annotation <==>
      forall i :: 0 <= i < |annotations| ==> !IsVp1Annotation(annotations[i])
    ensures r.Vp1Ready? <==>
      exists i :: UniqueIndex(annotations, IsVp1Annotation, i) && annotations[i].numberOfIntervals == 1
    ensures forall i :: UniqueIndex(annotations, IsVp1Annotation, i) && r.Vp1Ready? ==>
      r.vp1MinimumIndex == annotations[i].minimumIndex && r.vp1MaximumIndex == annotations[i].maximumIndex
  {
    NoMatch(annotations, IsVp1Annotation);
    if |Filter(annotations, IsVp1Annotation)| < 1 then
      Vp1Skipped(ErrorEntry(AlignmentsWithoutAVp1Annotation, alignmentName))
    else
      match SingleIntervalMatch(annotations, IsVp1Annotation)
      case Some(a) => Vp1Ready(a.minimumIndex, a.maximumIndex)
      case None => Vp1Skipped(ErrorEntry(AlignmentsWithAnUnexpectedNumberOfVp1AnnotationIntervals, alignmentName))
  }

  /** The correction changes only the category of the missing-annotation case. */
  lemma Vp1CorrectionOnlyRenamesMissingCase(alignmentName: string, annotations: seq<Annotation>)
    ensures PrepareVp1AlignmentAsWritten(alignmentName, annotations) != PrepareVp1Alignment(alignmentName, annotations)
      <==> forall i :: 0 <= i < |annotations| ==> !IsVp1Annotation(annotations[i])
  {
    NoMatch(annotations, IsVp1Annotation);
  }

  /** A non-VP1 alignment's CDS interval and its reference annotations,
      all of them, sorted by minimum index. */
  datatype CdsSetup =
    | CdsReady(cdsMinimumIndex: int, cdsMaximumIndex: int, sortedAnnotations: seq<Annotation>)
    | CdsSkipped(entry: ErrorEntry)

  /** The name the CDS branch records its errors under (FinalizeRunOperation.java:1446-1450). */
  function ReferenceWithinAlignmentName(referenceName: string, alignmentName: string): string {
    "Reference sequence \"" + referenceName + "\" within alignment \"" + alignmentName + "\""
  }

  predicate MaturePeptidesHaveOneInterval(annotations: seq<Annotation>) {
    forall i :: 0 <= i < |annotations| && IsMaturePeptide(annotations[i]) ==> annotations[i].numberOfIntervals == 1
  }

  /** The CDS branch's checks (FinalizeRunOperation.java:1451-1493): ready
      exactly when one annotation is named CDS and it has one interval, and
      every mature-peptide annotation has one interval. The list kept for the
      windows is every reference annotation, not only the mature peptides,
      sorted by minimum index. */
  function PrepareCdsAlignment(referenceName: string, alignmentName: string, annotations: seq<Annotation>): (r: CdsSetup)
    ensures r.CdsSkipped? ==> r.entry.name == ReferenceWithinAlignmentName(referenceName, alignmentName)
    ensures r.CdsSkipped? && r.entry.error == GenomesWithoutACdsAnnotation <==>
      forall i :: 0 <= i < |annotations| ==> !IsCdsAnnotation(annotations[i])
    ensures r.CdsSkipped? && r.entry.error == GenomesWithAnUnexpectedNumberOfCdsAnnotationIntervals <==>
      (exists i :: 0 <= i < |annotations| && IsCdsAnnotation(annotations[i])) &&
      !(exists i :: UniqueIndex(annotations, IsCdsAnnotation, i) && annotations[i].numberOfIntervals == 1)
    ensures r.CdsSkipped? && r.entry.error == GenomesWithAnUnexpectedNumberOfMaturePeptideAnnotationIntervals <==>
      (exists i :: UniqueIndex(annotations, IsCdsAnnotation, i) && annotations[i].numberOfIntervals == 1) &&
      !MaturePeptidesHaveOneInterval(annotations)
    ensures r.CdsReady? <==>
      (exists i :: UniqueIndex(annotations, IsCdsAnnotation, i) && annotations[i].numberOfIntervals == 1) &&
      MaturePeptidesHaveOneInterval(annotations)
    ensures forall i :: UniqueIndex(annotations, IsCdsAnnotation, i) && r.CdsReady? ==>
      r.cdsMinimumIndex == annotations[i].minimumIndex && r.cdsMaximumIndex == annotations[i].maximumIndex
    ensures r.CdsReady? ==>
      && SortedByMinimum(r.sortedAnnotations)
      && multiset(r.sortedAnnotations) == multiset(annotations)
      && |r.sortedAnnotations| > 0
  {
    var genomeName := ReferenceWithinAlignmentName(referenceName, alignmentName);
    NoMatch(annotations, IsCdsAnnotation);
    if |Filter(annotations, IsCdsAnnotation)| < 1 then
      CdsSkipped(ErrorEntry(GenomesWithoutACdsAnnotation, genomeName))
    else
      match SingleIntervalMatch(annotations, IsCdsAnnotation)
      case None => CdsSkipped(ErrorEntry(GenomesWithAnUnexpectedNumberOfCdsAnnotationIntervals, genomeName))
      case Some(cds) =>
        if !MaturePeptidesHaveOneInterval(annotations) then
          CdsSkipped(ErrorEntry(GenomesWithAnUnexpectedNumberOfMaturePeptideAnnotationIntervals, genomeName))
        else
          CdsReady(cds.minimumIndex, cds.maximumIndex, SortByMinimum(annotations))
  }
}
