# PPB automation: the finalize-run analysis

This project models the analysis that the PPB automation plugin for
Geneious runs when it finalizes a poliovirus sequencing run. The model
covers these parts of `FinalizeRunOperation`:

- the per-genome record `ExcelData`: its statistics, its grade, its VP1
  SNP summary and its notes;
- the gap counts and the minimum-coverage scans that fill that record;
- `getIndicesOfSnps`, the SNP detector;
- the VP1 SNP pass over each genome row of a VP1 alignment;
- the recombination analysis of each genome row of a whole-genome
  alignment. It finds the non-gap span, builds the 5', 3' and VP1 windows
  from the reference annotations, computes each window's distance-to-SNP
  profile, and writes the recombination note and the partial-CDS note;
- the genotype assignment. It gives every input VP1 excerpt the nearest
  reference genotype, measured by Hamming distance after the uracil rule.

Module by module:

- `Common`: `Option` for Java's nullable references, `Integer.MAX_VALUE`,
  and a stream `filter`.
- `Text`: `String.join` and the decimal rendering of integers.
- `Nucleotide`: the uracil rule (`U`/`u` decremented to `T`/`t`), the
  ambiguous bases `N`/`n`, the gap `-`, and ASCII lower-casing.
- `SnpDetector`: `getIndicesOfSnps`.
- `Coverage`: the gap counters and minimum-coverage loops. The per-column
  coverage is a given `seq<int>`.
- `Errors`: the non-fatal error categories, and the exceptions that abort
  a run.
- `Annotations`: sequence annotations, name matching, and the sort by
  minimum index.
- `AlignmentSetup`: per alignment, the choice of reference row and nOPV2
  row, and the VP1/CDS annotation checks.
- `Recombination`: windows, distance profiles, the recombination note and
  the partial-CDS note.
- `Names`: sample, genome and database names.
- `ExcelRecord`: the `ExcelData` class with its colour grade, notes and parsers.
- `RowAnalysis`: the two per-row passes, as methods that update an
  `ExcelData`.
- `Genotype`: the genotype assigner.

Each scanning loop of the source is a method with loop invariants. It is
proved equal to a specification function, and lemmas state what that
function means. Examples of such statements: the SNPs are exactly the
differing positions, the minimum is a minimum, and the chosen reference is
the earliest one with the fewest differences. The two parsers and the two
row passes are methods of, or methods on, the `ExcelData` class, and they
state the record's whole new state.

## Model

| member | source | states |
|---|---|---|
| SnpDetector.GetIndicesOfSnps | src/com/biomatters/ppbAutomation/FinalizeRunOperation.java:960-999 | the scan returns exactly the SNP positions of the inclusive range and the number of ambiguous query bases in it |
| SnpDetector.SnpIndicesAreTheSnps | src/com/biomatters/ppbAutomation/FinalizeRunOperation.java:960-999 | the SNP positions are strictly increasing and lie in [start, stop]; a position is returned iff the folded query base there is not N/n and differs from the folded reference base; an empty range gives no SNPs and no gaps |
| SnpDetector.GapCountIsNPositions | src/com/biomatters/ppbAutomation/FinalizeRunOperation.java:969-994 | the gap count equals the number of N/n query positions in the range |
| SnpDetector.SnpsAndGapsBound | src/com/biomatters/ppbAutomation/FinalizeRunOperation.java:969-994 | SNPs plus gaps never exceed stop - start + 1 |
| SnpDetector.IdenticalUpToUracilHasNoSnps | src/com/biomatters/ppbAutomation/FinalizeRunOperation.java:969-994 | a query equal to the reference up to U->T folding, with no N, yields no SNPs and no gaps |
| SnpDetector.UracilExample | src/com/biomatters/ppbAutomation/FinalizeRunOperation.java:972-983 | AUG against ATG has no SNP: U and T are the same base |
| Nucleotide.FoldU | src/com/biomatters/ppbAutomation/FinalizeRunOperation.java:972-983 | U becomes T, u becomes t, every other character is unchanged |
| Nucleotide.CountNIsCardinality | src/com/biomatters/ppbAutomation/FinalizeRunOperation.java:624-632 | the left-to-right N count is the size of the set of N/n positions |
| Nucleotide.LowerKeepsClasses | src/com/biomatters/ppbAutomation/FinalizeRunOperation.java:1526-1536 | lower-casing keeps ambiguous bases ambiguous and gaps gaps, and is idempotent |
| Coverage.CountTotalGaps | src/com/biomatters/ppbAutomation/FinalizeRunOperation.java:621-634 | the total gap count is the number of N/n positions of the whole consensus |
| Coverage.CountCdsGaps | src/com/biomatters/ppbAutomation/FinalizeRunOperation.java:1527-1537 | the CDS gap count is the number of N/n positions of the 1-based inclusive CDS interval |
| Coverage.ColumnWindowHigh | src/com/biomatters/ppbAutomation/FinalizeRunOperation.java:748-755 | the scanned window never extends past the last alignment column |
| Coverage.MinimumCoverage | src/com/biomatters/ppbAutomation/FinalizeRunOperation.java:756-764 | the loop computes the running minimum of coverage - 1 over non-gap columns, starting from Integer.MAX_VALUE |
| Coverage.MinCoverageIsMinimum | src/com/biomatters/ppbAutomation/FinalizeRunOperation.java:748-765 | the result is at most `coverage[i] - 1` for every non-gap column of the window and at most the sentinel; it is the sentinel or the value of one such column |
| Coverage.MinCoverageSentinel | src/com/biomatters/ppbAutomation/FinalizeRunOperation.java:748-765 | for Java int coverages, the result is Integer.MAX_VALUE iff the window has no non-gap column |
| Coverage.MinCoverageIgnoresGapColumns | src/com/biomatters/ppbAutomation/FinalizeRunOperation.java:756-764 | coverage values at gap columns never affect the result |
| Coverage.GapColumnExample | src/com/biomatters/ppbAutomation/FinalizeRunOperation.java:756-764 | a zero-coverage gap column does not pull the minimum down |
| Common.Filter | src/com/biomatters/ppbAutomation/FinalizeRunOperation.java:713-722 | the filtered list is no longer than the input, holds exactly the input's elements that satisfy the predicate, and every element it holds satisfies it |
| Common.FilterMultiplicity | src/com/biomatters/ppbAutomation/FinalizeRunOperation.java:713-722 | each element satisfying the predicate is kept as often as it occurs in the input; every other element is dropped |
| Common.FilterConcat | src/com/biomatters/ppbAutomation/FinalizeRunOperation.java:713-722 | filtering a concatenation is the concatenation of the filtered parts, so the kept elements stay in input order |
| Common.FilterSingle | src/com/biomatters/ppbAutomation/FinalizeRunOperation.java:738-746 | the filtered list has size one iff exactly one element matches, and then it is that element |
| Annotations.SingleIntervalMatch | src/com/biomatters/ppbAutomation/FinalizeRunOperation.java:738-746 | an annotation is selected iff exactly one annotation matches and it has one interval; that annotation is the one selected |
| Annotations.NoMatch | src/com/biomatters/ppbAutomation/FinalizeRunOperation.java:738-739 | the "fewer than one match" branch is taken iff no annotation matches |
| Annotations.SortByMinimum | src/com/biomatters/ppbAutomation/FinalizeRunOperation.java:1489-1493 | the result is sorted by minimum index and is a permutation of the input |
| Annotations.InsertByMinimum | src/com/biomatters/ppbAutomation/FinalizeRunOperation.java:1489-1493 | one insertion step adds exactly the new annotation to the multiset |
| AlignmentSetup.ResolveReferenceRow | src/com/biomatters/ppbAutomation/FinalizeRunOperation.java:1323-1337 | the contig's reference index is used when set; otherwise the first row named after a reference genome; None iff no row is |
| AlignmentSetup.FindNopv2Row | src/com/biomatters/ppbAutomation/FinalizeRunOperation.java:1342-1349 | the first row named nOPV2 or MZ245455, or None iff there is no such row |
| AlignmentSetup.TrimTrailingSpace | src/com/biomatters/ppbAutomation/FinalizeRunOperation.java:1352 | the result is the longest prefix that ends in a character `\s` does not match; only whitespace was removed |
| AlignmentSetup.TrailingSpaceIrrelevant | src/com/biomatters/ppbAutomation/FinalizeRunOperation.java:1352 | trailing whitespace never changes whether an alignment counts as a VP1 alignment |
| AlignmentSetup.PrepareVp1AlignmentAsWritten | src/com/biomatters/ppbAutomation/FinalizeRunOperation.java:1353-1374 | as written, a reference without a VP1 annotation is recorded as "without reference sequences" exactly when no annotation is named VP1 |
| AlignmentSetup.MissingVp1ReportedAsMissingReference | src/com/biomatters/ppbAutomation/FinalizeRunOperation.java:1358-1361 | a reference annotated only with CDS puts the alignment in the missing-reference category |
| AlignmentSetup.PrepareVp1Alignment | src/com/biomatters/ppbAutomation/FinalizeRunOperation.java:1353-1374 | ready iff exactly one annotation is named VP1 and it has one interval, carrying its bounds; the missing case uses the VP1-annotation category |
| AlignmentSetup.Vp1CorrectionOnlyRenamesMissingCase | src/com/biomatters/ppbAutomation/FinalizeRunOperation.java:1353-1374 | the corrected selection differs from the written one exactly when no annotation is named VP1 |
| AlignmentSetup.PrepareCdsAlignment | src/com/biomatters/ppbAutomation/FinalizeRunOperation.java:1446-1493 | no CDS annotation, CDS annotations but no single one-interval one, and a mature peptide with several intervals are each recorded exactly in their case, under the reference's name; ready otherwise, with the CDS bounds and all annotations sorted by minimum index |
| Recombination.LowestIndexOfNonGap | src/com/biomatters/ppbAutomation/FinalizeRunOperation.java:1538-1545 | the first non-gap position, or None iff the row is all gaps |
| Recombination.HighestIndexOfNonGap | src/com/biomatters/ppbAutomation/FinalizeRunOperation.java:1546-1552 | the last non-gap position, or None iff the row is all gaps |
| Recombination.NonGapSpan | src/com/biomatters/ppbAutomation/FinalizeRunOperation.java:1538-1558 | the first non-gap position is not after the last, and every non-gap position lies between them |
| Recombination.ClampBelowMaximaIsMinimum | src/com/biomatters/ppbAutomation/FinalizeRunOperation.java:1563-1576 | the 5' clamp is the minimum of the last non-gap position and every annotation maximum |
| Recombination.ClampAboveMinimaIsMaximum | src/com/biomatters/ppbAutomation/FinalizeRunOperation.java:1587-1600 | the 3' clamp is the maximum of the first non-gap position and every annotation minimum |
| Recombination.LastContainingIsLast | src/com/biomatters/ppbAutomation/FinalizeRunOperation.java:1563-1572 | the bounding annotation is the last one containing the position, and None iff none contains it |
| Recombination.FivePrimeWindow | src/com/biomatters/ppbAutomation/FinalizeRunOperation.java:1560-1583 | the 5' loop yields the window from the first non-gap position to the clamped stop, and the last annotation containing its start |
| Recombination.ThreePrimeWindow | src/com/biomatters/ppbAutomation/FinalizeRunOperation.java:1584-1608 | the 3' loop yields the window from the clamped start to the last non-gap position, and the last annotation containing its end |
| Recombination.FivePrimeWindowBounds | src/com/biomatters/ppbAutomation/FinalizeRunOperation.java:1560-1583 | the 5' window never reaches past the span or any annotation end; outside every annotation it lies before all of them |
| Recombination.ThreePrimeWindowBounds | src/com/biomatters/ppbAutomation/FinalizeRunOperation.java:1584-1608 | the 3' window never starts before the span or any annotation start |
| Recombination.ThreePrimeUtrClampIsNoOp | src/com/biomatters/ppbAutomation/FinalizeRunOperation.java:1602-1607 | the 3' UTR clamp never changes the start, because every annotation minimum was already applied |
| Recombination.Vp1Window | src/com/biomatters/ppbAutomation/FinalizeRunOperation.java:1610-1632 | the VP1 window lies inside the span; it is the span clipped to the one single-interval VP1 annotation, or the whole span when there is none |
| Recombination.WindowsInsideSpan | src/com/biomatters/ppbAutomation/FinalizeRunOperation.java:1560-1632 | every window's SNP scan reads only positions of the row |
| Recombination.CalculateDistances | src/com/biomatters/ppbAutomation/FinalizeRunOperation.java:1685-1697 | the nested loop yields the distance profile of the window |
| Recombination.NearestSnpDistanceIsMinimum | src/com/biomatters/ppbAutomation/FinalizeRunOperation.java:1686-1696 | each entry is the sentinel iff there are no SNPs; otherwise it is the smallest absolute distance to a SNP |
| Recombination.DistanceProfileProperties | src/com/biomatters/ppbAutomation/FinalizeRunOperation.java:1685-1697 | the profile has stop - start + 1 entries; each entry is at most the distance to every SNP and is 0 at a SNP; with no SNPs every entry is the sentinel |
| Recombination.CalculateWindow | src/com/biomatters/ppbAutomation/FinalizeRunOperation.java:1662-1698 | one window pass yields the window's SNP count, its gap count and its distance profile, with the VP1 span fallback |
| Recombination.Vp1FallbackOnlyWhenNoSnps | src/com/biomatters/ppbAutomation/FinalizeRunOperation.java:1671-1683 | the fallback changes nothing when the window has SNPs; otherwise it measures every SNP of the span and keeps the window's own gap count |
| Recombination.FrequencyGateIsFrequency | src/com/biomatters/ppbAutomation/FinalizeRunOperation.java:1718-1733 | the integer gate is the comparison of the SNP frequency with the threshold percentage |
| Recombination.RecombinationNote | src/com/biomatters/ppbAutomation/FinalizeRunOperation.java:1699-1757 | the gaps note iff any window has gaps; with no gaps, at least one VP1 SNP and the flank flag decide between double, 5', 3' or no note, each iff its flag holds |
| Recombination.NoVp1SnpsNoNote | src/com/biomatters/ppbAutomation/FinalizeRunOperation.java:1699-1757 | with no gaps and no VP1 SNP the note is null |
| Recombination.SparseFlankNeverRecombinant | src/com/biomatters/ppbAutomation/FinalizeRunOperation.java:1716-1754 | flanks below their frequency thresholds are never reported as recombinant, whatever the t-test says |
| Recombination.PartialCdsNote | src/com/biomatters/ppbAutomation/FinalizeRunOperation.java:1759-1788 | no note iff the row covers the CDS at both ends; otherwise the text names the bounding annotations of the missing ends |
| Recombination.PartialCdsTexts | src/com/biomatters/ppbAutomation/FinalizeRunOperation.java:1767-1788 | the joined portions read "Partial CDS (x-)", "(-y)" or "(x-:-y)" |
| Recombination.Nopv2TypeExamples | src/com/biomatters/ppbAutomation/FinalizeRunOperation.java:1653 | the nOPV2 test ignores case and rejects other types |
| Names.FormatSampleName | src/com/biomatters/ppbAutomation/FinalizeRunOperation.java:914-922 | the sample name is the CSID, an underscore, then the CUID |
| Names.FormatGenomeName | src/com/biomatters/ppbAutomation/FinalizeRunOperation.java:924-934 | the genome name is the sample, " - ", then the type |
| Names.SampleNameIsInjective | src/com/biomatters/ppbAutomation/FinalizeRunOperation.java:914-922 | for CSIDs without underscores, equal sample names mean equal CSIDs and CUIDs |
| Names.GenomeNameIsInjective | src/com/biomatters/ppbAutomation/FinalizeRunOperation.java:924-934 | for sample names without spaces, equal genome names mean equal samples and types |
| Names.DbNameIsRunSampleType | src/com/biomatters/ppbAutomation/FinalizeRunOperation.java:1877-1883 | the database name is the run name, the sample name and the type, joined by underscores |
| Names.GenomeNameExample | src/com/biomatters/ppbAutomation/FinalizeRunOperation.java:914-934 | sample 2024000123/A1 with type PV2 is named "2024000123_A1 - PV2" |
| Text.JoinAppend | src/com/biomatters/ppbAutomation/FinalizeRunOperation.java:576-613 | one more note appends the separator and the note to the joined text |
| Text.ParseIntToString | src/com/biomatters/ppbAutomation/FinalizeRunOperation.java:563-572 | the decimal rendering of an int reads back as the same number |
| Text.IntToStringShape | src/com/biomatters/ppbAutomation/FinalizeRunOperation.java:563-572 | a rendered number is never empty and never a lone minus sign |
| ExcelRecord.GradeNeverYellowRemove | src/com/biomatters/ppbAutomation/FinalizeRunOperation.java:515-557 | no record is graded YELLOW_REMOVE |
| ExcelRecord.GradeRedExactly | src/com/biomatters/ppbAutomation/FinalizeRunOperation.java:520-556 | RED-REDO iff the VP1 coverage is null or below 6, or the average coverage is at most 25 |
| ExcelRecord.GradeGreenExactly | src/com/biomatters/ppbAutomation/FinalizeRunOperation.java:520-556 | GREEN iff coverage is above 50, total and CDS gaps are 0, there is no partial-CDS note, CDS coverage is at least 3 and VP1 coverage at least 6 |
| ExcelRecord.GradeYellowKeepExactly | src/com/biomatters/ppbAutomation/FinalizeRunOperation.java:520-556 | YELLOW_KEEP iff the VP1 gate passes, the CDS has no gaps and is complete, and coverage is either above 50 with gaps outside the CDS or in (25, 50] |
| ExcelRecord.GradeExamples | src/com/biomatters/ppbAutomation/FinalizeRunOperation.java:520-556 | four concrete records and their grades |
| ExcelRecord.NotesExplainVp1Gate | src/com/biomatters/ppbAutomation/FinalizeRunOperation.java:589-597 | a missing or low VP1 coverage always has its note among the notes |
| ExcelRecord.GreenNotesAreRecombinationOnly | src/com/biomatters/ppbAutomation/FinalizeRunOperation.java:575-614 | a green genome's only possible note is its recombination note |
| ExcelRecord.CdsLowNoteNeedsNoGaps | src/com/biomatters/ppbAutomation/FinalizeRunOperation.java:577-588 | the low-CDS-coverage note is never given while there are gaps |
| ExcelRecord.LastVp1AnnotationIsLast | src/com/biomatters/ppbAutomation/FinalizeRunOperation.java:641-646 | the selected VP1 annotation is the last annotation named VP1, and None iff there is none |
| ExcelRecord.Vp1ExcerptIsInterval | src/com/biomatters/ppbAutomation/FinalizeRunOperation.java:661-685 | the run aborts iff the clipped interval is reversed; otherwise the queued excerpt is named after the genome and holds exactly the clipped VP1 bases |
| ExcelRecord.NucleotideErrorsExactly | src/com/biomatters/ppbAutomation/FinalizeRunOperation.java:641-661 | no annotations, no VP1 annotation, and a last VP1 annotation with several intervals are each recorded exactly in their case; no error iff the last VP1 annotation has one interval; an excerpt is queued only for a polio type |
| ExcelRecord.ContigVp1Errors | src/com/biomatters/ppbAutomation/FinalizeRunOperation.java:738-768 | at most one VP1 error, under the genome's name; none iff the VP1 annotation resolves to a single one-interval annotation |
| ExcelRecord.ContigCdsErrors | src/com/biomatters/ppbAutomation/FinalizeRunOperation.java:770-789 | at most one CDS error, under the genome's name; none iff the CDS annotation resolves to a single one-interval annotation |
| ExcelRecord.ContigVp1ErrorsExactly | src/com/biomatters/ppbAutomation/FinalizeRunOperation.java:738-768 | no VP1 error iff a single one-interval VP1 annotation exists; `CONTIGS_WITHOUT_A_VP1_ANNOTATION` iff none is named VP1; the unexpected-intervals category iff some is but none resolves |
| ExcelRecord.ContigCdsErrorsExactly | src/com/biomatters/ppbAutomation/FinalizeRunOperation.java:770-789 | no CDS error iff a single one-interval CDS annotation exists; `CONTIGS_WITHOUT_A_CDS_ANNOTATION` iff none is named CDS; the unexpected-intervals category iff some is but none resolves |
| ExcelRecord.AlignmentErrorsShape | src/com/biomatters/ppbAutomation/FinalizeRunOperation.java:733-789 | a contig without annotations records only that; otherwise at most one VP1 error followed by at most one CDS error, each under the genome's name; none iff both annotations resolve |
| ExcelRecord.ExcelData.constructor | src/com/biomatters/ppbAutomation/FinalizeRunOperation.java:495-513 | a new record has null SNPs, gap counts, coverages and partial-CDS note, and the indeterminate recombination note |
| ExcelRecord.ExcelData.CalculateColorResultKey | src/com/biomatters/ppbAutomation/FinalizeRunOperation.java:515-557 | a null CDS gap count becomes the total gap count; the key is the colour result of the record |
| ExcelRecord.ExcelData.CalculateVp1SnpsString | src/com/biomatters/ppbAutomation/FinalizeRunOperation.java:558-574 | "-" iff SNPs or VP1 gaps are missing or VP1 coverage is partial; otherwise the SNP count, or "total = gaps + SNPs" when there are gaps |
| ExcelRecord.ExcelData.CalculateNotes | src/com/biomatters/ppbAutomation/FinalizeRunOperation.java:575-614 | the notes, in the source's order, joined with "; " |
| ExcelRecord.ExcelData.ParseNucleotideSequenceDocument | src/com/biomatters/ppbAutomation/FinalizeRunOperation.java:616-686 | the record's length is the genome length and its gap count the genome's N count; the errors and the VP1 excerpt are those of the parse outcome |
| ExcelRecord.ExcelData.ParseAlignmentDocument | src/com/biomatters/ppbAutomation/FinalizeRunOperation.java:688-799 | the contig's coverage fields are stored; the VP1 minimum is written only when VP1 resolves; the CDS minimum is always written, over the whole alignment when CDS does not resolve |
| RowAnalysis.Vp1ScanIsTheSubstitutions | src/com/biomatters/ppbAutomation/FinalizeRunOperation.java:1411-1443 | the VP1 pass records exactly the substitutions of the interval, at 1-based positions within VP1, in increasing order; its gap count is the N count; a dash is seen iff the interval has one |
| RowAnalysis.Vp1ScanBelowCounts | src/com/biomatters/ppbAutomation/FinalizeRunOperation.java:1411-1441 | SNPs plus gaps never exceed the positions scanned; gaps are the N count; dashes raise the flag |
| RowAnalysis.Vp1ScanBelowSound | src/com/biomatters/ppbAutomation/FinalizeRunOperation.java:1411-1441 | every recorded SNP is a substitution at a position 1..k - vp1Min into VP1, in increasing order |
| RowAnalysis.Vp1ScanBelowComplete | src/com/biomatters/ppbAutomation/FinalizeRunOperation.java:1411-1441 | every substitution of the scanned positions is recorded |
| RowAnalysis.IdenticalVp1HasNoSnps | src/com/biomatters/ppbAutomation/FinalizeRunOperation.java:1411-1443 | a sample equal to the reference across VP1, with no N and no gap, has no SNP, no gap and no partial flag |
| RowAnalysis.Vp1AbortPosition | src/com/biomatters/ppbAutomation/FinalizeRunOperation.java:1411-1413 | the first position of a range that is not readable whose `charAt(i - 1)` leaves a row, with every earlier position readable |
| RowAnalysis.AnalyzeVp1Row | src/com/biomatters/ppbAutomation/FinalizeRunOperation.java:1408-1443 | when the interval is readable, the record gets the pass's SNPs and gap count and its partial flag is raised by any dash; otherwise the fatal error leaves the SNPs and gap count unchanged, and the flag is raised by the dashes before the failing position |
| RowAnalysis.AnalyzeCdsRow | src/com/biomatters/ppbAutomation/FinalizeRunOperation.java:1526-1788 | the index abort iff the CDS interval leaves the row, with the record unchanged; an all-gap row iff the interval fits and the row has no base; the missing-nOPV2 abort iff an nOPV2 genome meets an alignment without that reference; analysed iff none of these, and then its span, windows, calculations, errors, recombination note and partial-CDS note as the specification functions give them |
| RowAnalysis.CompareSpan | src/com/biomatters/ppbAutomation/FinalizeRunOperation.java:1662-1788 | the 5', 3' and VP1 windows lie inside the rows; their SNP calculations, the recombination note and the partial-CDS note are as the specification functions give them, and the partial-CDS note is kept when the span covers the CDS |
| RowAnalysis.IdenticalRowHasNoRecombinationNote | src/com/biomatters/ppbAutomation/FinalizeRunOperation.java:1662-1757 | a row equal to its reference over its span, without N, gets no recombination note |
| Genotype.CountDifferences | src/com/biomatters/ppbAutomation/FinalizeRunOperation.java:1907-1926 | the inner loop counts the folded differences over the shorter length |
| Genotype.DifferencesProperties | src/com/biomatters/ppbAutomation/FinalizeRunOperation.java:1899-1926 | the count is at most the shorter length, is symmetric, and is 0 iff the rows agree after folding over that length |
| Genotype.PercentIdentityOfRows | src/com/biomatters/ppbAutomation/FinalizeRunOperation.java:1903-1930 | the identity is in [0, 1] and is 1 iff there is no difference; two empty rows give NaN |
| Genotype.ClosestAmongIsMinimum | src/com/biomatters/ppbAutomation/FinalizeRunOperation.java:1886-1936 | the chosen reference has the fewest differences of all reference rows, is the earliest on ties, is never an input row, and is null iff no reference row has fewer than Integer.MAX_VALUE differences |
| Genotype.FindClosestReference | src/com/biomatters/ppbAutomation/FinalizeRunOperation.java:1886-1932 | the inner loop yields the closest reference |
| Genotype.ClosestExample | src/com/biomatters/ppbAutomation/FinalizeRunOperation.java:1886-1932 | AAAT is typed as the AAAA reference with identity 3/4 and one difference |
| Genotype.RecordsBelowKeys | src/com/biomatters/ppbAutomation/FinalizeRunOperation.java:1848-1876 | every stored record belongs to the sample and type of some input row |
| Genotype.RecordsBelowLastWins | src/com/biomatters/ppbAutomation/FinalizeRunOperation.java:1848-1936 | the last input row for each sample and type has its genotype record stored |
| Genotype.AssignGenotypes | src/com/biomatters/ppbAutomation/FinalizeRunOperation.java:1847-1937 | the outer loop stores one genotype record per sample and type, as the specification function gives them |

## Left out

- The Geneious document store is not part of this model: folder walking, type resolution and the BLAST-hit selection. Sequences, annotations, mean coverage and percentages are inputs.
- The BLAST fields, percent pairwise identity and accession number of `ExcelData` are not modelled; they are filled from the document store.
- Consensus generation, `SequenceListSummary` and the MAFFT alignment are external libraries. The consensus, the per-column coverage and the aligned rows are given sequences.
- The contig's reference sequence index comes from the alignment library; it is an input to `AlignmentSetup.ResolveReferenceRow`.
- The Welch t-statistic (`average`, `standardDeviation`, `Math.sqrt`) is floating point. Each flank's test result is a function input `tTest`.
- Recombination.FrequencyGate: the double comparisons of the SNP frequency with 0.07 and 0.13 are stated as rational comparisons. This is exact unless a double rounding lands exactly on the threshold.
- Genotype.PercentIdentityOf: `1 - d / (double) maxLength` is exact real arithmetic, with NaN for two empty rows.
- Recombination.NearestSnpDistance: `Math.sqrt(dif * dif)` is the exact `|dif|`. The overflow of `dif * dif` for very long genomes is not modelled.
- The regex-based name parsing is not modelled. The simplified genome type, and the CSID, CUID and type of each aligned input row, are inputs.
- The loops over alignment rows, and the lookup of each row's `ExcelData` by its parsed name, are not modelled. They rely on the regex parsing and on a shared map. The per-row passes `RowAnalysis.AnalyzeVp1Row` and `RowAnalysis.AnalyzeCdsRow` are modelled.
- The thread pool is not modelled. The shared `NonFatalError` name lists and the VP1 excerpt list become returned values (`ErrorEntry` lists and the parse outcome).
- String formatting of doubles, CSV assembly, temporary files, the Python process, file export and dialogs are I/O. They are not modelled.
- Java's `toLowerCase` and `equalsIgnoreCase` are modelled for ASCII letters only.
- A `charAt`/`substring` exception aborts the whole run. The model returns the fatal outcome at the position where the source throws, with the record as the source leaves it there; what the run does after the exception is not modelled.
- RowAnalysis.AnalyzeCdsRow: the rows of an alignment are required to have equal lengths, as aligned rows do. `ExcelRecord.ExcelData.ParseAlignmentDocument` likewise requires the consensus and the coverage to have one entry per column.
- Annotations.SortByMinimum: the order kept between annotations with equal minimum index (Java's stable sort) is built in but not stated in its contract.
- Coverage.ColumnWindowHigh: `getMaximumIndex() + 1` (754, 783) is Java `int` arithmetic and wraps to a negative bound at `Integer.MAX_VALUE`, which makes the source's window empty. The model adds exactly and scans up to the last column.
- ExcelRecord.Grade: the average coverage is a `real`, so it cannot be NaN. A NaN `double` fails both coverage thresholds, and the source grades it RED-REDO.
- Mixed indexing is modelled as written. The alignment-column windows of `parseAlignmentDocument` and the window and partial-CDS comparisons of the CDS pass use the 1-based annotation bounds directly as 0-based row positions. The VP1 excerpt and the CDS gap count shift them by one.

## Findings

| source | as written | input that shows it | evidently intended | confidence | as-written member | corrected member |
|---|---|---|---|---|---|---|
| src/com/biomatters/ppbAutomation/FinalizeRunOperation.java:1358-1361 | a VP1 alignment whose reference has no VP1 annotation is recorded under `ALIGNMENTS_WITHOUT_REFERENCE_SEQUENCES` | a reference whose only annotation is a `CDS` | record it under `ALIGNMENTS_WITHOUT_A_VP1_ANNOTATION`, the category defined for this case | medium, not executed | AlignmentSetup.MissingVp1ReportedAsMissingReference | AlignmentSetup.PrepareVp1Alignment |
