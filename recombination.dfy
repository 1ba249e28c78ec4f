/** The recombination analysis of one sample row in a genome alignment
    (FinalizeRunOperation.java:1538-1788): the non-gap span of the row, the
    5', 3' and VP1 windows clipped against the reference annotations, the SNP
    count, gap count and distance-to-nearest-SNP profile of each window, the
    recombination note and the partial-CDS note. Window indices are 0-based
    row positions compared directly against the 1-based annotation bounds,
    as the source does. */
module Recombination {
  import opened Common
  import opened Nucleotide
  import opened Text
  import opened Annotations
  import opened SnpDetector

  // ---------------------------------------------------------------------
  // The non-gap span of the row (FinalizeRunOperation.java:1538-1558)

  /** The first position of the row that is not `-`. */
  method LowestIndexOfNonGap(sequence: string) returns (lowest: Option<nat>)
    ensures lowest.Some? ==>
      lowest.value < |sequence| && sequence[lowest.value] != Dash &&
      forall i :: 0 <= i < lowest.value ==> sequence[i] == Dash
    ensures lowest.None? ==> forall i :: 0 <= i < |sequence| ==> sequence[i] == Dash
  {
    lowest := None;
    var i := 0;
    while i < |sequence|
      invariant 0 <= i <= |sequence|
      invariant forall j :: 0 <= j < i ==> sequence[j] == Dash
    {
      if sequence[i] != Dash {
        lowest := Some(i);
        return;
      }
      i := i + 1;
    }
  }

  /** The last position of the row that is not `-`. */
  method HighestIndexOfNonGap(sequence: string) returns (highest: Option<nat>)
    ensures highest.Some? ==>
      highest.value < |sequence| && sequence[highest.value] != Dash &&
      forall i :: highest.value < i < |sequence| ==> sequence[i] == Dash
    ensures highest.None? ==> forall i :: 0 <= i < |sequence| ==> sequence[i] == Dash
  {
    highest := None;
    var i := |sequence| - 1;
    while i >= 0
      invariant -1 <= i < |sequence|
      invariant forall j :: i < j < |sequence| ==> sequence[j] == Dash
    {
      if sequence[i] != Dash {
        highest := Some(i);
        return;
      }
      i := i - 1;
    }
  }

  /** Both scans find a position or neither does, and the first position is
      never after the last one. */
  lemma NonGapSpan(sequence: string, lowest: nat, highest: nat)
    requires lowest < |sequence| && sequence[lowest] != Dash && forall i :: 0 <= i < lowest ==> sequence[i] == Dash
    requires highest < |sequence| && sequence[highest] != Dash && forall i :: highest < i < |sequence| ==> sequence[i] == Dash
    ensures lowest <= highest
    ensures forall i :: 0 <= i < |sequence| && sequence[i] != Dash ==> lowest <= i <= highest
  {
  }

  // ---------------------------------------------------------------------
  // The 5' and 3' windows (FinalizeRunOperation.java:1560-1608)

  /** `stop` lowered to every annotation maximum of `s`, in list order. */
  function ClampBelowMaxima(stop: int, s: seq<Annotation>): int {
    if |s| == 0 then stop else Min(ClampBelowMaxima(stop, s[..|s| - 1]), s[|s| - 1].maximumIndex)
  }

  /** `start` raised to every annotation minimum of `s`, in list order. */
  function ClampAboveMinima(start: int, s: seq<Annotation>): int {
    if |s| == 0 then start else Max(ClampAboveMinima(start, s[..|s| - 1]), s[|s| - 1].minimumIndex)
  }

  /** The last annotation of `s` whose interval contains `x`. */
  function LastContaining(s: seq<Annotation>, x: int): Option<Annotation> {
    if |s| == 0 then None
    else if Contains(s[|s| - 1], x) then Some(s[|s| - 1])
    else LastContaining(s[..|s| - 1], x)
  }

  /** The clamp is the minimum of `stop` and every annotation maximum. */
  lemma {:induction false} ClampBelowMaximaIsMinimum(stop: int, s: seq<Annotation>)
    ensures ClampBelowMaxima(stop, s) <= stop
    ensures forall i :: 0 <= i < |s| ==> ClampBelowMaxima(stop, s) <= s[i].maximumIndex
    ensures ClampBelowMaxima(stop, s) == stop ||
      exists i :: 0 <= i < |s| && ClampBelowMaxima(stop, s) == s[i].maximumIndex
  {
    if |s| > 0 {
      var init := s[..|s| - 1];
      ClampBelowMaximaIsMinimum(stop, init);
      assert forall i :: 0 <= i < |init| ==> init[i] == s[i];
    }
  }

  /** The clamp is the maximum of `start` and every annotation minimum. */
  lemma {:induction false} ClampAboveMinimaIsMaximum(start: int, s: seq<Annotation>)
    ensures ClampAboveMinima(start, s) >= start
    ensures forall i :: 0 <= i < |s| ==> ClampAboveMinima(start, s) >= s[i].minimumIndex
    ensures ClampAboveMinima(start, s) == start ||
      exists i :: 0 <= i < |s| && ClampAboveMinima(start, s) == s[i].minimumIndex
  {
    if |s| > 0 {
      var init := s[..|s| - 1];
      ClampAboveMinimaIsMaximum(start, init);
      assert forall i :: 0 <= i < |init| ==> init[i] == s[i];
    }
  }

  /** The bounding annotation is the last one containing `x`; there is none
      exactly when no annotation contains `x`. */
  lemma {:induction false} LastContainingIsLast(s: seq<Annotation>, x: int)
    ensures LastContaining(s, x).None? <==> forall i :: 0 <= i < |s| ==> !Contains(s[i], x)
    ensures LastContaining(s, x).Some? ==>
      exists i :: 0 <= i < |s| && s[i] == LastContaining(s, x).value && Contains(s[i], x) &&
        forall j :: i < j < |s| ==> !Contains(s[j], x)
  {
    if |s| > 0 {
      var init := s[..|s| - 1];
      LastContainingIsLast(init, x);
      assert forall i :: 0 <= i < |init| ==> init[i] == s[i];
      if !Contains(s[|s| - 1], x) && LastContaining(s, x).Some? {
        var i :| 0 <= i < |init| && init[i] == LastContaining(init, x).value && Contains(init[i], x) &&
          forall j :: i < j < |init| ==> !Contains(init[j], x);
        assert s[i] == LastContaining(s, x).value;
      }
    }
  }

  /** A window `[start, stop]` of a row, inclusive, with the annotation that
      bounds it when the row starts (5') or ends (3') inside an annotation. */
  datatype FlankWindow = FlankWindow(start: int, stop: int, bounding: Option<Annotation>)

  /** The end of the 5' window: the last non-gap position lowered to every
      annotation maximum and, when the first non-gap position lies in no
      annotation, to just before the first annotation (the 5' UTR). */
  function FivePrimeStop(lowest: int, highest: int, sorted: seq<Annotation>): int
    requires |sorted| > 0
  {
    var stop := ClampBelowMaxima(highest, sorted);
    if LastContaining(sorted, lowest).None? then Min(stop, sorted[0].minimumIndex - 1) else stop
  }

  /** The start of the 3' window as written: the first non-gap position
      raised to every annotation minimum and, when the last non-gap position
      lies in no annotation, to the last annotation's minimum. */
  function ThreePrimeStart(lowest: int, highest: int, sorted: seq<Annotation>): int
    requires |sorted| > 0
  {
    var start := ClampAboveMinima(lowest, sorted);
    if LastContaining(sorted, highest).None? then Max(start, sorted[|sorted| - 1].minimumIndex) else start
  }

  /** The 5' window loop (FinalizeRunOperation.java:1560-1583). */
  method FivePrimeWindow(lowest: int, highest: int, sorted: seq<Annotation>) returns (w: FlankWindow)
    requires |sorted| > 0
    ensures w == FlankWindow(lowest, FivePrimeStop(lowest, highest, sorted), LastContaining(sorted, lowest))
  {
    var stop := highest;
    var bounding: Option<Annotation> := None;
    var k := 0;
    while k < |sorted|
      invariant 0 <= k <= |sorted|
      invariant stop == ClampBelowMaxima(highest, sorted[..k])
      invariant bounding == LastContaining(sorted[..k], lowest)
    {
      var a := sorted[k];
      assert sorted[..k + 1][..k] == sorted[..k];
      if lowest >= a.minimumIndex && lowest <= a.maximumIndex {
        bounding := Some(a);
      }
      if stop > a.maximumIndex {
        stop := a.maximumIndex;
      }
      k := k + 1;
    }
    assert sorted[..|sorted|] == sorted;
    if bounding.None? {
      var fivePrimeUtrMaximumIndex := sorted[0].minimumIndex - 1;
      if stop > fivePrimeUtrMaximumIndex {
        stop := fivePrimeUtrMaximumIndex;
      }
    }
    w := FlankWindow(lowest, stop, bounding);
  }

  /** The 3' window loop (FinalizeRunOperation.java:1584-1608). */
  method ThreePrimeWindow(lowest: int, highest: int, sorted: seq<Annotation>) returns (w: FlankWindow)
    requires |sorted| > 0
    ensures w == FlankWindow(ThreePrimeStart(lowest, highest, sorted), highest, LastContaining(sorted, highest))
  {
    var start := lowest;
    var bounding: Option<Annotation> := None;
    var k := 0;
    while k < |sorted|
      invariant 0 <= k <= |sorted|
      invariant start == ClampAboveMinima(lowest, sorted[..k])
      invariant bounding == LastContaining(sorted[..k], highest)
    {
      var a := sorted[k];
      assert sorted[..k + 1][..k] == sorted[..k];
      if highest >= a.minimumIndex && highest <= a.maximumIndex {
        bounding := Some(a);
      }
      if start < a.minimumIndex {
        start := a.minimumIndex;
      }
      k := k + 1;
    }
    assert sorted[..|sorted|] == sorted;
    if bounding.None? {
      var threePrimeUtrMinimumIndex := sorted[|sorted| - 1].minimumIndex;
      if start < threePrimeUtrMinimumIndex {
        start := threePrimeUtrMinimumIndex;
      }
    }
    w := FlankWindow(start, highest, bounding);
  }

  /** The 5' window starts at the first non-gap position and never reaches
      past the last one or past any annotation's end; when the row does not
      start inside an annotation, the window lies before every annotation. */
  lemma FivePrimeWindowBounds(lowest: int, highest: int, sorted: seq<Annotation>)
    requires |sorted| > 0 && SortedByMinimum(sorted)
    ensures FivePrimeStop(lowest, highest, sorted) <= highest
    ensures forall i :: 0 <= i < |sorted| ==> FivePrimeStop(lowest, highest, sorted) <= sorted[i].maximumIndex
    ensures LastContaining(sorted, lowest).None? ==>
      forall i :: 0 <= i < |sorted| ==> FivePrimeStop(lowest, highest, sorted) < sorted[i].minimumIndex
  {
    ClampBelowMaximaIsMinimum(highest, sorted);
  }

  /** The 3' window ends at the last non-gap position and never starts
      before the first one or before any annotation's start. */
  lemma ThreePrimeWindowBounds(lowest: int, highest: int, sorted: seq<Annotation>)
    requires |sorted| > 0
    ensures ThreePrimeStart(lowest, highest, sorted) >= lowest
    ensures forall i :: 0 <= i < |sorted| ==> ThreePrimeStart(lowest, highest, sorted) >= sorted[i].minimumIndex
  {
    ClampAboveMinimaIsMaximum(lowest, sorted);
  }

  /** Because the start is already raised to every annotation minimum, the
      3' UTR clamp (FinalizeRunOperation.java:1602-1607) never changes it. */
  lemma ThreePrimeUtrClampIsNoOp(lowest: int, highest: int, sorted: seq<Annotation>)
    requires |sorted| > 0
    ensures ThreePrimeStart(lowest, highest, sorted) == ClampAboveMinima(lowest, sorted)
  {
    ClampAboveMinimaIsMaximum(lowest, sorted);
  }

  // ---------------------------------------------------------------------
  // The VP1 window (FinalizeRunOperation.java:1610-1632)

  datatype Window = Window(start: int, stop: int)

  /** The non-gap span clipped to the VP1 annotation when exactly one
      annotation is named VP1 and it has one interval; otherwise the whole
      span, and the alignment is recorded under
      `ALIGNMENTS_WITH_AN_UNEXPECTED_NUMBER_OF_VP1_ANNOTATION_INTERVALS`. */
  function Vp1Window(lowest: int, highest: int, sorted: seq<Annotation>): (w: Window)
    ensures lowest <= w.start && w.stop <= highest
    ensures SingleIntervalMatch(sorted, IsVp1Annotation).None? ==> w == Window(lowest, highest)
    ensures forall i :: UniqueIndex(sorted, IsVp1Annotation, i) && sorted[i].numberOfIntervals == 1 ==>
      w.start == Max(lowest, sorted[i].minimumIndex) && w.stop == Min(highest, sorted[i].maximumIndex)
  {
    match SingleIntervalMatch(sorted, IsVp1Annotation)
    case Some(vp1) => Window(Max(lowest, vp1.minimumIndex), Min(highest, vp1.maximumIndex))
    case None => Window(lowest, highest)
  }

  /** Whether the VP1 window records the unexpected-interval error. */
  predicate Vp1WindowUnresolved(sorted: seq<Annotation>) {
    SingleIntervalMatch(sorted, IsVp1Annotation).None?
  }

  /** Every window of a row with a non-gap span is either empty or inside
      the span, so every SNP scan reads only positions of the row. */
  lemma WindowsInsideSpan(reference: string, sequence: string, lowest: nat, highest: nat, sorted: seq<Annotation>)
    requires |sorted| > 0 && SortedByMinimum(sorted)
    requires |reference| == |sequence| && highest < |sequence|
    ensures IndexableRange(reference, sequence, lowest, FivePrimeStop(lowest, highest, sorted))
    ensures IndexableRange(reference, sequence, ThreePrimeStart(lowest, highest, sorted), highest)
    ensures IndexableRange(reference, sequence, Vp1Window(lowest, highest, sorted).start, Vp1Window(lowest, highest, sorted).stop)
    ensures IndexableRange(reference, sequence, lowest, highest)
  {
    FivePrimeWindowBounds(lowest, highest, sorted);
    ThreePrimeWindowBounds(lowest, highest, sorted);
  }

  // ---------------------------------------------------------------------
  // The distance profile (FinalizeRunOperation.java:1684-1697)

  /** `Math.sqrt(dif * dif)` as the whole number `|dif|`, or `Double.MAX_VALUE`
      when there is no SNP to measure to. */
  datatype Distance = Finite(d: nat) | DoubleMax

  /** The distance from `i` to the nearest SNP of `snps`, taken in list order
      with the strict `distance > newDistance` update. */
  function NearestSnpDistance(i: int, snps: seq<int>): Distance {
    if |snps| == 0 then DoubleMax
    else
      var distance := NearestSnpDistance(i, snps[..|snps| - 1]);
      var newDistance := Abs(i - snps[|snps| - 1]);
      if distance.DoubleMax? || distance.d > newDistance then Finite(newDistance) else distance
  }

  /** The number of positions of the inclusive window `[start, stop]`. */
  function WindowLength(start: int, stop: int): nat {
    if stop < start then 0 else stop - start + 1
  }

  /** One distance per window position. */
  function DistanceProfile(start: int, stop: int, snps: seq<int>): seq<Distance> {
    seq(WindowLength(start, stop), k => NearestSnpDistance(start + k, snps))
  }

  /** The nested distance loop (FinalizeRunOperation.java:1685-1697). */
  method CalculateDistances(start: int, stop: int, indicesOfSnps: seq<int>) returns (distances: seq<Distance>)
    ensures distances == DistanceProfile(start, stop, indicesOfSnps)
  {
    distances := [];
    var i := start;
    while i <= stop
      invariant start <= i && (i <= stop + 1 || i == start)
      invariant |distances| == i - start
      invariant forall k :: 0 <= k < |distances| ==> distances[k] == NearestSnpDistance(start + k, indicesOfSnps)
    {
      var distance := DoubleMax;
      var j := 0;
      while j < |indicesOfSnps|
        invariant 0 <= j <= |indicesOfSnps|
        invariant distance == NearestSnpDistance(i, indicesOfSnps[..j])
      {
        assert indicesOfSnps[..j + 1][..j] == indicesOfSnps[..j];
        var newDistance := Abs(i - indicesOfSnps[j]);
        if distance.DoubleMax? || distance.d > newDistance {
          distance := Finite(newDistance);
        }
        j := j + 1;
      }
      assert indicesOfSnps[..|indicesOfSnps|] == indicesOfSnps;
      distances := distances + [distance];
      i := i + 1;
    }
  }

  /** The entry is the sentinel exactly when there are no SNPs; otherwise it
      is the smallest `|i - s|` over the SNP positions `s`. */
  lemma {:induction false} NearestSnpDistanceIsMinimum(i: int, snps: seq<int>)
    ensures NearestSnpDistance(i, snps).DoubleMax? <==> |snps| == 0
    ensures forall j :: 0 <= j < |snps| ==> NearestSnpDistance(i, snps).d <= Abs(i - snps[j])
    ensures |snps| > 0 ==> exists j :: 0 <= j < |snps| && NearestSnpDistance(i, snps).d == Abs(i - snps[j])
  {
    if |snps| > 0 {
      var init := snps[..|snps| - 1];
      NearestSnpDistanceIsMinimum(i, init);
      assert forall j :: 0 <= j < |init| ==> init[j] == snps[j];
      if |init| > 0 && NearestSnpDistance(i, snps) == NearestSnpDistance(i, init) {
        var j :| 0 <= j < |init| && NearestSnpDistance(i, init).d == Abs(i - init[j]);
        assert NearestSnpDistance(i, snps).d == Abs(i - snps[j]);
      }
    }
  }

  /** The profile has one entry per window position; each entry is the
      distance to the nearest SNP, so it is 0 at every SNP inside the window;
      with no SNPs every entry is the sentinel. */
  lemma DistanceProfileProperties(start: int, stop: int, snps: seq<int>)
    ensures |DistanceProfile(start, stop, snps)| == WindowLength(start, stop)
    ensures forall k, j :: 0 <= k < WindowLength(start, stop) && 0 <= j < |snps| ==>
      DistanceProfile(start, stop, snps)[k].Finite? &&
      DistanceProfile(start, stop, snps)[k].d <= Abs(start + k - snps[j])
    ensures forall k :: 0 <= k < WindowLength(start, stop) && start + k in snps ==>
      DistanceProfile(start, stop, snps)[k] == Finite(0)
    ensures |snps| == 0 ==> forall k :: 0 <= k < WindowLength(start, stop) ==>
      DistanceProfile(start, stop, snps)[k] == DoubleMax
  {
    var profile := DistanceProfile(start, stop, snps);
    forall k | 0 <= k < |profile|
      ensures profile[k].DoubleMax? <==> |snps| == 0
      ensures forall j :: 0 <= j < |snps| ==> profile[k].d <= Abs(start + k - snps[j])
    {
      NearestSnpDistanceIsMinimum(start + k, snps);
    }
    forall k | 0 <= k < |profile| && start + k in snps
      ensures profile[k] == Finite(0)
    {
      var j :| 0 <= j < |snps| && snps[j] == start + k;
      NearestSnpDistanceIsMinimum(start + k, snps);
    }
  }

  // ---------------------------------------------------------------------
  // One window's SNP calculation (FinalizeRunOperation.java:1651-1698)

  /** What the source's `SnpsCalculationData` holds after the loop. */
  datatype SnpsCalculation = SnpsCalculation(
    start: int,
    stop: int,
    numberOfSnpsEncountered: nat,
    numberOfGapsEncountered: nat,
    distances: seq<Distance>)

  /** The SNP positions a window measures distances to: the window's own,
      or, for the VP1 window with none, those of the whole non-gap span. */
  function MeasuredSnps(reference: string, sequence: string, w: Window, fallback: Option<Window>): seq<int>
    requires IndexableRange(reference, sequence, w.start, w.stop)
    requires fallback.Some? ==> IndexableRange(reference, sequence, fallback.value.start, fallback.value.stop)
  {
    var own := SnpIndices(reference, sequence, w.start, w.stop);
    if |own| == 0 && fallback.Some? then SnpIndices(reference, sequence, fallback.value.start, fallback.value.stop)
    else own
  }

  /** The window's record: its bounds, the number of SNPs measured, the gaps
      of the window itself (the fallback scan does not overwrite them) and the
      distance profile over the window. */
  function WindowCalculation(reference: string, sequence: string, w: Window, fallback: Option<Window>): SnpsCalculation
    requires IndexableRange(reference, sequence, w.start, w.stop)
    requires fallback.Some? ==> IndexableRange(reference, sequence, fallback.value.start, fallback.value.stop)
  {
    var snps := MeasuredSnps(reference, sequence, w, fallback);
    SnpsCalculation(w.start, w.stop, |snps|, GapCount(sequence, w.start, w.stop), DistanceProfile(w.start, w.stop, snps))
  }

  /** One pass of the window loop; `fallback` is the non-gap span for the
      VP1 window and `None` for the 5' and 3' windows. */
  method CalculateWindow(reference: string, sequence: string, w: Window, fallback: Option<Window>)
    returns (calculation: SnpsCalculation)
    requires IndexableRange(reference, sequence, w.start, w.stop)
    requires fallback.Some? ==> IndexableRange(reference, sequence, fallback.value.start, fallback.value.stop)
    ensures calculation == WindowCalculation(reference, sequence, w, fallback)
  {
    var indicesOfSnps, numberOfGapsEncountered := GetIndicesOfSnps(reference, sequence, w.start, w.stop);
    if |indicesOfSnps| == 0 && fallback.Some? {
      var ignoredGaps;
      indicesOfSnps, ignoredGaps := GetIndicesOfSnps(reference, sequence, fallback.value.start, fallback.value.stop);
    }
    var distances := CalculateDistances(w.start, w.stop, indicesOfSnps);
    calculation := SnpsCalculation(w.start, w.stop, |indicesOfSnps|, numberOfGapsEncountered, distances);
  }

  /** A window with SNPs of its own is measured against exactly those; a VP1
      window without any is measured against every SNP of the span, while
      its gap count stays that of the window. */
  lemma Vp1FallbackOnlyWhenNoSnps(reference: string, sequence: string, w: Window, span: Window)
    requires IndexableRange(reference, sequence, w.start, w.stop)
    requires IndexableRange(reference, sequence, span.start, span.stop)
    ensures |SnpIndices(reference, sequence, w.start, w.stop)| > 0 ==>
      WindowCalculation(reference, sequence, w, Some(span)) == WindowCalculation(reference, sequence, w, None)
    ensures |SnpIndices(reference, sequence, w.start, w.stop)| == 0 ==>
      WindowCalculation(reference, sequence, w, Some(span)).numberOfSnpsEncountered ==
        |SnpIndices(reference, sequence, span.start, span.stop)| &&
      WindowCalculation(reference, sequence, w, Some(span)).numberOfGapsEncountered ==
        GapCount(sequence, w.start, w.stop)
  {
  }

  // ---------------------------------------------------------------------
  // The recombination note (FinalizeRunOperation.java:1699-1757)

  const GapsNote: string := "recombination status indeterminate due to gaps"
  const DoubleRecombinationNote: string := "double recombination"
  const FivePrimeRecombinationNote: string := "5' recombination"
  const ThreePrimeRecombinationNote: string := "3' recombination"

  /** `FIVE_PRIME_MINIMUM_SNP_FREQUENCY` and `THREE_PRIME_MINIMUM_SNP_FREQUENCY`
      (0.07 and 0.13), as percentages. */
  const FivePrimeMinimumSnpPercent: nat := 7
  const ThreePrimeMinimumSnpPercent: nat := 13

  /** `numberOfSnps / (double) length >= percent / 100`, as a rational
      comparison; a non-positive length never passes (the quotient is then
      NaN or not positive). */
  predicate FrequencyGate(numberOfSnps: nat, length: int, percent: nat) {
    length > 0 && 100 * numberOfSnps >= percent * length
  }

  /** The gate is the comparison of the SNP frequency with the percentage. */
  lemma FrequencyGateIsFrequency(numberOfSnps: nat, length: int, percent: nat)
    requires length > 0
    ensures FrequencyGate(numberOfSnps, length, percent) <==>
      (numberOfSnps as real) / (length as real) >= (percent as real) / 100.0
  {
    var q := (numberOfSnps as real) / (length as real);
    assert q * (length as real) == numberOfSnps as real;
    if 100 * numberOfSnps >= percent * length {
      assert (100 * numberOfSnps) as real >= (percent * length) as real;
      assert 100.0 * q * (length as real) >= (percent as real) * (length as real);
    } else {
      assert (100 * numberOfSnps) as real < (percent * length) as real;
      assert 100.0 * q * (length as real) < (percent as real) * (length as real);
    }
  }

  function Length(c: SnpsCalculation): int { c.stop - c.start + 1 }

  /** A flank's recombination flag: its SNP frequency passes the gate and the
      one-tailed Welch test against the VP1 window (an input here) passes. */
  predicate FlankFlag(flank: SnpsCalculation, percent: nat, tTestPasses: bool) {
    FrequencyGate(flank.numberOfSnpsEncountered, Length(flank), percent) && tTestPasses
  }

  predicate AnyGaps(fivePrime: SnpsCalculation, threePrime: SnpsCalculation, vp1: SnpsCalculation) {
    vp1.numberOfGapsEncountered > 0 || threePrime.numberOfGapsEncountered > 0 || fivePrime.numberOfGapsEncountered > 0
  }

  /** The note written into the record; `None` is the source's `null`. */
  function RecombinationNote(fivePrime: SnpsCalculation, threePrime: SnpsCalculation, vp1: SnpsCalculation,
                             fivePrimeTTestPasses: bool, threePrimeTTestPasses: bool): (r: Option<string>)
    ensures r == Some(GapsNote) <==> AnyGaps(fivePrime, threePrime, vp1)
    ensures (r == Some(DoubleRecombinationNote) || r == Some(FivePrimeRecombinationNote)) <==>
      !AnyGaps(fivePrime, threePrime, vp1) && vp1.numberOfSnpsEncountered > 0 &&
      FlankFlag(fivePrime, FivePrimeMinimumSnpPercent, fivePrimeTTestPasses)
    ensures (r == Some(DoubleRecombinationNote) || r == Some(ThreePrimeRecombinationNote)) <==>
      !AnyGaps(fivePrime, threePrime, vp1) && vp1.numberOfSnpsEncountered > 0 &&
      FlankFlag(threePrime, ThreePrimeMinimumSnpPercent, threePrimeTTestPasses)
    ensures r.None? || r == Some(GapsNote) || r == Some(DoubleRecombinationNote) ||
      r == Some(FivePrimeRecombinationNote) || r == Some(ThreePrimeRecombinationNote)
  {
    if AnyGaps(fivePrime, threePrime, vp1) then Some(GapsNote)
    else if vp1.numberOfSnpsEncountered > 0 then
      var fivePrimeRecombinationFlag := FlankFlag(fivePrime, FivePrimeMinimumSnpPercent, fivePrimeTTestPasses);
      var threePrimeRecombinationFlag := FlankFlag(threePrime, ThreePrimeMinimumSnpPercent, threePrimeTTestPasses);
      if fivePrimeRecombinationFlag && threePrimeRecombinationFlag then Some(DoubleRecombinationNote)
      else if fivePrimeRecombinationFlag then Some(FivePrimeRecombinationNote)
      else if threePrimeRecombinationFlag then Some(ThreePrimeRecombinationNote)
      else None
    else None
  }

  /** Without gaps, no VP1 SNP means no note at all. */
  lemma NoVp1SnpsNoNote(fivePrime: SnpsCalculation, threePrime: SnpsCalculation, vp1: SnpsCalculation,
                        fivePrimeTTestPasses: bool, threePrimeTTestPasses: bool)
    requires !AnyGaps(fivePrime, threePrime, vp1) && vp1.numberOfSnpsEncountered == 0
    ensures RecombinationNote(fivePrime, threePrime, vp1, fivePrimeTTestPasses, threePrimeTTestPasses).None?
  {
  }

  /** A flank with fewer SNPs than its frequency threshold can never be
      reported as recombinant, whatever the t-test says. */
  lemma SparseFlankNeverRecombinant(fivePrime: SnpsCalculation, threePrime: SnpsCalculation, vp1: SnpsCalculation,
                                    fivePrimeTTestPasses: bool, threePrimeTTestPasses: bool)
    requires 100 * fivePrime.numberOfSnpsEncountered < FivePrimeMinimumSnpPercent * Length(fivePrime)
    requires 100 * threePrime.numberOfSnpsEncountered < ThreePrimeMinimumSnpPercent * Length(threePrime)
    ensures RecombinationNote(fivePrime, threePrime, vp1, fivePrimeTTestPasses, threePrimeTTestPasses).None? ||
            RecombinationNote(fivePrime, threePrime, vp1, fivePrimeTTestPasses, threePrimeTTestPasses) == Some(GapsNote)
  {
  }

  // ---------------------------------------------------------------------
  // The partial-CDS note (FinalizeRunOperation.java:1759-1788)

  const MissingMaturePeptideAnnotation: string := "MISSING_MATURE_PEPTIDE_ANNOTATION"

  function BoundingName(bounding: Option<Annotation>): string {
    match bounding
    case Some(a) => a.name
    case None => MissingMaturePeptideAnnotation
  }

  lemma PartialCdsTexts(lowerName: string, upperName: string)
    ensures "Partial CDS (" + Join(":", [lowerName + "-"]) + ")" == "Partial CDS (" + lowerName + "-)"
    ensures "Partial CDS (" + Join(":", ["-" + upperName]) + ")" == "Partial CDS (-" + upperName + ")"
    ensures "Partial CDS (" + Join(":", [lowerName + "-"] + ["-" + upperName]) + ")"
         == "Partial CDS (" + lowerName + "-:-" + upperName + ")"
  {
    assert "Partial CDS (" + (lowerName + "-") + ")" == "Partial CDS (" + lowerName + ("-" + ")");
    assert "Partial CDS (" + ("-" + upperName) + ")" == ("Partial CDS (" + "-") + upperName + ")";
    var both := [lowerName + "-"] + ["-" + upperName];
    assert both[1..] == ["-" + upperName];
    assert Join(":", both) == (lowerName + "-") + ":" + ("-" + upperName);
    assert "Partial CDS (" + ((lowerName + "-") + ":" + ("-" + upperName)) + ")"
        == "Partial CDS (" + lowerName + ("-" + ":" + "-") + upperName + ")";
  }

  /** The note for a row that starts after or ends before the CDS; `None`
      leaves the record's note as it was. */
  function PartialCdsNote(lowest: int, highest: int, cdsMinimumIndex: int, cdsMaximumIndex: int,
                          lowerBounding: Option<Annotation>, upperBounding: Option<Annotation>): (r: Option<string>)
    ensures r.None? <==> lowest <= cdsMinimumIndex && cdsMaximumIndex <= highest
    ensures lowest > cdsMinimumIndex && cdsMaximumIndex <= highest ==>
      r == Some("Partial CDS (" + BoundingName(lowerBounding) + "-)")
    ensures lowest <= cdsMinimumIndex && cdsMaximumIndex > highest ==>
      r == Some("Partial CDS (-" + BoundingName(upperBounding) + ")")
    ensures lowest > cdsMinimumIndex && cdsMaximumIndex > highest ==>
      r == Some("Partial CDS (" + BoundingName(lowerBounding) + "-:-" + BoundingName(upperBounding) + ")")
  {
    var lowerBoundPartialCdsFlag := lowest > cdsMinimumIndex;
    var upperBoundPartialCdsFlag := highest < cdsMaximumIndex;
    if !lowerBoundPartialCdsFlag && !upperBoundPartialCdsFlag then None
    else
      var portions := (if lowerBoundPartialCdsFlag then [BoundingName(lowerBounding) + "-"] else [])
                    + (if upperBoundPartialCdsFlag then ["-" + BoundingName(upperBounding)] else []);
      PartialCdsTexts(BoundingName(lowerBounding), BoundingName(upperBounding));
      Some("Partial CDS (" + Join(":", portions) + ")")
  }

  // ---------------------------------------------------------------------
  // The nOPV2 reference (FinalizeRunOperation.java:1651-1661)

  /** `simplifiedType.equalsIgnoreCase("nOPV2")`, for ASCII letters. */
  predicate IsNopv2Type(simplifiedType: string) {
    var target := "nopv2";
    |simplifiedType| == |target| && forall i :: 0 <= i < |target| ==> LowerChar(simplifiedType[i]) == target[i]
  }

  lemma Nopv2TypeExamples()
    ensures IsNopv2Type("nOPV2") && IsNopv2Type("NOPV2") && !IsNopv2Type("PV2")
  {
  }
}
