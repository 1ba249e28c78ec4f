/** Sequence annotations as the analysis sees them: a name, a type, how many
    intervals the annotation has, and the 1-based inclusive bounds that
    `getInterval()` reports. */
module Annotations {
  import opened Common

  datatype Annotation = Annotation(
    name: string,
    annotationType: string,
    numberOfIntervals: nat,
    minimumIndex: int,
    maximumIndex: int)

  /** The annotation type of mature-peptide regions. */
  const MaturePeptideType: string := "mat_peptide"

  /** `name.matches("[Vv][Pp]1")` (equivalently `"^[Vv][Pp]1$"`). */
  predicate IsVp1Name(name: string) {
    |name| == 3 && (name[0] == 'V' || name[0] == 'v') && (name[1] == 'P' || name[1] == 'p') && name[2] == '1'
  }

  /** `name.matches("[Cc][Dd][Ss]")` (equivalently `"^[Cc][Dd][Ss]$"`). */
  predicate IsCdsName(name: string) {
    |name| == 3 && (name[0] == 'C' || name[0] == 'c') && (name[1] == 'D' || name[1] == 'd') && (name[2] == 'S' || name[2] == 's')
  }

  predicate IsVp1Annotation(a: Annotation) { IsVp1Name(a.name) }

  predicate IsCdsAnnotation(a: Annotation) { IsCdsName(a.name) }

  predicate IsMaturePeptide(a: Annotation) { a.annotationType == MaturePeptideType }

  /** The annotation selected by `p` when exactly one annotation satisfies
      `p` and that annotation has a single interval. */
  function SingleIntervalMatch(annotations: seq<Annotation>, p: Annotation -> bool): (r: Option<Annotation>)
    ensures r.Some? <==> exists i :: UniqueIndex(annotations, p, i) && annotations[i].numberOfIntervals == 1
    ensures forall i :: UniqueIndex(annotations, p, i) && r.Some? ==> r.value == annotations[i]
    ensures r.Some? ==> |Filter(annotations, p)| == 1
  {
    FilterSingle(annotations, p);
    var matching := Filter(annotations, p);
    if |matching| == 1 && matching[0].numberOfIntervals == 1 then Some(matching[0]) else None
  }

  /** No annotation satisfies `p` exactly when the filtered list is empty. */
  lemma NoMatch(annotations: seq<Annotation>, p: Annotation -> bool)
    ensures |Filter(annotations, p)| < 1 <==> forall i :: 0 <= i < |annotations| ==> !p(annotations[i])
  {
    if forall i :: 0 <= i < |annotations| ==> !p(annotations[i]) {
      FilterNone(annotations, p);
    } else {
      var i :| 0 <= i < |annotations| && p(annotations[i]);
      assert annotations[i] in Filter(annotations, p);
    }
  }

  /** The annotation's interval contains the index `x`. */
  predicate Contains(a: Annotation, x: int) {
    a.minimumIndex <= x <= a.maximumIndex
  }

  predicate SortedByMinimum(s: seq<Annotation>) {
    forall i, j :: 0 <= i < j < |s| ==> s[i].minimumIndex <= s[j].minimumIndex
  }

  /** Inserts `a` after every element whose minimum index is not greater. */
  function InsertByMinimum(a: Annotation, s: seq<Annotation>): (r: seq<Annotation>)
    ensures |r| == |s| + 1
    ensures multiset(r) == multiset(s) + multiset{a}
  {
    if |s| == 0 then [a]
    else if a.minimumIndex < s[0].minimumIndex then [a] + s
    else
      assert s == [s[0]] + s[1..];
      [s[0]] + InsertByMinimum(a, s[1..])
  }

  lemma {:induction false} InsertByMinimumSorted(a: Annotation, s: seq<Annotation>)
    requires SortedByMinimum(s)
    ensures SortedByMinimum(InsertByMinimum(a, s))
    ensures forall x :: x in InsertByMinimum(a, s) ==> x == a || x in s
  {
    if |s| > 0 && a.minimumIndex >= s[0].minimumIndex {
      var rest := InsertByMinimum(a, s[1..]);
      InsertByMinimumSorted(a, s[1..]);
      assert forall x :: x in s[1..] ==> s[0].minimumIndex <= x.minimumIndex;
      assert forall k :: 0 <= k < |rest| ==> s[0].minimumIndex <= rest[k].minimumIndex by {
        forall k | 0 <= k < |rest|
          ensures s[0].minimumIndex <= rest[k].minimumIndex
        {
          assert rest[k] in rest;
        }
      }
    }
  }

  /** The list sorted by minimum index, keeping the input order between equal
      keys as Java's stable sort does (FinalizeRunOperation.java:1489-1493). */
  function SortByMinimum(s: seq<Annotation>): (r: seq<Annotation>)
    ensures SortedByMinimum(r)
    ensures multiset(r) == multiset(s)
    ensures |r| == |s|
  {
    if |s| == 0 then []
    else
      assert s == s[..|s| - 1] + [s[|s| - 1]];
      var sorted := SortByMinimum(s[..|s| - 1]);
      InsertByMinimumSorted(s[|s| - 1], sorted);
      InsertByMinimum(s[|s| - 1], sorted)
  }
}
