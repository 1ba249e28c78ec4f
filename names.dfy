/** The names the run gives to samples, genomes, VP1 excerpts and database
    rows (FinalizeRunOperation.java:680, 914-934, 1877-1883). */
module Names {
  import opened Text

  /** `String.format("%s_%s", csid, cuid)`. */
  function FormatSampleName(csid: string, cuid: string): (name: string)
    ensures |name| == |csid| + 1 + |cuid|
    ensures name[..|csid|] == csid && name[|csid|] == '_' && name[|csid| + 1..] == cuid
  {
    csid + "_" + cuid
  }

  /** `String.format("%s - %s", sampleName, type)`. */
  function FormatGenomeName(sampleName: string, genomeType: string): (name: string)
    ensures |name| == |sampleName| + 3 + |genomeType|
    ensures name[..|sampleName|] == sampleName && name[|sampleName|..|sampleName| + 3] == " - " &&
            name[|sampleName| + 3..] == genomeType
  {
    sampleName + " - " + genomeType
  }

  /** `"INPUT_DOCUMENT: " + genomeName`, the name of a genome's VP1 excerpt
      (FinalizeRunOperation.java:671-680). */
  function InputDocumentName(genomeName: string): string {
    "INPUT_DOCUMENT: " + genomeName
  }

  /** `String.join("_", shortenedRunName, csid, cuid, type)`
      (FinalizeRunOperation.java:1877-1883). */
  function DbName(shortenedRunName: string, csid: string, cuid: string, genomeType: string): string {
    Join("_", [shortenedRunName, csid, cuid, genomeType])
  }

  /** The database name is the run name, the sample name and the type,
      joined by underscores. */
  lemma DbNameIsRunSampleType(shortenedRunName: string, csid: string, cuid: string, genomeType: string)
    ensures DbName(shortenedRunName, csid, cuid, genomeType) ==
      shortenedRunName + "_" + FormatSampleName(csid, cuid) + "_" + genomeType
  {
    var parts := [shortenedRunName, csid, cuid, genomeType];
    assert parts[1..] == [csid, cuid, genomeType];
    assert parts[1..][1..] == [cuid, genomeType];
    assert parts[1..][1..][1..] == [genomeType];
    assert Join("_", parts[1..][1..][1..]) == genomeType;
    assert Join("_", parts[1..][1..]) == cuid + "_" + genomeType;
    assert Join("_", parts[1..]) == csid + "_" + (cuid + "_" + genomeType);
  }

  /** The position of the first `c` in `s`, or `|s|` when there is none. */
  function FirstIndexOf(s: string, c: char): nat {
    if |s| == 0 then 0 else if s[0] == c then 0 else 1 + FirstIndexOf(s[1..], c)
  }

  lemma {:induction false} FirstIndexAfterPrefix(a: string, rest: string, c: char)
    requires c !in a && |rest| > 0 && rest[0] == c
    ensures FirstIndexOf(a + rest, c) == |a|
  {
    if |a| == 0 {
      assert a + rest == rest;
    } else {
      assert (a + rest)[0] == a[0];
      assert (a + rest)[1..] == a[1..] + rest;
      FirstIndexAfterPrefix(a[1..], rest, c);
    }
  }

  lemma {:induction false} SplitAtSeparator(a1: string, b1: string, a2: string, b2: string, sep: string)
    requires |sep| > 0 && sep[0] !in a1 && sep[0] !in a2
    requires a1 + sep + b1 == a2 + sep + b2
    ensures a1 == a2 && b1 == b2
  {
    FirstIndexAfterPrefix(a1, sep + b1, sep[0]);
    FirstIndexAfterPrefix(a2, sep + b2, sep[0]);
    assert a1 + (sep + b1) == a1 + sep + b1 && a2 + (sep + b2) == a2 + sep + b2;
    assert a1 == (a1 + sep + b1)[..|a1|];
    assert a2 == (a2 + sep + b2)[..|a2|];
    assert b1 == (a1 + sep + b1)[|a1| + |sep|..];
    assert b2 == (a2 + sep + b2)[|a2| + |sep|..];
  }

  /** A CSID without underscores (the sample pattern takes ten digits) makes
      the sample name determine both of its parts. */
  lemma SampleNameIsInjective(csid1: string, cuid1: string, csid2: string, cuid2: string)
    requires '_' !in csid1 && '_' !in csid2
    ensures FormatSampleName(csid1, cuid1) == FormatSampleName(csid2, cuid2) <==> csid1 == csid2 && cuid1 == cuid2
  {
    if FormatSampleName(csid1, cuid1) == FormatSampleName(csid2, cuid2) {
      SplitAtSeparator(csid1, cuid1, csid2, cuid2, "_");
    }
  }

  /** A sample name without spaces (as the sample pattern produces) makes the
      genome name determine the sample and the type. */
  lemma GenomeNameIsInjective(sample1: string, type1: string, sample2: string, type2: string)
    requires ' ' !in sample1 && ' ' !in sample2
    ensures FormatGenomeName(sample1, type1) == FormatGenomeName(sample2, type2) <==> sample1 == sample2 && type1 == type2
  {
    if FormatGenomeName(sample1, type1) == FormatGenomeName(sample2, type2) {
      SplitAtSeparator(sample1, type1, sample2, type2, " - ");
    }
  }

  lemma GenomeNameExample()
    ensures FormatGenomeName(FormatSampleName("2024000123", "A1"), "PV2") == "2024000123_A1 - PV2"
  {
  }
}
