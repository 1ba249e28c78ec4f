/** Genotype assignment (FinalizeRunOperation.java:1847-1936): after every
    input genome's VP1 excerpt has been aligned with the VP1 reference
    genomes, each input row is matched with the reference row it differs
    from least, and the result is stored per sample and type for the
    database export. */
module Genotype {
  import opened Common
  import opened Nucleotide
  import opened Names

  /** The parts of an input row's name, `INPUT_DOCUMENT: <csid>_<cuid> - <type>`,
      with white space already removed from the type. */
  datatype InputName = InputName(csid: string, cuid: string, genomeType: string)

  /** A row of the VP1 alignment; `input` is `None` for the reference rows,
      whose names do not match the input-row pattern. */
  datatype AlignedRow = AlignedRow(name: string, sequence: string, input: Option<InputName>)

  // ---------------------------------------------------------------------
  // Nucleotide differences (FinalizeRunOperation.java:1897-1924)

  /** The positions below `k` where the rows differ after the uracil rule. */
  function DifferencesBelow(a: string, b: string, k: nat): nat
    requires k <= |a| && k <= |b|
  {
    if k == 0 then 0
    else DifferencesBelow(a, b, k - 1) + (if FoldU(a[k - 1]) != FoldU(b[k - 1]) then 1 else 0)
  }

  /** The differences over the length both rows have. */
  function Differences(a: string, b: string): nat {
    DifferencesBelow(a, b, Min(|a|, |b|))
  }

  lemma {:induction false} DifferencesBelowBounded(a: string, b: string, k: nat)
    requires k <= |a| && k <= |b|
    ensures DifferencesBelow(a, b, k) <= k
    ensures DifferencesBelow(a, b, k) == 0 <==> forall i :: 0 <= i < k ==> FoldU(a[i]) == FoldU(b[i])
  {
    if k > 0 {
      DifferencesBelowBounded(a, b, k - 1);
    }
  }

  lemma {:induction false} DifferencesBelowSymmetric(a: string, b: string, k: nat)
    requires k <= |a| && k <= |b|
    ensures DifferencesBelow(a, b, k) == DifferencesBelow(b, a, k)
  {
    if k > 0 {
      DifferencesBelowSymmetric(a, b, k - 1);
    }
  }

  /** The difference count is at most the shorter length, is symmetric, and
      is zero exactly when the rows agree over that length. */
  lemma DifferencesProperties(a: string, b: string)
    ensures Differences(a, b) <= Min(|a|, |b|)
    ensures Differences(a, b) == Differences(b, a)
    ensures Differences(a, b) == 0 <==> forall i :: 0 <= i < Min(|a|, |b|) ==> FoldU(a[i]) == FoldU(b[i])
  {
    DifferencesBelowBounded(a, b, Min(|a|, |b|));
    DifferencesBelowSymmetric(a, b, Min(|a|, |b|));
  }

  /** The inner loop: characters compared up to the shorter length. */
  method CountDifferences(sequenceI: string, sequenceJ: string) returns (differencesCount: nat)
    ensures differencesCount == Differences(sequenceI, sequenceJ)
  {
    var minimumLength := Min(|sequenceI|, |sequenceJ|);
    differencesCount := 0;
    var sequenceIndex := 0;
    while sequenceIndex < minimumLength
      invariant 0 <= sequenceIndex <= minimumLength
      invariant differencesCount == DifferencesBelow(sequenceI, sequenceJ, sequenceIndex)
    {
      var characterI := FoldU(sequenceI[sequenceIndex]);
      var characterJ := FoldU(sequenceJ[sequenceIndex]);
      if characterI != characterJ {
        differencesCount := differencesCount + 1;
      }
      sequenceIndex := sequenceIndex + 1;
    }
  }

  // ---------------------------------------------------------------------
  // The closest reference (FinalizeRunOperation.java:1885-1931)

  /** A `double` percent identity; `NotANumber` is the 0/0 of two empty rows. */
  datatype PercentIdentity = Identity(value: real) | NotANumber

  /** `1 - differencesCount / (double) maximumLength`, in exact arithmetic. */
  function PercentIdentityOf(differencesCount: nat, maximumLength: nat): PercentIdentity {
    if maximumLength == 0 then NotANumber
    else Identity(1.0 - differencesCount as real / maximumLength as real)
  }

  /** Between two rows the identity is a fraction in [0, 1], and 1 exactly
      when they agree over the shorter length. */
  lemma PercentIdentityOfRows(a: string, b: string)
    ensures |a| == 0 && |b| == 0 ==> PercentIdentityOf(Differences(a, b), Max(|a|, |b|)) == NotANumber
    ensures Max(|a|, |b|) > 0 ==>
      var p := PercentIdentityOf(Differences(a, b), Max(|a|, |b|));
      p.Identity? && 0.0 <= p.value <= 1.0 && (p.value == 1.0 <==> Differences(a, b) == 0)
  {
    DifferencesProperties(a, b);
    var d, m := Differences(a, b), Max(|a|, |b|);
    if m > 0 {
      assert d as real <= m as real;
      assert d as real / m as real <= 1.0 by {
        assert d as real / m as real * m as real == d as real;
      }
      if d > 0 {
        assert d as real / m as real > 0.0;
      }
    }
  }

  /** The best reference found so far: its name (`null` at the start), its
      identity and its difference count. */
  datatype Closest = Closest(name: Option<string>, percentIdentity: PercentIdentity, differencesCount: int)

  /** `nameOfClosestVp1ReferenceSequence = null`, `maximumPercentIdentity = -1`,
      `minimumDifferencesCount = Integer.MAX_VALUE`. */
  const NoClosest: Closest := Closest(None, Identity(-1.0), IntMax)

  /** One pass of the inner loop: input rows are skipped, and a reference row
      replaces the best so far only with strictly fewer differences. */
  function Consider(closest: Closest, sequenceI: string, row: AlignedRow): Closest {
    if row.input.Some? then closest
    else
      var differencesCount := Differences(sequenceI, row.sequence);
      if differencesCount < closest.differencesCount then
        Closest(Some(row.name), PercentIdentityOf(differencesCount, Max(|sequenceI|, |row.sequence|)), differencesCount)
      else closest
  }

  /** The best reference among `rows[..k]`. */
  function ClosestAmong(sequenceI: string, rows: seq<AlignedRow>, k: nat): Closest
    requires k <= |rows|
  {
    if k == 0 then NoClosest else Consider(ClosestAmong(sequenceI, rows, k - 1), sequenceI, rows[k - 1])
  }

  predicate IsReferenceRow(row: AlignedRow) { row.input.None? }

  /** The scan chooses the earliest reference row with the fewest
      differences, never an input row; with no reference row below the
      `Integer.MAX_VALUE` start it keeps the initial values. */
  lemma {:induction false} ClosestAmongIsMinimum(sequenceI: string, rows: seq<AlignedRow>, k: nat)
    requires k <= |rows|
    ensures forall j :: 0 <= j < k && IsReferenceRow(rows[j]) ==>
      ClosestAmong(sequenceI, rows, k).differencesCount <= Differences(sequenceI, rows[j].sequence)
    ensures ClosestAmong(sequenceI, rows, k).name.None? ==> ClosestAmong(sequenceI, rows, k) == NoClosest
    ensures ClosestAmong(sequenceI, rows, k).name.None? <==>
      forall j :: 0 <= j < k && IsReferenceRow(rows[j]) ==> Differences(sequenceI, rows[j].sequence) >= IntMax
    ensures ClosestAmong(sequenceI, rows, k).name.Some? ==>
      exists j :: 0 <= j < k && IsReferenceRow(rows[j]) &&
        ClosestAmong(sequenceI, rows, k).name == Some(rows[j].name) &&
        ClosestAmong(sequenceI, rows, k).differencesCount == Differences(sequenceI, rows[j].sequence) &&
        ClosestAmong(sequenceI, rows, k).percentIdentity ==
          PercentIdentityOf(Differences(sequenceI, rows[j].sequence), Max(|sequenceI|, |rows[j].sequence|)) &&
        forall i :: 0 <= i < j && IsReferenceRow(rows[i]) ==>
          Differences(sequenceI, rows[i].sequence) > Differences(sequenceI, rows[j].sequence)
  {
    if k > 0 {
      ClosestAmongIsMinimum(sequenceI, rows, k - 1);
      var prev := ClosestAmong(sequenceI, rows, k - 1);
      var row := rows[k - 1];
      if IsReferenceRow(row) && Differences(sequenceI, row.sequence) < prev.differencesCount {
        assert ClosestAmong(sequenceI, rows, k).name == Some(row.name);
        forall i | 0 <= i < k - 1 && IsReferenceRow(rows[i])
          ensures Differences(sequenceI, rows[i].sequence) > Differences(sequenceI, row.sequence)
        {
        }
      }
    }
  }

  /** The inner loop of the genotype assignment. */
  method FindClosestReference(sequenceI: string, rows: seq<AlignedRow>) returns (closest: Closest)
    ensures closest == ClosestAmong(sequenceI, rows, |rows|)
  {
    closest := NoClosest;
    var j := 0;
    while j < |rows|
      invariant 0 <= j <= |rows|
      invariant closest == ClosestAmong(sequenceI, rows, j)
    {
      var row := rows[j];
      if row.input.None? {
        var differencesCount := CountDifferences(sequenceI, row.sequence);
        if differencesCount < closest.differencesCount {
          closest := Closest(Some(row.name), PercentIdentityOf(differencesCount, Max(|sequenceI|, |row.sequence|)),
                             differencesCount);
        }
      }
      j := j + 1;
    }
  }

  /** The example of a two-reference alignment: `AAAT` differs from `AAAA` in
      one base and from `TTTT` in three, so it is typed as the first with an
      identity of 3/4. */
  lemma ClosestExample()
    ensures ClosestAmong("AAAT", [AlignedRow("R1", "AAAA", None), AlignedRow("R2", "TTTT", None),
                                  AlignedRow("IN", "AAAT", Some(InputName("1", "2", "PV1")))], 3)
         == Closest(Some("R1"), Identity(0.75), 1)
  {
    assert DifferencesBelow("AAAT", "AAAA", 4) == 1 by {
      assert DifferencesBelow("AAAT", "AAAA", 3) == 0;
    }
    assert DifferencesBelow("AAAT", "TTTT", 4) == 3 by {
      assert DifferencesBelow("AAAT", "TTTT", 1) == 1;
      assert DifferencesBelow("AAAT", "TTTT", 2) == 2;
      assert DifferencesBelow("AAAT", "TTTT", 3) == 3;
    }
  }

  // ---------------------------------------------------------------------
  // The database records (FinalizeRunOperation.java:1847-1936)

  /** `DatabaseData` (FinalizeRunOperation.java:802-811). */
  datatype DatabaseData = DatabaseData(
    dbName: string,
    genotypeSeq: Option<string>,
    percentIdentity: PercentIdentity,
    nucleotideDifferencesOfGenotypeCount: int)

  /** The record an input row gets, compared with every row of the alignment. */
  function GenotypeRecord(shortenedRunName: string, input: InputName, sequenceI: string, rows: seq<AlignedRow>): DatabaseData {
    var closest := ClosestAmong(sequenceI, rows, |rows|);
    DatabaseData(DbName(shortenedRunName, input.csid, input.cuid, input.genomeType),
                 closest.name, closest.percentIdentity, closest.differencesCount)
  }

  /** The per-sample, per-type records after the input rows of `rows[..k]`. */
  function RecordsBelow(shortenedRunName: string, rows: seq<AlignedRow>, k: nat): map<string, map<string, DatabaseData>>
    requires k <= |rows|
  {
    if k == 0 then map[]
    else
      var records := RecordsBelow(shortenedRunName, rows, k - 1);
      var row := rows[k - 1];
      match row.input
      case None => records
      case Some(input) =>
        var sampleName := FormatSampleName(input.csid, input.cuid);
        var perSample := if sampleName in records then records[sampleName] else map[];
        records[sampleName := perSample[input.genomeType := GenotypeRecord(shortenedRunName, input, row.sequence, rows)]]
  }

  /** Input row `i` is the last input row of `rows[..k]` for its sample and type. */
  predicate LastForKey(rows: seq<AlignedRow>, k: nat, i: nat)
    requires i < k <= |rows|
  {
    rows[i].input.Some? &&
    forall j :: i < j < k && rows[j].input.Some? ==>
      FormatSampleName(rows[j].input.value.csid, rows[j].input.value.cuid) !=
        FormatSampleName(rows[i].input.value.csid, rows[i].input.value.cuid) ||
      rows[j].input.value.genomeType != rows[i].input.value.genomeType
  }

  /** The sample and type an input row is stored under. */
  predicate StoredUnder(row: AlignedRow, sampleName: string, genomeType: string) {
    row.input.Some? && FormatSampleName(row.input.value.csid, row.input.value.cuid) == sampleName &&
    row.input.value.genomeType == genomeType
  }

  /** Every record belongs to the sample and type of an input row. */
  lemma {:induction false} RecordsBelowKeys(shortenedRunName: string, rows: seq<AlignedRow>, k: nat)
    requires k <= |rows|
    ensures forall sampleName, genomeType ::
      sampleName in RecordsBelow(shortenedRunName, rows, k) &&
      genomeType in RecordsBelow(shortenedRunName, rows, k)[sampleName] ==>
        exists i :: 0 <= i < k && StoredUnder(rows[i], sampleName, genomeType)
  {
    if k > 0 {
      RecordsBelowKeys(shortenedRunName, rows, k - 1);
      var records := RecordsBelow(shortenedRunName, rows, k - 1);
      var result := RecordsBelow(shortenedRunName, rows, k);
      forall sampleName, genomeType | sampleName in result && genomeType in result[sampleName]
        ensures exists i :: 0 <= i < k && StoredUnder(rows[i], sampleName, genomeType)
      {
        if StoredUnder(rows[k - 1], sampleName, genomeType) {
        } else {
          assert sampleName in records && genomeType in records[sampleName];
          var i :| 0 <= i < k - 1 && StoredUnder(rows[i], sampleName, genomeType);
        }
      }
    }
  }

  /** Every input row that is the last for its sample and type has its
      record stored. */
  lemma {:induction false} RecordsBelowLastWins(shortenedRunName: string, rows: seq<AlignedRow>, k: nat)
    requires k <= |rows|
    ensures forall i :: 0 <= i < k && LastForKey(rows, k, i) ==>
      var input := rows[i].input.value;
      var sampleName := FormatSampleName(input.csid, input.cuid);
      sampleName in RecordsBelow(shortenedRunName, rows, k) &&
      input.genomeType in RecordsBelow(shortenedRunName, rows, k)[sampleName] &&
      RecordsBelow(shortenedRunName, rows, k)[sampleName][input.genomeType] ==
        GenotypeRecord(shortenedRunName, input, rows[i].sequence, rows)
  {
    if k > 0 {
      RecordsBelowLastWins(shortenedRunName, rows, k - 1);
      var records := RecordsBelow(shortenedRunName, rows, k - 1);
      var result := RecordsBelow(shortenedRunName, rows, k);
      forall i | 0 <= i < k && LastForKey(rows, k, i)
        ensures var input := rows[i].input.value;
          var sampleName := FormatSampleName(input.csid, input.cuid);
          sampleName in result && input.genomeType in result[sampleName] &&
          result[sampleName][input.genomeType] == GenotypeRecord(shortenedRunName, input, rows[i].sequence, rows)
      {
        if i < k - 1 {
          assert LastForKey(rows, k - 1, i);
          var input := rows[i].input.value;
          var sampleName := FormatSampleName(input.csid, input.cuid);
          assert sampleName in records && input.genomeType in records[sampleName];
          if rows[k - 1].input.Some? {
            var other := rows[k - 1].input.value;
            var otherSample := FormatSampleName(other.csid, other.cuid);
            assert otherSample != sampleName || other.genomeType != input.genomeType;
            var perSample: map<string, DatabaseData> := if otherSample in records then records[otherSample] else map[];
            assert result == records[otherSample := perSample[other.genomeType := GenotypeRecord(shortenedRunName, other, rows[k - 1].sequence, rows)]];
          }
        }
      }
    }
  }

  /** The outer loop: every input row of the alignment gets its record. */
  method AssignGenotypes(shortenedRunName: string, rows: seq<AlignedRow>)
    returns (databaseData: map<string, map<string, DatabaseData>>)
    ensures databaseData == RecordsBelow(shortenedRunName, rows, |rows|)
  {
    databaseData := map[];
    var i := 0;
    while i < |rows|
      invariant 0 <= i <= |rows|
      invariant databaseData == RecordsBelow(shortenedRunName, rows, i)
    {
      var row := rows[i];
      if row.input.Some? {
        var input := row.input.value;
        var sampleName := FormatSampleName(input.csid, input.cuid);
        if sampleName !in databaseData {
          databaseData := databaseData[sampleName := map[]];
        }
        var databaseDataPerSample := databaseData[sampleName];
        var dbName := DbName(shortenedRunName, input.csid, input.cuid, input.genomeType);
        var closest := FindClosestReference(row.sequence, rows);
        databaseData := databaseData[sampleName := databaseDataPerSample[input.genomeType :=
          DatabaseData(dbName, closest.name, closest.percentIdentity, closest.differencesCount)]];
      }
      i := i + 1;
    }
  }
}
