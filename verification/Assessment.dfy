/** `AssessComparison`: one measured matrix is refused, rejected or admitted. */
module Assessment {
  import opened Bytes
  import opened Sorting
  import opened Domain
  import opened Envelopes
  import CanonLimits
  import CanonValue

  /** `InstanceMeasurements`: one row of measured values. */
  datatype Measurements = Measurements(
    digest: Digest, envelope: Digest, subject: Digest, binding: Binding, attempt: Digest,
    candidate: Candidate, ordinal: int, values: map<bytes, bytes>)

  datatype Refusal = InvalidMatrix | BindingMismatch | ReusedAttempt | ReusedOrdinal

  datatype BasisValue = BasisValue(name: bytes, canonical: bytes)

  /** The admission record; its digest is represented by the record. */
  datatype Admission = Admission(
    binding: Binding, envelope: Digest, roster: seq<Candidate>, measurements: seq<Digest>, basis: seq<BasisValue>)

  /** The comparison basis leaves the stimulus and the purpose out. */
  datatype Basis = Basis(plan: Digest, envelope: Digest, roster: seq<Candidate>, values: seq<BasisValue>)

  datatype Token = Token(admission: Admission, measurement: Digest, subject: Digest)

  datatype Comparison =
    | Rejection(binding: Binding, envelope: Digest, measurements: seq<Digest>, reasons: set<bytes>)
    | Admitted(admission: Admission, tokens: map<Digest, Token>)

  function BasisOf(a: Admission): Basis
  {
    Basis(a.binding.plan, a.envelope, a.roster, a.basis)
  }

  // ------------------------------------------------------ the structural loop

  predicate SoundBinding(b: Binding)
  {
    ValidDigest(b.plan) && ValidDigest(b.stimulus) && ValidPurpose(b.purpose) && 1 <= b.requiredTrials <= 5
  }

  /** The checks on row `i`, in their order, against the rows before it. */
  function RowRefusal(envelope: Digest, rows: seq<Measurements>, i: nat): Option<Refusal>
    requires i < |rows|
  {
    var row, before := rows[i], rows[..i];
    if !ValidDigest(row.digest) || row.envelope != envelope || !ValidDigest(row.subject) then Some(InvalidMatrix)
    else if row.binding != rows[0].binding then Some(BindingMismatch)
    else if (exists b <- before :: b.digest == row.digest) || (exists b <- before :: b.subject == row.subject)
         || !ValidDigest(row.attempt) then Some(InvalidMatrix)
    else if exists b <- before :: b.attempt == row.attempt then Some(ReusedAttempt)
    else if row.ordinal < 0 then Some(InvalidMatrix)
    else if exists b <- before :: b.ordinal == row.ordinal then Some(ReusedOrdinal)
    else if !ValidCandidate(row.candidate) || (exists b <- before :: b.candidate == row.candidate) then Some(InvalidMatrix)
    else None
  }

  function FirstRefusal(envelope: Digest, rows: seq<Measurements>, i: nat): Option<Refusal>
    requires i <= |rows|
    decreases |rows| - i
  {
    if i == |rows| then None
    else if RowRefusal(envelope, rows, i).Some? then RowRefusal(envelope, rows, i)
    else FirstRefusal(envelope, rows, i + 1)
  }

  /** The seen sets of the loop. */
  datatype SeenRows = SeenRows(
    digests: set<Digest>, subjects: set<Digest>, attempts: set<Digest>, ordinals: set<int>, candidates: set<Candidate>)

  ghost predicate SeesRows(seen: SeenRows, rows: seq<Measurements>)
  {
    && seen.digests == (set b <- rows :: b.digest) && seen.subjects == (set b <- rows :: b.subject)
    && seen.attempts == (set b <- rows :: b.attempt) && seen.ordinals == (set b <- rows :: b.ordinal)
    && seen.candidates == (set b <- rows :: b.candidate)
  }

  method CheckRow(envelope: Digest, rows: seq<Measurements>, i: nat, seen: SeenRows)
    returns (refusal: Option<Refusal>, next: SeenRows)
    requires i < |rows| && SeesRows(seen, rows[..i])
    ensures refusal == RowRefusal(envelope, rows, i)
    ensures refusal.None? ==> SeesRows(next, rows[..i + 1])
  {
    hide ValidDigest, ValidCandidate;
    var row := rows[i];
    next := seen;
    assert rows[..i + 1] == rows[..i] + [row];
    if !ValidDigest(row.digest) || row.envelope != envelope || !ValidDigest(row.subject) {
      return Some(InvalidMatrix), next;
    }
    if row.binding != rows[0].binding {
      return Some(BindingMismatch), next;
    }
    if row.digest in seen.digests || row.subject in seen.subjects || !ValidDigest(row.attempt) {
      return Some(InvalidMatrix), next;
    }
    if row.attempt in seen.attempts {
      return Some(ReusedAttempt), next;
    }
    if row.ordinal < 0 {
      return Some(InvalidMatrix), next;
    }
    if row.ordinal in seen.ordinals {
      return Some(ReusedOrdinal), next;
    }
    if !ValidCandidate(row.candidate) || row.candidate in seen.candidates {
      return Some(InvalidMatrix), next;
    }
    next := SeenRows(seen.digests + {row.digest}, seen.subjects + {row.subject}, seen.attempts + {row.attempt},
                     seen.ordinals + {row.ordinal}, seen.candidates + {row.candidate});
    return None, next;
  }

  method CheckRows(envelope: Digest, rows: seq<Measurements>) returns (refusal: Option<Refusal>)
    requires rows != []
    ensures refusal == FirstRefusal(envelope, rows, 0)
  {
    hide RowRefusal;
    var seen := SeenRows({}, {}, {}, {}, {});
    for i := 0 to |rows|
      invariant FirstRefusal(envelope, rows, 0) == FirstRefusal(envelope, rows, i)
      invariant SeesRows(seen, rows[..i])
    {
      refusal, seen := CheckRow(envelope, rows, i, seen);
      if refusal.Some? {
        return;
      }
    }
    return None;
  }

  // ------------------------------------------------------------ the reasons

  /** A dimension that must not vary, and what is reported when it does. */
  datatype Check = Check(name: bytes, reason: bytes)

  function Checks(c: Config): (r: seq<Check>)
    ensures |r| == |c.required| + |c.rejected|
  {
    seq(|c.required|, i requires 0 <= i < |c.required| =>
      Check(c.required[i], Ascii("REQUIRED_EQUAL_VARIANCE:") + c.required[i]))
    + seq(|c.rejected|, i requires 0 <= i < |c.rejected| => Check(c.rejected[i].name, c.rejected[i].reason))
  }

  predicate Varies(rows: seq<Measurements>, name: bytes)
    requires rows != [] && name in rows[0].values
  {
    exists row <- rows[1..] :: name !in row.values || row.values[name] != rows[0].values[name]
  }

  function CheckReasons(rows: seq<Measurements>, check: Check): set<bytes>
    requires rows != []
  {
    if check.name !in rows[0].values then {Ascii("MISSING_MEASURED_DIMENSION:") + check.name}
    else if Varies(rows, check.name) then {check.reason}
    else {}
  }

  function Reasons(rows: seq<Measurements>, checks: seq<Check>): set<bytes>
    requires rows != []
  {
    if checks == [] then {} else Reasons(rows, checks[..|checks| - 1]) + CheckReasons(rows, checks[|checks| - 1])
  }

  /** The recorded values of the first row, in the order of the checks. */
  function BasisValues(row: Measurements, checks: seq<Check>): seq<BasisValue>
  {
    if checks == [] then []
    else
      var rest, name := BasisValues(row, checks[..|checks| - 1]), checks[|checks| - 1].name;
      if name in row.values then rest + [BasisValue(name, row.values[name])] else rest
  }

  method CompareDimensions(rows: seq<Measurements>, checks: seq<Check>) returns (reasons: set<bytes>, basis: seq<BasisValue>)
    requires rows != []
    ensures reasons == Reasons(rows, checks) && basis == BasisValues(rows[0], checks)
  {
    hide Varies;
    reasons, basis := {}, [];
    for i := 0 to |checks|
      invariant reasons == Reasons(rows, checks[..i]) && basis == BasisValues(rows[0], checks[..i])
    {
      assert checks[..i + 1][..i] == checks[..i];
      var check := checks[i];
      if check.name !in rows[0].values {
        reasons := reasons + {Ascii("MISSING_MEASURED_DIMENSION:") + check.name};
      } else {
        basis := basis + [BasisValue(check.name, rows[0].values[check.name])];
        reasons := CheckEqual(rows, check, reasons);
      }
    }
    assert checks[..|checks|] == checks;
  }

  /** The inner loop over the other rows. */
  method CheckEqual(rows: seq<Measurements>, check: Check, before: set<bytes>) returns (reasons: set<bytes>)
    requires rows != [] && check.name in rows[0].values
    ensures reasons == before + if Varies(rows, check.name) then {check.reason} else {}
  {
    var first := rows[0].values[check.name];
    reasons := before;
    for j := 1 to |rows|
      invariant reasons == before
        + if exists row <- rows[1..j] :: check.name !in row.values || row.values[check.name] != first
          then {check.reason} else {}
    {
      assert rows[1..j + 1] == rows[1..j] + [rows[j]];
      if check.name !in rows[j].values || rows[j].values[check.name] != first {
        reasons := reasons + {check.reason};
      }
    }
    assert rows[1..|rows|] == rows[1..];
  }

  // --------------------------------------------------------- the assessment

  function BasisName(b: BasisValue): bytes { b.name }

  function Digests(rows: seq<Measurements>): (r: seq<Digest>)
    ensures |r| == |rows| && forall i :: 0 <= i < |r| ==> r[i] == rows[i].digest
  {
    seq(|rows|, i requires 0 <= i < |rows| => rows[i].digest)
  }

  function Candidates(rows: seq<Measurements>): (r: seq<Candidate>)
    ensures |r| == |rows| && forall i :: 0 <= i < |r| ==> r[i] == rows[i].candidate
  {
    seq(|rows|, i requires 0 <= i < |rows| => rows[i].candidate)
  }

  function AdmissionOf(envelope: Envelope, rows: seq<Measurements>): Admission
    requires rows != []
  {
    Admission(rows[0].binding, envelope.digest, SortBy(Candidates(rows), Itself), SortBy(Digests(rows), Itself),
              SortBy(BasisValues(rows[0], Checks(envelope.config)), BasisName))
  }

  function Tokens(a: Admission, rows: seq<Measurements>): map<Digest, Token>
  {
    if rows == [] then map[]
    else
      var row := rows[|rows| - 1];
      Tokens(a, rows[..|rows| - 1])[row.digest := Token(a, row.digest, row.subject)]
  }

  /** What `AssessComparison` computes. */
  function Assess(envelope: Envelope, rows: seq<Measurements>): Result<Comparison, Refusal>
  {
    if !ValidDigest(envelope.digest) || |rows| < 2 || |rows| > 4 || !SoundBinding(rows[0].binding) then Err(InvalidMatrix)
    else if FirstRefusal(envelope.digest, rows, 0).Some? then Err(FirstRefusal(envelope.digest, rows, 0).value)
    else
      var checks := Checks(envelope.config);
      if Reasons(rows, checks) != {} then
        Ok(Rejection(rows[0].binding, envelope.digest, SortBy(Digests(rows), Itself), Reasons(rows, checks)))
      else
        Ok(Admitted(AdmissionOf(envelope, rows), Tokens(AdmissionOf(envelope, rows), rows)))
  }

  method AssessComparison(envelope: Envelope, rows: seq<Measurements>) returns (result: Result<Comparison, Refusal>)
    ensures result == Assess(envelope, rows)
  {
    hide ValidDigest, SoundBinding, FirstRefusal, Reasons, BasisValues, Checks, SortBy;
    if !ValidDigest(envelope.digest) || |rows| < 2 || |rows| > 4 {
      return Err(InvalidMatrix);
    }
    if !SoundBinding(rows[0].binding) {
      return Err(InvalidMatrix);
    }
    var refusal := CheckRows(envelope.digest, rows);
    if refusal.Some? {
      return Err(refusal.value);
    }
    var reasons, basis := CompareDimensions(rows, Checks(envelope.config));
    var digests := SortBy(Digests(rows), Itself);
    if reasons != {} {
      return Ok(Rejection(rows[0].binding, envelope.digest, digests, reasons));
    }
    var admission := Admission(rows[0].binding, envelope.digest, SortBy(Candidates(rows), Itself), digests, SortBy(basis, BasisName));
    var tokens: map<Digest, Token> := map[];
    for i := 0 to |rows|
      invariant tokens == Tokens(admission, rows[..i])
    {
      assert rows[..i + 1][..i] == rows[..i];
      tokens := tokens[rows[i].digest := Token(admission, rows[i].digest, rows[i].subject)];
    }
    assert rows[..|rows|] == rows;
    return Ok(Admitted(admission, tokens));
  }

  // ------------------------------------------------------ order independence

  /** A well-formed matrix, said without an order: sound rows, pairwise distinct in every identity. */
  ghost predicate SoundMatrix(envelope: Digest, rows: seq<Measurements>)
  {
    && (forall a <- rows :: SoundRow(envelope, a))
    && (forall a <- rows, b <- rows :: a.binding == b.binding)
    && (forall i, j :: 0 <= i < j < |rows| ==> RowsDiffer(rows[i], rows[j]))
  }

  predicate SoundRow(envelope: Digest, row: Measurements)
  {
    && ValidDigest(row.digest) && row.envelope == envelope && ValidDigest(row.subject) && ValidDigest(row.attempt)
    && row.ordinal >= 0 && ValidCandidate(row.candidate)
  }

  predicate RowsDiffer(a: Measurements, b: Measurements)
  {
    && a.digest != b.digest && a.subject != b.subject && a.attempt != b.attempt
    && a.ordinal != b.ordinal && a.candidate != b.candidate
  }

  lemma RowAccepted(envelope: Digest, rows: seq<Measurements>, i: nat)
    requires i < |rows|
    ensures RowRefusal(envelope, rows, i).None? <==>
      && SoundRow(envelope, rows[i]) && rows[i].binding == rows[0].binding
      && (forall j :: 0 <= j < i ==> RowsDiffer(rows[j], rows[i]))
  {
    hide ValidDigest, ValidCandidate;
    var before := rows[..i];
    assert forall j :: 0 <= j < i ==> before[j] == rows[j] && before[j] in before;
  }

  lemma {:induction false} RowsAccepted(envelope: Digest, rows: seq<Measurements>, i: nat)
    requires i <= |rows|
    ensures FirstRefusal(envelope, rows, i).None? <==> forall k :: i <= k < |rows| ==> RowRefusal(envelope, rows, k).None?
    decreases |rows| - i
  {
    hide RowRefusal;
    if i < |rows| {
      RowsAccepted(envelope, rows, i + 1);
    }
  }

  lemma AcceptedMatrix(envelope: Digest, rows: seq<Measurements>)
    requires rows != []
    ensures FirstRefusal(envelope, rows, 0).None? <==> SoundMatrix(envelope, rows)
  {
    hide RowRefusal, SoundRow, RowsDiffer;
    RowsAccepted(envelope, rows, 0);
    forall k | 0 <= k < |rows|
      ensures RowRefusal(envelope, rows, k).None? <==>
        && SoundRow(envelope, rows[k]) && rows[k].binding == rows[0].binding
        && (forall j :: 0 <= j < k ==> RowsDiffer(rows[j], rows[k]))
    {
      RowAccepted(envelope, rows, k);
    }
  }

  function RowDigest(m: Measurements): bytes { m.digest }

  /** Well-formedness of a matrix survives reordering its rows. */
  lemma SoundMatrixPermutes(envelope: Digest, rows: seq<Measurements>, other: seq<Measurements>)
    requires multiset(rows) == multiset(other) && SoundMatrix(envelope, rows)
    ensures SoundMatrix(envelope, other)
  {
    hide SoundRow;
    assert DistinctKeys(rows, RowDigest);
    DistinctKeysPermute(rows, other, RowDigest);
    SameElements(rows, other);
    forall i, j | 0 <= i < j < |other| ensures RowsDiffer(other[i], other[j]) {
      assert RowDigest(other[i]) != RowDigest(other[j]);
      assert other[i] in rows && other[j] in rows;
    }
  }

  lemma SameElements<T>(s: seq<T>, t: seq<T>)
    requires multiset(s) == multiset(t)
    ensures |s| == |t| && forall x :: x in s <==> x in t
  {
    assert |multiset(s)| == |s| && |multiset(t)| == |t|;
    assert forall x :: x in s <==> x in multiset(s);
    assert forall x :: x in t <==> x in multiset(t);
  }

  /** Rows as `NewInstanceMeasurements` builds them: they measure what the envelope lists, which
      includes every checked dimension. */
  ghost predicate CompleteRows(config: Config, rows: seq<Measurements>)
  {
    forall row <- rows, check <- Checks(config) :: check.name in row.values
  }

  /** As many stored names as dimensions, and no foreign one: every dimension is stored. */
  lemma AllNamesStored(measured: seq<Dimension>, stored: map<bytes, bytes>)
    requires DistinctKeys(measured, DimensionName) && |stored| == |measured|
    requires forall n <- stored :: exists d <- measured :: d.name == n
    ensures forall n :: n in stored <==> exists d <- measured :: d.name == n
  {
    var names := set d <- measured :: d.name;
    NamesCounted(measured);
    assert stored.Keys <= names;
    SubsetSize(stored.Keys, names);
  }

  lemma SubsetSize<T>(a: set<T>, b: set<T>)
    requires a <= b
    ensures |a| == |b| ==> a == b
  {
    assert b == a + (b - a);
    assert |b| == |a| + |b - a|;
  }

  lemma {:induction false} NamesCounted(measured: seq<Dimension>)
    requires DistinctKeys(measured, DimensionName)
    ensures |set d <- measured :: d.name| == |measured|
  {
    if measured != [] {
      var last := |measured| - 1;
      NamesCounted(measured[..last]);
      assert measured == measured[..last] + [measured[last]];
      assert (set d <- measured :: d.name) == (set d <- measured[..last] :: d.name) + {measured[last].name};
      assert forall i :: 0 <= i < last ==> DimensionName(measured[i]) != DimensionName(measured[last]);
    }
  }

  /** The rows of an accepted envelope cover its checks. */
  lemma MeasuredRowsAreComplete(config: Config, rows: seq<Measurements>)
    requires Acceptable(config)
    requires forall row <- rows, n :: n in row.values <==> exists d <- config.measured :: d.name == n
    ensures CompleteRows(config, rows)
  {
    forall row <- rows, check <- Checks(config) ensures check.name in row.values {
      var i :| 0 <= i < |Checks(config)| && Checks(config)[i] == check;
      if i < |config.required| {
        assert Measures(config.measured, Itself(config.required[i]), Exact);
      } else {
        var r := config.rejected[i - |config.required|];
        assert Measures(config.measured, RejectedName(r), RejectOnVariance);
      }
    }
  }

  datatype MeasurementValue = MeasurementValue(name: bytes, source: Source, value: CanonValue.Value)

  datatype MeasurementError =
    | InvalidMeasurements | EnvelopeMismatch | IncompleteMeasurements | Unprintable(code: CanonLimits.ErrorCode)

  predicate Stores(stored: map<bytes, bytes>, v: MeasurementValue)
  {
    v.name in stored && CanonValue.CanonicalBytes(v.value) == Ok(stored[v.name])
  }

  function ValueName(v: MeasurementValue): bytes { v.name }

  /** The value belongs to a measured dimension with its source, and prints. */
  predicate Measurable(measured: seq<Dimension>, v: MeasurementValue)
  {
    && (exists d <- measured :: d.name == v.name && d.source == v.source)
    && CanonValue.CanonicalBytes(v.value).Ok?
  }

  /** `NewInstanceMeasurements`, as far as the stored values go: the row covers what the envelope
      measures, and stores the canonical bytes of each value. */
  method MeasureInstance(envelope: Envelope, world: World, values: seq<MeasurementValue>)
    returns (result: Result<map<bytes, bytes>, MeasurementError>)
    requires DistinctKeys(envelope.config.measured, DimensionName)
    ensures result.Ok? <==>
      && ValidDigest(envelope.digest) && ValidDigest(world.digest) && world.envelope == envelope.digest
      && |values| == |envelope.config.measured| && DistinctKeys(values, ValueName)
      && forall v <- values :: Measurable(envelope.config.measured, v)
    ensures result.Ok? ==> forall n :: n in result.value <==> exists d <- envelope.config.measured :: d.name == n
    ensures result.Ok? ==> forall v <- values :: Stores(result.value, v)
  {
    hide ValidDigest, DistinctKeys, StoredAll, Stores, Measurable;
    if !ValidDigest(envelope.digest) || !ValidDigest(world.digest) {
      return Err(InvalidMeasurements);
    }
    if world.envelope != envelope.digest {
      return Err(EnvelopeMismatch);
    }
    var measured := envelope.config.measured;
    if |values| != |measured| {
      return Err(IncompleteMeasurements);
    }
    result := StoreValues(measured, values);
    if result.Ok? {
      StoredParts(measured, values, result.value);
      AllNamesStored(measured, result.value);
    }
  }

  function NameSet(values: seq<MeasurementValue>): set<bytes>
  {
    set v <- values :: v.name
  }

  /** The stored values of the first few given ones. */
  ghost predicate StoredAll(measured: seq<Dimension>, values: seq<MeasurementValue>, stored: map<bytes, bytes>)
  {
    && DistinctKeys(values, ValueName) && |stored| == |values|
    && stored.Keys == NameSet(values)
    && (forall v <- values :: Measurable(measured, v) && Stores(stored, v))
  }

  lemma StoredNext(measured: seq<Dimension>, values: seq<MeasurementValue>, stored: map<bytes, bytes>, v: MeasurementValue, canonical: bytes)
    requires StoredAll(measured, values, stored) && v.name !in stored
    requires Measurable(measured, v) && CanonValue.CanonicalBytes(v.value) == Ok(canonical)
    ensures StoredAll(measured, values + [v], stored[v.name := canonical])
  {
    hide CanonValue.CanonicalBytes, Measurable, Stores, DistinctKeys, NameSet;
    StillStored(values, stored, v, canonical);
    DistinctNext(values, v);
    NamesNext(values, v);
  }

  lemma NamesNext(values: seq<MeasurementValue>, v: MeasurementValue)
    ensures NameSet(values + [v]) == NameSet(values) + {v.name}
  {
  }

  lemma StillStored(values: seq<MeasurementValue>, stored: map<bytes, bytes>, v: MeasurementValue, canonical: bytes)
    requires v.name !in stored && CanonValue.CanonicalBytes(v.value) == Ok(canonical)
    requires forall u <- values :: Stores(stored, u)
    ensures forall u <- values :: Stores(stored[v.name := canonical], u)
    ensures Stores(stored[v.name := canonical], v)
  {
    hide CanonValue.CanonicalBytes;
  }

  lemma DistinctNext(values: seq<MeasurementValue>, v: MeasurementValue)
    requires DistinctKeys(values, ValueName) && v.name !in NameSet(values)
    ensures DistinctKeys(values + [v], ValueName)
  {
    var now := values + [v];
    forall j, k | 0 <= j < k < |now| ensures ValueName(now[j]) != ValueName(now[k]) {
      assert now[j] in values;
      if k < |values| {
        assert ValueName(values[j]) != ValueName(values[k]);
      }
    }
  }

  lemma RepeatedValue(measured: seq<Dimension>, values: seq<MeasurementValue>, stored: map<bytes, bytes>, i: nat)
    requires i < |values| && StoredAll(measured, values[..i], stored) && values[i].name in stored
    ensures !DistinctKeys(values, ValueName)
  {
    var v :| v in values[..i] && v.name == values[i].name;
    var k :| 0 <= k < i && values[..i][k] == v;
    RepeatedKey(values, ValueName, k, i);
  }

  /** The loop over the given values. */
  method StoreValues(measured: seq<Dimension>, values: seq<MeasurementValue>)
    returns (result: Result<map<bytes, bytes>, MeasurementError>)
    ensures result.Ok? <==> DistinctKeys(values, ValueName) && forall v <- values :: Measurable(measured, v)
    ensures result.Ok? ==> StoredAll(measured, values, result.value)
  {
    hide CanonValue.CanonicalBytes, StoredAll, DistinctKeys;
    var stored: map<bytes, bytes> := map[];
    NothingStored(measured);
    for i := 0 to |values|
      invariant StoredAll(measured, values[..i], stored)
    {
      var v := values[i];
      assert v in values && values[..i + 1] == values[..i] + [v];
      if !(exists d <- measured :: d.name == v.name && d.source == v.source) {
        return Err(InvalidMeasurements);
      }
      if v.name in stored {
        RepeatedValue(measured, values, stored, i);
        return Err(InvalidMeasurements);
      }
      var canonical := CanonValue.CanonicalChecked(v.value);
      if canonical.Err? {
        return Err(Unprintable(canonical.error));
      }
      StoredNext(measured, values[..i], stored, v, canonical.value);
      stored := stored[v.name := canonical.value];
    }
    assert values[..|values|] == values;
    StoredParts(measured, values, stored);
    return Ok(stored);
  }

  lemma NothingStored(measured: seq<Dimension>)
    ensures StoredAll(measured, [], map[])
  {
  }

  lemma StoredParts(measured: seq<Dimension>, values: seq<MeasurementValue>, stored: map<bytes, bytes>)
    requires StoredAll(measured, values, stored)
    ensures DistinctKeys(values, ValueName) && |stored| == |values|
    ensures forall v <- values :: Measurable(measured, v) && Stores(stored, v)
    ensures forall n <- stored :: exists d <- measured :: d.name == n
  {
    hide CanonValue.CanonicalBytes;
    forall n <- stored ensures exists d <- measured :: d.name == n {
      var v :| v in values && v.name == n;
      assert Measurable(measured, v);
    }
  }

  /** All rows agree on the dimension. */
  ghost predicate Agree(rows: seq<Measurements>, name: bytes)
  {
    forall a <- rows, b <- rows :: name in a.values && name in b.values && a.values[name] == b.values[name]
  }

  lemma ReasonsOfCheck(rows: seq<Measurements>, check: Check)
    requires rows != [] && check.name in rows[0].values
    ensures CheckReasons(rows, check) == if Agree(rows, check.name) then {} else {check.reason}
  {
    var name := check.name;
    assert rows == [rows[0]] + rows[1..];
    if !Varies(rows, name) {
      assert forall row <- rows :: name in row.values && row.values[name] == rows[0].values[name];
    } else {
      var row :| row in rows[1..] && (name !in row.values || row.values[name] != rows[0].values[name]);
      assert row in rows && rows[0] in rows;
    }
  }

  /** No reason is found exactly when every checked dimension has one value in the whole matrix. */
  lemma {:induction false} NoReasons(rows: seq<Measurements>, checks: seq<Check>)
    requires rows != [] && forall check <- checks :: check.name in rows[0].values
    ensures Reasons(rows, checks) == {} <==> forall check <- checks :: Agree(rows, check.name)
  {
    hide CheckReasons, Agree;
    if checks != [] {
      var last := |checks| - 1;
      assert checks == checks[..last] + [checks[last]];
      NoReasons(rows, checks[..last]);
      ReasonsOfCheck(rows, checks[last]);
    }
  }

  lemma {:induction false} ReasonsPermute(rows: seq<Measurements>, other: seq<Measurements>, checks: seq<Check>)
    requires rows != [] && other != [] && forall x :: x in rows <==> x in other
    requires forall row <- rows, check <- checks :: check.name in row.values
    ensures Reasons(rows, checks) == Reasons(other, checks)
  {
    if checks != [] {
      var last := |checks| - 1;
      assert checks == checks[..last] + [checks[last]];
      ReasonsPermute(rows, other, checks[..last]);
      assert rows[0] in rows && other[0] in rows;
      ReasonsOfCheck(rows, checks[last]);
      ReasonsOfCheck(other, checks[last]);
    }
  }

  lemma {:induction false} BasisShared(rows: seq<Measurements>, a: Measurements, b: Measurements, checks: seq<Check>)
    requires a in rows && b in rows && forall check <- checks :: Agree(rows, check.name)
    ensures BasisValues(a, checks) == BasisValues(b, checks)
  {
    if checks != [] {
      var last := |checks| - 1;
      assert checks == checks[..last] + [checks[last]];
      assert Agree(rows, checks[last].name);
      BasisShared(rows, a, b, checks[..last]);
    }
  }

  lemma {:induction false} TokenOf(a: Admission, rows: seq<Measurements>, i: nat)
    requires DistinctKeys(rows, RowDigest) && i < |rows|
    ensures rows[i].digest in Tokens(a, rows)
    ensures Tokens(a, rows)[rows[i].digest] == Token(a, rows[i].digest, rows[i].subject)
  {
    var last := |rows| - 1;
    if i < last {
      assert RowDigest(rows[i]) != RowDigest(rows[last]);
      TokenOf(a, rows[..last], i);
    }
  }

  lemma {:induction false} TokenHasRow(a: Admission, rows: seq<Measurements>, d: Digest)
    requires d in Tokens(a, rows)
    ensures exists i :: 0 <= i < |rows| && rows[i].digest == d
  {
    var last := |rows| - 1;
    if d != rows[last].digest {
      TokenHasRow(a, rows[..last], d);
    } else {
      assert rows[last].digest == d;
    }
  }

  lemma TokensAre(a: Admission, rows: seq<Measurements>)
    requires DistinctKeys(rows, RowDigest)
    ensures Tokens(a, rows).Keys == set row <- rows :: row.digest
    ensures forall row <- rows :: row.digest in Tokens(a, rows) && Tokens(a, rows)[row.digest] == Token(a, row.digest, row.subject)
  {
    hide Tokens, DistinctKeys;
    forall row <- rows
      ensures row.digest in Tokens(a, rows) && Tokens(a, rows)[row.digest] == Token(a, row.digest, row.subject)
    {
      var i :| 0 <= i < |rows| && rows[i] == row;
      TokenOf(a, rows, i);
    }
    forall d <- Tokens(a, rows) ensures d in set row <- rows :: row.digest {
      TokenHasRow(a, rows, d);
    }
  }

  lemma TokensPermute(a: Admission, rows: seq<Measurements>, other: seq<Measurements>)
    requires DistinctKeys(rows, RowDigest) && DistinctKeys(other, RowDigest) && forall x :: x in rows <==> x in other
    ensures Tokens(a, rows) == Tokens(a, other)
  {
    TokensAre(a, rows);
    TokensAre(a, other);
  }

  /** The sorted lists of an admission depend only on the rows as a set. */
  lemma ListsPermute(envelope: Digest, rows: seq<Measurements>, other: seq<Measurements>)
    requires SoundMatrix(envelope, rows) && SoundMatrix(envelope, other) && forall x :: x in rows <==> x in other
    ensures SortBy(Digests(rows), Itself) == SortBy(Digests(other), Itself)
    ensures SortBy(Candidates(rows), Itself) == SortBy(Candidates(other), Itself)
  {
    hide SoundRow, SortBy;
    forall x ensures x in Digests(rows) <==> x in Digests(other) {
      SameImage(rows, other, Digests(rows), Digests(other), RowDigest, x);
    }
    forall x ensures x in Candidates(rows) <==> x in Candidates(other) {
      SameImage(rows, other, Candidates(rows), Candidates(other), RowCandidate, x);
    }
    SortSameElements(Digests(rows), Digests(other), Itself);
    SortSameElements(Candidates(rows), Candidates(other), Itself);
  }

  function RowCandidate(m: Measurements): bytes { m.candidate }

  lemma SameImage<T>(rows: seq<T>, other: seq<T>, image: seq<bytes>, otherImage: seq<bytes>, f: T -> bytes, x: bytes)
    requires forall y :: y in rows <==> y in other
    requires |image| == |rows| && forall i :: 0 <= i < |rows| ==> image[i] == f(rows[i])
    requires |otherImage| == |other| && forall i :: 0 <= i < |other| ==> otherImage[i] == f(other[i])
    ensures x in image <==> x in otherImage
  {
    if x in image {
      var i :| 0 <= i < |image| && image[i] == x;
      assert rows[i] in other;
      var j :| 0 <= j < |other| && other[j] == rows[i];
      assert otherImage[j] == x;
    }
    if x in otherImage {
      var i :| 0 <= i < |otherImage| && otherImage[i] == x;
      assert other[i] in rows;
      var j :| 0 <= j < |rows| && rows[j] == other[i];
      assert image[j] == x;
    }
  }

  /** A matrix is admitted exactly when it is well formed and every required and rejected dimension
      has one value in it. */
  lemma AdmittedExactly(envelope: Envelope, rows: seq<Measurements>)
    requires 2 <= |rows| <= 4 && ValidDigest(envelope.digest) && SoundBinding(rows[0].binding)
    requires CompleteRows(envelope.config, rows)
    ensures Assess(envelope, rows).Ok? <==> SoundMatrix(envelope.digest, rows)
    ensures Assess(envelope, rows).Ok? ==>
      (Assess(envelope, rows).value.Admitted? <==> forall check <- Checks(envelope.config) :: Agree(rows, check.name))
  {
    hide SoundMatrix, SoundBinding, ValidDigest, Agree, AdmissionOf, Tokens, Checks;
    AcceptedMatrix(envelope.digest, rows);
    NoReasons(rows, Checks(envelope.config));
  }

  /** Reordering the rows changes neither an admitted nor a rejected comparison, and turns no
      refusal into either. */
  lemma AssessOrderIndependent(envelope: Envelope, rows: seq<Measurements>, other: seq<Measurements>)
    requires multiset(rows) == multiset(other) && CompleteRows(envelope.config, rows)
    requires Assess(envelope, rows).Ok?
    ensures Assess(envelope, other) == Assess(envelope, rows)
  {
    hide SoundMatrix, SoundBinding, ValidDigest, Agree, Tokens, Checks, FirstRefusal, Reasons, SortBy, BasisValues;
    var e, checks := envelope.digest, Checks(envelope.config);
    SameElements(rows, other);
    AcceptedMatrix(e, rows);
    SoundMatrixPermutes(e, rows, other);
    AcceptedMatrix(e, other);
    ReasonsPermute(rows, other, checks);
    ListsPermute(e, rows, other);
    SharedFacts(e, rows, other);
    if Reasons(rows, checks) == {} {
      NoReasons(rows, checks);
      BasisShared(rows, rows[0], other[0], checks);
      TokensPermute(AdmissionOf(envelope, rows), rows, other);
    }
  }

  lemma SharedFacts(envelope: Digest, rows: seq<Measurements>, other: seq<Measurements>)
    requires rows != [] && other != [] && forall x :: x in rows <==> x in other
    requires SoundMatrix(envelope, rows) && SoundMatrix(envelope, other)
    ensures rows[0].binding == other[0].binding && other[0] in rows && rows[0] in rows
    ensures DistinctKeys(rows, RowDigest) && DistinctKeys(other, RowDigest)
  {
    hide SoundRow;
    assert other[0] in rows;
  }

  /** The roster of an admission is strictly sorted and as long as the matrix. */
  lemma AdmittedRoster(envelope: Envelope, rows: seq<Measurements>)
    requires Assess(envelope, rows).Ok? && Assess(envelope, rows).value.Admitted?
    ensures Assess(envelope, rows).value.admission == AdmissionOf(envelope, rows)
    ensures var roster := AdmissionOf(envelope, rows).roster; |roster| == |rows| && StrictlySorted(roster, Itself)
  {
    hide FirstRefusal, Reasons, Checks, SortBy, BasisValues, Tokens, SoundBinding, SoundRow, ValidDigest;
    AcceptedMatrix(envelope.digest, rows);
    var candidates := Candidates(rows);
    forall i, j | 0 <= i < j < |candidates| ensures Itself(candidates[i]) != Itself(candidates[j]) {
      assert RowsDiffer(rows[i], rows[j]);
    }
    SortByPermutation(candidates, candidates, Itself);
  }

  /** `AdmissionFor`: the token of a row that took part in the comparison. */
  function AdmissionFor(c: Comparison, m: Measurements): Option<Token>
    requires c.Admitted?
  {
    if !ValidDigest(m.digest) || m.digest !in c.tokens then None
    else
      var token, a := c.tokens[m.digest], c.admission;
      if token.measurement != m.digest || token.subject != m.subject || m.binding != a.binding || m.envelope != a.envelope
      then None else Some(token)
  }

  /** Exactly the rows of an admitted matrix hold its tokens. */
  lemma EveryRowHasItsToken(envelope: Envelope, rows: seq<Measurements>, m: Measurements)
    requires Assess(envelope, rows).Ok? && Assess(envelope, rows).value.Admitted?
    ensures var token := AdmissionFor(Assess(envelope, rows).value, m);
            && (m in rows ==> token == Some(Token(AdmissionOf(envelope, rows), m.digest, m.subject)))
            && (token.Some? ==>
                  exists row <- rows :: row.digest == m.digest && row.subject == m.subject && row.binding == m.binding)
  {
    hide ValidDigest, Reasons, Checks, SortBy, BasisValues, Tokens, FirstRefusal, SoundBinding;
    AcceptedMatrix(envelope.digest, rows);
    SharedFacts(envelope.digest, rows, rows);
    TokensAre(AdmissionOf(envelope, rows), rows);
  }
}
