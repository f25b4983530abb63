/** Candidate outcome maps and preservation (internal/compare/outcome_map.go). */
module OutcomeMap {
  import opened Bytes
  import opened Sorting
  import opened Domain
  import opened Schedule
  import opened Assessment
  import opened Eligibility
  import opened Classification

  datatype EvidenceKind = AttemptEvidence | WorldEvidence | ObservationEvidence

  datatype MapError =
    | InvalidIdentity | InvalidExpectedRoster | DuplicateCandidateKey | RosterBatchMismatch | LineageMismatch
    | InvalidAdmissionOrPhase | AdmissionRosterMismatch | MixedAdmissionOrPhase | InvalidEvidence(kind: EvidenceKind)
    | ReusedEvidence(kind: EvidenceKind) | UnexpectedCandidate | ControlAsOutcome

  datatype Entry = Entry(candidate: Candidate, fingerprint: Fingerprint, batch: Batch)

  datatype Disposition = ExcludedUnstable | ExcludedUncomparable | ExcludedIncomplete

  datatype Exclusion = Exclusion(candidate: Candidate, batch: Batch, disposition: Disposition)

  /** The artifact digest of a map is represented by the map. */
  datatype CandidateOutcomeMap = CandidateOutcomeMap(
    plan: Digest, stimulus: Digest, envelope: Digest, capturePolicy: Digest, definition: Digest,
    admissions: seq<Admission>, basis: Basis, phase: Purpose, schedule: Schedule, roster: seq<Candidate>,
    entries: seq<Entry>, exclusions: seq<Exclusion>, attempts: seq<Digest>, worlds: seq<Digest>, observations: seq<Digest>)

  function Attempts(b: Batch): (r: seq<Digest>)
    ensures |r| == |b.trials|
  {
    seq(|b.trials|, i requires 0 <= i < |b.trials| => b.trials[i].attempt.digest)
  }

  function Worlds(b: Batch): (r: seq<Digest>)
    ensures |r| == |b.trials|
  {
    seq(|b.trials|, i requires 0 <= i < |b.trials| => b.trials[i].world.digest)
  }

  // ------------------------------------------------- one batch, without an order

  predicate DistinctAdmissions(s: seq<Admission>)
  {
    s != [] && forall i, j :: 0 <= i < j < |s| ==> s[i] != s[j]
  }

  /** `BATCH_LINEAGE_MISMATCH` and `INVALID_BATCH_ADMISSION_OR_PHASE`, and the roster. */
  predicate BoundBatch(stimulus: Digest, envelope: Digest, roster: seq<Candidate>, b: Batch)
  {
    && ValidCandidate(b.candidate) && b.binding.stimulus == stimulus && b.envelope == envelope
    && DistinctAdmissions(b.admissions) && |b.admissions| == |b.trials| && ValidDigest(b.binding.plan)
    && ValidDigest(b.capturePolicy) && ValidDigest(b.definition) && ValidPurpose(b.binding.purpose)
    && b.roster == roster && b.candidate in roster
    && (b.classification.status.ObservedStable? ==> ValidDigest(b.classification.status.fingerprint))
  }

  /** The evidence lists of one batch are valid and free of repeats. */
  predicate CleanEvidence(s: seq<Digest>)
  {
    NoRepeats(s) && forall d <- s :: ValidDigest(d)
  }

  predicate CleanBatch(b: Batch)
  {
    CleanEvidence(Attempts(b)) && CleanEvidence(Worlds(b)) && CleanEvidence(b.observations)
  }

  /** Both batches come from the same matrices, plan and schedule. */
  predicate SameRun(a: Batch, b: Batch)
  {
    && a.admissions == b.admissions && a.binding.plan == b.binding.plan && a.capturePolicy == b.capturePolicy
    && a.definition == b.definition && a.basis == b.basis && a.binding.purpose == b.binding.purpose
    && a.schedule == b.schedule
  }

  predicate DisjointLists(a: seq<Digest>, b: seq<Digest>)
  {
    forall d <- a :: d !in b
  }

  /** Different candidates, no shared evidence. */
  predicate ApartBatches(a: Batch, b: Batch)
  {
    && a.candidate != b.candidate && DisjointLists(Attempts(a), Attempts(b))
    && DisjointLists(Worlds(a), Worlds(b)) && DisjointLists(a.observations, b.observations)
  }

  /** What `NewCandidateOutcomeMap` asks of the batches, said without an order. */
  ghost predicate SoundBatches(stimulus: Digest, envelope: Digest, roster: seq<Candidate>, batches: seq<Batch>)
  {
    && |batches| == |roster|
    && (forall b <- batches :: BoundBatch(stimulus, envelope, roster, b) && CleanBatch(b))
    && (forall a <- batches, b <- batches :: SameRun(a, b))
    && (forall i, j :: 0 <= i < j < |batches| ==> ApartBatches(batches[i], batches[j]))
  }

  // ---------------------------------------------------------------- collected lists

  function Observed(b: Batch): seq<Digest>
  {
    b.observations
  }

  function Flatten(batches: seq<Batch>, f: Batch -> seq<Digest>): seq<Digest>
  {
    if batches == [] then [] else Flatten(batches[..|batches| - 1], f) + f(batches[|batches| - 1])
  }

  function EntriesOf(batches: seq<Batch>): seq<Entry>
  {
    if batches == [] then []
    else
      var b := batches[|batches| - 1];
      EntriesOf(batches[..|batches| - 1])
      + if b.classification.status.ObservedStable? then [EntryOf(b)] else []
  }

  function EntryOf(b: Batch): Entry
    requires b.classification.status.ObservedStable?
  {
    Entry(b.candidate, b.classification.status.fingerprint, b)
  }

  function ExclusionsOf(batches: seq<Batch>): seq<Exclusion>
  {
    if batches == [] then []
    else
      var b := batches[|batches| - 1];
      ExclusionsOf(batches[..|batches| - 1])
      + if b.classification.status.ObservedStable? then [] else [ExclusionOf(b)]
  }

  function ExclusionOf(b: Batch): Exclusion
    requires !b.classification.status.ObservedStable?
  {
    Exclusion(b.candidate, b, match b.classification.status
      case Unstable(_) => ExcludedUnstable
      case Uncomparable(_) => ExcludedUncomparable
      case _ => ExcludedIncomplete)
  }

  function EntryKey(e: Entry): bytes { e.candidate }

  function ExclusionKey(e: Exclusion): bytes { e.candidate }

  function BatchCandidate(b: Batch): bytes { b.candidate }

  /** The map of a sound list of batches. */
  function MapOf(stimulus: Digest, envelope: Digest, roster: seq<Candidate>, batches: seq<Batch>): CandidateOutcomeMap
    requires batches != []
  {
    var b := batches[0];
    CandidateOutcomeMap(
      b.binding.plan, stimulus, envelope, b.capturePolicy, b.definition, b.admissions, b.basis, b.binding.purpose,
      b.schedule, roster, SortBy(EntriesOf(batches), EntryKey), SortBy(ExclusionsOf(batches), ExclusionKey),
      SortBy(Flatten(batches, Attempts), Itself), SortBy(Flatten(batches, Worlds), Itself),
      SortBy(Flatten(batches, Observed), Itself))
  }

  lemma {:induction false} FlattenHolds(batches: seq<Batch>, f: Batch -> seq<Digest>, d: Digest)
    ensures d in Flatten(batches, f) <==> exists b <- batches :: d in f(b)
  {
    if batches != [] {
      var last := |batches| - 1;
      assert batches == batches[..last] + [batches[last]];
      FlattenHolds(batches[..last], f, d);
    }
  }

  // --------------------------------------------------------------------- the loop

  /** The first digest that is not valid, or that was seen before. */
  function EvidenceRefusal(known: seq<Digest>, claimed: seq<Digest>, kind: EvidenceKind, i: nat): Option<MapError>
    requires i <= |claimed|
    decreases |claimed| - i
  {
    if i == |claimed| then None
    else if !ValidDigest(claimed[i]) then Some(InvalidEvidence(kind))
    else if claimed[i] in known + claimed[..i] then Some(ReusedEvidence(kind))
    else EvidenceRefusal(known, claimed, kind, i + 1)
  }

  /** A list passes exactly when it is clean and shares nothing with what is known. */
  lemma {:induction false} EvidenceExactly(known: seq<Digest>, claimed: seq<Digest>, kind: EvidenceKind, i: nat)
    requires i <= |claimed| && CleanEvidence(claimed[..i]) && DisjointLists(claimed[..i], known)
    ensures EvidenceRefusal(known, claimed, kind, i).None? <==> CleanEvidence(claimed) && DisjointLists(claimed, known)
    decreases |claimed| - i
  {
    hide ValidDigest;
    if i == |claimed| {
      assert claimed[..i] == claimed;
    } else {
      var d := claimed[i];
      assert d in claimed && claimed[..i + 1] == claimed[..i] + [d];
      if ValidDigest(d) && d !in known + claimed[..i] {
        EvidenceExactly(known, claimed, kind, i + 1);
      } else if d in claimed[..i] {
        Repeated(claimed, i);
      }
    }
  }

  /** One evidence list against everything seen so far. */
  method AddEvidence(known: seq<Digest>, claimed: seq<Digest>, kind: EvidenceKind) returns (result: Result<seq<Digest>, MapError>)
    ensures match EvidenceRefusal(known, claimed, kind, 0)
            case Some(e) => result == Err(e)
            case None => result == Ok(known + claimed)
  {
    hide ValidDigest;
    var all := known;
    for i := 0 to |claimed|
      invariant all == known + claimed[..i]
      invariant EvidenceRefusal(known, claimed, kind, 0) == EvidenceRefusal(known, claimed, kind, i)
    {
      var d := claimed[i];
      assert known + claimed[..i + 1] == (known + claimed[..i]) + [d];
      if !ValidDigest(d) {
        return Err(InvalidEvidence(kind));
      }
      if d in all {
        return Err(ReusedEvidence(kind));
      }
      all := all + [d];
    }
    assert claimed[..|claimed|] == claimed;
    return Ok(all);
  }

  lemma Repeated(s: seq<Digest>, i: nat)
    requires i < |s| && s[i] in s[..i]
    ensures !NoRepeats(s)
  {
    var k :| 0 <= k < i && s[..i][k] == s[i];
    assert s[k] == s[i];
  }

  datatype Progress = Progress(
    candidates: set<Candidate>, attempts: seq<Digest>, worlds: seq<Digest>, observations: seq<Digest>,
    entries: seq<Entry>, exclusions: seq<Exclusion>)

  ghost predicate Reached(p: Progress, batches: seq<Batch>)
  {
    && p.candidates == (set b <- batches :: b.candidate)
    && p.attempts == Flatten(batches, Attempts) && p.worlds == Flatten(batches, Worlds)
    && p.observations == Flatten(batches, Observed)
    && p.entries == EntriesOf(batches) && p.exclusions == ExclusionsOf(batches)
  }

  /** The batch fits behind the earlier ones. */
  ghost predicate Fits(batches: seq<Batch>, b: Batch)
  {
    CleanBatch(b) && forall a <- batches :: ApartBatches(a, b)
  }

  lemma DisjointFromAll(batches: seq<Batch>, b: Batch)
    ensures DisjointLists(Attempts(b), Flatten(batches, Attempts)) <==> forall a <- batches :: DisjointLists(Attempts(a), Attempts(b))
    ensures DisjointLists(Worlds(b), Flatten(batches, Worlds)) <==> forall a <- batches :: DisjointLists(Worlds(a), Worlds(b))
    ensures DisjointLists(b.observations, Flatten(batches, Observed))
            <==> forall a <- batches :: DisjointLists(a.observations, b.observations)
  {
    DisjointOne(batches, b, Attempts);
    DisjointOne(batches, b, Worlds);
    DisjointOne(batches, b, Observed);
    assert forall a :: Observed(a) == a.observations;
  }

  lemma DisjointOne(batches: seq<Batch>, b: Batch, f: Batch -> seq<Digest>)
    ensures DisjointLists(f(b), Flatten(batches, f)) <==> forall a <- batches :: DisjointLists(f(a), f(b))
  {
    forall d ensures d in Flatten(batches, f) <==> exists a <- batches :: d in f(a) {
      FlattenHolds(batches, f, d);
    }
  }

  function OrElse(a: Option<MapError>, b: Option<MapError>): Option<MapError>
  {
    if a.Some? then a else b
  }

  /** The checks on the evidence and the candidate of a batch, against the batches before it. */
  function EvidenceAndCandidateRefusal(roster: seq<Candidate>, before: seq<Batch>, b: Batch): Option<MapError>
  {
    OrElse(EvidenceRefusal(Flatten(before, Attempts), Attempts(b), AttemptEvidence, 0),
    OrElse(EvidenceRefusal(Flatten(before, Worlds), Worlds(b), WorldEvidence, 0),
    OrElse(EvidenceRefusal(Flatten(before, Observed), b.observations, ObservationEvidence, 0),
           CandidateRefusal(roster, before, b))))
  }

  function CandidateRefusal(roster: seq<Candidate>, before: seq<Batch>, b: Batch): Option<MapError>
  {
    if b.candidate !in roster then Some(UnexpectedCandidate)
    else if exists a <- before :: a.candidate == b.candidate then Some(DuplicateCandidateKey)
    else if b.classification.status.ObservedStable? && !ValidDigest(b.classification.status.fingerprint) then Some(ControlAsOutcome)
    else None
  }

  /** Everything asked of one batch, in the order of the loop's body. */
  function BatchRefusal(stimulus: Digest, envelope: Digest, roster: seq<Candidate>, before: seq<Batch>, b: Batch): Option<MapError>
  {
    OrElse(BindingRefusal(stimulus, envelope, roster, if before == [] then b else before[0], b),
           EvidenceAndCandidateRefusal(roster, before, b))
  }

  lemma EvidenceAndCandidateExactly(roster: seq<Candidate>, before: seq<Batch>, b: Batch)
    ensures EvidenceAndCandidateRefusal(roster, before, b).None? <==>
      && Fits(before, b) && b.candidate in roster
      && (b.classification.status.ObservedStable? ==> ValidDigest(b.classification.status.fingerprint))
  {
    hide Flatten, ValidDigest, EvidenceRefusal, DisjointLists, CleanEvidence;
    DisjointFromAll(before, b);
    StartsClean(Flatten(before, Attempts), Attempts(b));
    StartsClean(Flatten(before, Worlds), Worlds(b));
    StartsClean(Flatten(before, Observed), b.observations);
    EvidenceExactly(Flatten(before, Attempts), Attempts(b), AttemptEvidence, 0);
    EvidenceExactly(Flatten(before, Worlds), Worlds(b), WorldEvidence, 0);
    EvidenceExactly(Flatten(before, Observed), b.observations, ObservationEvidence, 0);
  }

  lemma StartsClean(known: seq<Digest>, claimed: seq<Digest>)
    ensures CleanEvidence(claimed[..0]) && DisjointLists(claimed[..0], known)
  {
  }

  /** One batch whose binding was checked. */
  method AddBatch(roster: seq<Candidate>, batches: seq<Batch>, b: Batch, p: Progress) returns (result: Result<Progress, MapError>)
    requires Reached(p, batches)
    ensures result.Err? ==> EvidenceAndCandidateRefusal(roster, batches, b) == Some(result.error)
    ensures result.Ok? ==> EvidenceAndCandidateRefusal(roster, batches, b).None? && Reached(result.value, batches + [b])
  {
    hide Flatten, EvidenceRefusal, ValidDigest;
    assert (batches + [b])[..|batches|] == batches;
    assert b.candidate in p.candidates <==> exists a <- batches :: a.candidate == b.candidate;
    var attempts :- AddEvidence(p.attempts, Attempts(b), AttemptEvidence);
    var worlds :- AddEvidence(p.worlds, Worlds(b), WorldEvidence);
    var observations :- AddEvidence(p.observations, b.observations, ObservationEvidence);
    if b.candidate !in roster {
      return Err(UnexpectedCandidate);
    }
    if b.candidate in p.candidates {
      return Err(DuplicateCandidateKey);
    }
    FlattenSnoc(batches, b);
    var next := Progress(p.candidates + {b.candidate}, attempts, worlds, observations, p.entries, p.exclusions);
    if b.classification.status.ObservedStable? {
      if !ValidDigest(b.classification.status.fingerprint) {
        return Err(ControlAsOutcome);
      }
      next := next.(entries := p.entries + [EntryOf(b)]);
    } else {
      next := next.(exclusions := p.exclusions + [ExclusionOf(b)]);
    }
    return Ok(next);
  }

  lemma FlattenSnoc(batches: seq<Batch>, b: Batch)
    ensures Flatten(batches + [b], Attempts) == Flatten(batches, Attempts) + Attempts(b)
    ensures Flatten(batches + [b], Worlds) == Flatten(batches, Worlds) + Worlds(b)
    ensures Flatten(batches + [b], Observed) == Flatten(batches, Observed) + b.observations
  {
    assert (batches + [b])[..|batches|] == batches;
  }

  /** The binding checks on one batch, in their order. */
  function BindingRefusal(stimulus: Digest, envelope: Digest, roster: seq<Candidate>, first: Batch, b: Batch): Option<MapError>
  {
    if !ValidCandidate(b.candidate) || b.binding.stimulus != stimulus || b.envelope != envelope then Some(LineageMismatch)
    else if !DistinctAdmissions(b.admissions) || |b.admissions| != |b.trials| || !ValidDigest(b.binding.plan)
         || !ValidDigest(b.capturePolicy) || !ValidDigest(b.definition) || !ValidPurpose(b.binding.purpose)
    then Some(InvalidAdmissionOrPhase)
    else if b.roster != roster then Some(AdmissionRosterMismatch)
    else if !SameRun(first, b) then Some(MixedAdmissionOrPhase)
    else None
  }

  lemma BindingExactly(stimulus: Digest, envelope: Digest, roster: seq<Candidate>, first: Batch, b: Batch)
    ensures BindingRefusal(stimulus, envelope, roster, first, b).None? <==>
      && ValidCandidate(b.candidate) && b.binding.stimulus == stimulus && b.envelope == envelope
      && DistinctAdmissions(b.admissions) && |b.admissions| == |b.trials| && ValidDigest(b.binding.plan)
      && ValidDigest(b.capturePolicy) && ValidDigest(b.definition) && ValidPurpose(b.binding.purpose)
      && b.roster == roster && SameRun(first, b)
  {
    hide ValidCandidate, ValidDigest;
  }

  /** The checks on batch `i` are what makes it sound behind the earlier ones. */
  lemma RefusalExactly(stimulus: Digest, envelope: Digest, roster: seq<Candidate>, batches: seq<Batch>, i: nat)
    requires i < |batches|
    ensures BatchRefusal(stimulus, envelope, roster, batches[..i], batches[i]).None?
            <==> Passes(stimulus, envelope, roster, batches, i)
  {
    hide BindingRefusal, EvidenceAndCandidateRefusal, Fits, SameRun, ValidCandidate, ValidDigest;
    var before := batches[..i];
    BindingExactly(stimulus, envelope, roster, batches[0], batches[i]);
    EvidenceAndCandidateExactly(roster, before, batches[i]);
    assert (if before == [] then batches[i] else before[0]) == batches[0];
  }

  /** The refusal of the first batch that is refused. */
  function FirstBatchRefusal(stimulus: Digest, envelope: Digest, roster: seq<Candidate>, batches: seq<Batch>, i: nat): Option<MapError>
    requires i <= |batches|
    decreases |batches| - i
  {
    if i == |batches| then None
    else OrElse(BatchRefusal(stimulus, envelope, roster, batches[..i], batches[i]),
                FirstBatchRefusal(stimulus, envelope, roster, batches, i + 1))
  }

  ghost predicate SoundSoFar(stimulus: Digest, envelope: Digest, roster: seq<Candidate>, batches: seq<Batch>, i: nat)
    requires i <= |batches|
  {
    && (forall k :: 0 <= k < i ==> BoundBatch(stimulus, envelope, roster, batches[k]) && CleanBatch(batches[k]))
    && (forall k :: 0 <= k < i ==> SameRun(batches[0], batches[k]))
    && (forall k, j :: 0 <= k < j < i ==> ApartBatches(batches[k], batches[j]))
  }

  /** What the constructor asks of its arguments. */
  ghost predicate Acceptable(stimulus: Digest, envelope: Digest, expected: seq<Candidate>, batches: seq<Batch>)
  {
    && ValidDigest(stimulus) && ValidDigest(envelope) && 2 <= |expected| <= 4 && NoRepeats(expected)
    && (forall c <- expected :: ValidCandidate(c))
    && SoundBatches(stimulus, envelope, SortBy(expected, Itself), batches)
  }

  /** Which refusal is given, check by check. */
  ghost predicate MapRefused(stimulus: Digest, envelope: Digest, expected: seq<Candidate>, batches: seq<Batch>, e: MapError)
  {
    var roster := SortBy(expected, Itself);
    if !ValidDigest(stimulus) || !ValidDigest(envelope) then e == InvalidIdentity
    else if |expected| < 2 || |expected| > 4 then e == InvalidExpectedRoster
    else if RosterRefusal(roster, 0).Some? then
      e == if RosterRefusal(roster, 0) == Some(DuplicateCandidate) then DuplicateCandidateKey else InvalidExpectedRoster
    else if |batches| != |roster| then e == RosterBatchMismatch
    else FirstBatchRefusal(stimulus, envelope, roster, batches, 0) == Some(e)
  }

  /** The map is built exactly from sound batches over a roster of two to four distinct candidates. */
  method NewCandidateOutcomeMap(stimulus: Digest, envelope: Digest, expected: seq<Candidate>, batches: seq<Batch>)
    returns (result: Result<CandidateOutcomeMap, MapError>)
    ensures result.Ok? <==> Acceptable(stimulus, envelope, expected, batches)
    ensures result.Err? ==> MapRefused(stimulus, envelope, expected, batches, result.error)
    ensures result.Ok? ==> batches != [] && result.value == MapOf(stimulus, envelope, SortBy(expected, Itself), batches)
  {
    hide ValidDigest, ValidCandidate, SortBy, SoundBatches, MapOf;
    if !ValidDigest(stimulus) || !ValidDigest(envelope) {
      return Err(InvalidIdentity);
    }
    if |expected| < 2 || |expected| > 4 {
      return Err(InvalidExpectedRoster);
    }
    var roster := CanonicalRoster(expected);
    if roster.Err? {
      return Err(if roster.error == DuplicateCandidate then DuplicateCandidateKey else InvalidExpectedRoster);
    }
    SortByCorrect(expected, Itself);
    result := CollectBatches(stimulus, envelope, roster.value, batches);
  }

  method CollectBatches(stimulus: Digest, envelope: Digest, roster: seq<Candidate>, batches: seq<Batch>)
    returns (result: Result<CandidateOutcomeMap, MapError>)
    requires roster != []
    ensures result.Ok? <==> SoundBatches(stimulus, envelope, roster, batches)
    ensures result.Err? ==> if |batches| != |roster| then result.error == RosterBatchMismatch
                            else FirstBatchRefusal(stimulus, envelope, roster, batches, 0) == Some(result.error)
    ensures result.Ok? ==> batches != [] && result.value == MapOf(stimulus, envelope, roster, batches)
  {
    hide BindingRefusal, EvidenceAndCandidateRefusal, BoundBatch, CleanBatch, SameRun, ApartBatches, Reached, SoundBatches, SoundSoFar,
      Fits, Passes;
    if |batches| != |roster| {
      SizeMismatch(stimulus, envelope, roster, batches);
      return Err(RosterBatchMismatch);
    }
    var p := Progress({}, [], [], [], [], []);
    NothingReached(stimulus, envelope, roster, batches);
    for i := 0 to |batches|
      invariant Reached(p, batches[..i]) && SoundSoFar(stimulus, envelope, roster, batches, i)
      invariant FirstBatchRefusal(stimulus, envelope, roster, batches, 0) == FirstBatchRefusal(stimulus, envelope, roster, batches, i)
    {
      var b := batches[i];
      assert batches[..i + 1] == batches[..i] + [b];
      RefusalExactly(stimulus, envelope, roster, batches, i);
      OneMoreBatch(stimulus, envelope, roster, batches, i);
      var refusal := BindingRefusal(stimulus, envelope, roster, if i == 0 then b else batches[0], b);
      if refusal.Some? {
        return Err(refusal.value);
      }
      var next := AddBatch(roster, batches[..i], b, p);
      if next.Err? {
        return Err(next.error);
      }
      p := next.value;
    }
    assert batches[..|batches|] == batches;
    AllSound(stimulus, envelope, roster, batches);
    var m := FinishMap(stimulus, envelope, roster, batches, p);
    return Ok(m);
  }

  method FinishMap(stimulus: Digest, envelope: Digest, roster: seq<Candidate>, batches: seq<Batch>, p: Progress)
    returns (m: CandidateOutcomeMap)
    requires batches != [] && Reached(p, batches)
    ensures m == MapOf(stimulus, envelope, roster, batches)
  {
    hide SortBy, Flatten, EntriesOf, ExclusionsOf;
    var b := batches[0];
    m := CandidateOutcomeMap(
      b.binding.plan, stimulus, envelope, b.capturePolicy, b.definition, b.admissions, b.basis, b.binding.purpose,
      b.schedule, roster, SortBy(p.entries, EntryKey), SortBy(p.exclusions, ExclusionKey),
      SortBy(p.attempts, Itself), SortBy(p.worlds, Itself), SortBy(p.observations, Itself));
  }

  lemma SizeMismatch(stimulus: Digest, envelope: Digest, roster: seq<Candidate>, batches: seq<Batch>)
    requires |batches| != |roster|
    ensures !SoundBatches(stimulus, envelope, roster, batches)
  {
  }

  lemma NothingReached(stimulus: Digest, envelope: Digest, roster: seq<Candidate>, batches: seq<Batch>)
    ensures Reached(Progress({}, [], [], [], [], []), []) && SoundSoFar(stimulus, envelope, roster, batches, 0)
    ensures batches[..0] == []
  {
  }

  /** The checks on batch `i` decide whether the batches up to it are sound. */
  ghost predicate Passes(stimulus: Digest, envelope: Digest, roster: seq<Candidate>, batches: seq<Batch>, i: nat)
    requires i < |batches|
  {
    && BoundBatch(stimulus, envelope, roster, batches[i]) && SameRun(batches[0], batches[i])
    && Fits(batches[..i], batches[i])
  }

  lemma PassesOnward(stimulus: Digest, envelope: Digest, roster: seq<Candidate>, batches: seq<Batch>, i: nat)
    requires i < |batches| && SoundSoFar(stimulus, envelope, roster, batches, i)
    requires Passes(stimulus, envelope, roster, batches, i)
    ensures SoundSoFar(stimulus, envelope, roster, batches, i + 1)
  {
    hide BoundBatch, CleanBatch, SameRun, ApartBatches;
    assert forall k :: 0 <= k < i ==> batches[..i][k] == batches[k] && batches[k] in batches[..i];
  }

  lemma SoundPasses(stimulus: Digest, envelope: Digest, roster: seq<Candidate>, batches: seq<Batch>, i: nat)
    requires i < |batches| && SoundBatches(stimulus, envelope, roster, batches)
    ensures Passes(stimulus, envelope, roster, batches, i)
  {
    hide BoundBatch, CleanBatch, SameRun, ApartBatches;
    assert batches[i] in batches && batches[0] in batches;
  }

  lemma OneMoreBatch(stimulus: Digest, envelope: Digest, roster: seq<Candidate>, batches: seq<Batch>, i: nat)
    requires i < |batches| && SoundSoFar(stimulus, envelope, roster, batches, i)
    ensures Passes(stimulus, envelope, roster, batches, i) ==> SoundSoFar(stimulus, envelope, roster, batches, i + 1)
    ensures !Passes(stimulus, envelope, roster, batches, i) ==> !SoundBatches(stimulus, envelope, roster, batches)
  {
    hide SoundSoFar, SoundBatches, Passes;
    if Passes(stimulus, envelope, roster, batches, i) {
      PassesOnward(stimulus, envelope, roster, batches, i);
    }
    if SoundBatches(stimulus, envelope, roster, batches) {
      SoundPasses(stimulus, envelope, roster, batches, i);
    }
  }

  lemma AllSound(stimulus: Digest, envelope: Digest, roster: seq<Candidate>, batches: seq<Batch>)
    requires |batches| == |roster| && SoundSoFar(stimulus, envelope, roster, batches, |batches|)
    ensures SoundBatches(stimulus, envelope, roster, batches)
  {
    hide BoundBatch, CleanBatch, ApartBatches;
  }

  // ------------------------------------------------------------ order independence

  lemma SoundDistinct(stimulus: Digest, envelope: Digest, roster: seq<Candidate>, batches: seq<Batch>)
    requires SoundBatches(stimulus, envelope, roster, batches)
    ensures DistinctKeys(batches, BatchCandidate)
  {
    forall i, j | 0 <= i < j < |batches| ensures BatchCandidate(batches[i]) != BatchCandidate(batches[j]) {
      assert ApartBatches(batches[i], batches[j]);
    }
  }

  lemma SoundPermutes(stimulus: Digest, envelope: Digest, roster: seq<Candidate>, batches: seq<Batch>, other: seq<Batch>)
    requires multiset(batches) == multiset(other) && SoundBatches(stimulus, envelope, roster, batches)
    ensures SoundBatches(stimulus, envelope, roster, other)
  {
    hide BoundBatch, CleanBatch, SameRun;
    SoundDistinct(stimulus, envelope, roster, batches);
    DistinctKeysPermute(batches, other, BatchCandidate);
    SameElements(batches, other);
    forall i, j | 0 <= i < j < |other| ensures ApartBatches(other[i], other[j]) {
      assert BatchCandidate(other[i]) != BatchCandidate(other[j]);
      assert other[i] in batches && other[j] in batches;
      ApartInAnyOrder(batches, other[i], other[j]);
    }
  }

  lemma ApartInAnyOrder(batches: seq<Batch>, a: Batch, b: Batch)
    requires forall i, j :: 0 <= i < j < |batches| ==> ApartBatches(batches[i], batches[j])
    requires a in batches && b in batches && a != b
    ensures ApartBatches(a, b)
  {
    var i :| 0 <= i < |batches| && batches[i] == a;
    var j :| 0 <= j < |batches| && batches[j] == b;
    if j < i {
      assert ApartBatches(b, a);
      ApartIsSymmetric(b, a);
    }
  }

  lemma ApartIsSymmetric(a: Batch, b: Batch)
    requires ApartBatches(a, b)
    ensures ApartBatches(b, a)
  {
  }

  /** Evidence collected from pairwise apart batches has no repeats. */
  lemma {:induction false} FlattenDistinct(batches: seq<Batch>, f: Batch -> seq<Digest>)
    requires forall b <- batches :: NoRepeats(f(b))
    requires forall i, j :: 0 <= i < j < |batches| ==> DisjointLists(f(batches[i]), f(batches[j]))
    ensures DistinctKeys(Flatten(batches, f), Itself)
  {
    if batches != [] {
      var last := |batches| - 1;
      var front, tail := batches[..last], f(batches[last]);
      assert forall b <- front :: b in batches;
      FlattenDistinct(front, f);
      assert batches[last] in batches;
      var all := Flatten(front, f);
      forall d <- tail ensures d !in all {
        FlattenHolds(front, f, d);
      }
      forall i, j | 0 <= i < j < |all + tail| ensures Itself((all + tail)[i]) != Itself((all + tail)[j]) {
        if j < |all| {
          assert Itself(all[i]) != Itself(all[j]);
        } else if i < |all| {
          assert tail[j - |all|] in tail && all[i] in all;
        }
      }
    }
  }

  lemma FlattenPermutes(batches: seq<Batch>, other: seq<Batch>, f: Batch -> seq<Digest>)
    requires forall b :: b in batches <==> b in other
    requires DistinctKeys(Flatten(batches, f), Itself) && DistinctKeys(Flatten(other, f), Itself)
    ensures SortBy(Flatten(batches, f), Itself) == SortBy(Flatten(other, f), Itself)
  {
    hide Flatten;
    forall d ensures d in Flatten(batches, f) <==> d in Flatten(other, f) {
      FlattenHolds(batches, f, d);
      FlattenHolds(other, f, d);
    }
    SortSameElements(Flatten(batches, f), Flatten(other, f), Itself);
  }

  lemma SoundFlattens(stimulus: Digest, envelope: Digest, roster: seq<Candidate>, batches: seq<Batch>)
    requires SoundBatches(stimulus, envelope, roster, batches)
    ensures DistinctKeys(Flatten(batches, Attempts), Itself) && DistinctKeys(Flatten(batches, Worlds), Itself)
    ensures DistinctKeys(Flatten(batches, Observed), Itself)
  {
    hide BoundBatch, SameRun, NoRepeats, DisjointLists;
    FlattenDistinct(batches, Attempts);
    FlattenDistinct(batches, Worlds);
    FlattenDistinct(batches, Observed);
  }

  /** Entries are the stable batches, exclusions the others. */
  lemma {:induction false} EntriesHold(batches: seq<Batch>)
    ensures forall e :: e in EntriesOf(batches) <==>
      exists b <- batches :: b.classification.status.ObservedStable? && e == EntryOf(b)
    ensures forall x :: x in ExclusionsOf(batches) <==>
      exists b <- batches :: !b.classification.status.ObservedStable? && x == ExclusionOf(b)
  {
    if batches != [] {
      var last := |batches| - 1;
      assert batches == batches[..last] + [batches[last]];
      EntriesHold(batches[..last]);
    }
  }

  lemma {:induction false} EntriesDistinct(batches: seq<Batch>)
    requires DistinctKeys(batches, BatchCandidate)
    ensures DistinctKeys(EntriesOf(batches), EntryKey) && DistinctKeys(ExclusionsOf(batches), ExclusionKey)
  {
    if batches != [] {
      var last := |batches| - 1;
      var front := batches[..last];
      EntriesDistinct(front);
      EntriesHold(front);
      assert forall i :: 0 <= i < last ==> BatchCandidate(batches[i]) != BatchCandidate(batches[last]);
      assert forall e <- EntriesOf(front) :: EntryKey(e) != batches[last].candidate;
      assert forall x <- ExclusionsOf(front) :: ExclusionKey(x) != batches[last].candidate;
      LastDistinct(EntriesOf(front), EntryKey, EntriesOf(batches), batches[last].candidate);
      LastDistinct(ExclusionsOf(front), ExclusionKey, ExclusionsOf(batches), batches[last].candidate);
    }
  }

  lemma LastDistinct<T>(front: seq<T>, key: T -> bytes, all: seq<T>, c: Candidate)
    requires DistinctKeys(front, key) && forall e <- front :: key(e) != c
    requires all == front || (|all| == |front| + 1 && all[..|front|] == front && key(all[|front|]) == c)
    ensures DistinctKeys(all, key)
  {
    if all != front {
      forall i, j | 0 <= i < j < |all| ensures key(all[i]) != key(all[j]) {
        assert all[i] == all[..|front|][i] && front[i] in front;
        if j < |front| {
          assert all[j] == all[..|front|][j];
        }
      }
    }
  }

  /** The order of the batches does not matter: the same map is built, or none. */
  lemma MapOrderIndependent(stimulus: Digest, envelope: Digest, roster: seq<Candidate>, batches: seq<Batch>, other: seq<Batch>)
    requires multiset(batches) == multiset(other) && batches != []
    ensures SoundBatches(stimulus, envelope, roster, batches) <==> SoundBatches(stimulus, envelope, roster, other)
    ensures other != []
    ensures SoundBatches(stimulus, envelope, roster, batches) ==>
      MapOf(stimulus, envelope, roster, batches) == MapOf(stimulus, envelope, roster, other)
  {
    hide SoundBatches, SortBy, EntriesOf, ExclusionsOf, Flatten;
    SameElements(batches, other);
    if SoundBatches(stimulus, envelope, roster, batches) {
      SoundPermutes(stimulus, envelope, roster, batches, other);
      SameLists(stimulus, envelope, roster, batches, other);
      FirstAgrees(stimulus, envelope, roster, batches, other[0]);
    }
    if SoundBatches(stimulus, envelope, roster, other) {
      SoundPermutes(stimulus, envelope, roster, other, batches);
    }
  }

  lemma FirstAgrees(stimulus: Digest, envelope: Digest, roster: seq<Candidate>, batches: seq<Batch>, b: Batch)
    requires SoundBatches(stimulus, envelope, roster, batches) && b in batches
    ensures SameRun(batches[0], b)
  {
    assert batches[0] in batches;
  }

  lemma SameLists(stimulus: Digest, envelope: Digest, roster: seq<Candidate>, batches: seq<Batch>, other: seq<Batch>)
    requires SoundBatches(stimulus, envelope, roster, batches) && SoundBatches(stimulus, envelope, roster, other)
    requires forall b :: b in batches <==> b in other
    ensures SortBy(EntriesOf(batches), EntryKey) == SortBy(EntriesOf(other), EntryKey)
    ensures SortBy(ExclusionsOf(batches), ExclusionKey) == SortBy(ExclusionsOf(other), ExclusionKey)
    ensures SortBy(Flatten(batches, Attempts), Itself) == SortBy(Flatten(other, Attempts), Itself)
    ensures SortBy(Flatten(batches, Worlds), Itself) == SortBy(Flatten(other, Worlds), Itself)
    ensures SortBy(Flatten(batches, Observed), Itself) == SortBy(Flatten(other, Observed), Itself)
  {
    hide SoundBatches, SortBy, EntriesOf, ExclusionsOf, Flatten;
    SoundFlattens(stimulus, envelope, roster, batches);
    SoundFlattens(stimulus, envelope, roster, other);
    FlattenPermutes(batches, other, Attempts);
    FlattenPermutes(batches, other, Worlds);
    FlattenPermutes(batches, other, Observed);
    SoundDistinct(stimulus, envelope, roster, batches);
    SoundDistinct(stimulus, envelope, roster, other);
    EntriesDistinct(batches);
    EntriesDistinct(other);
    EntriesHold(batches);
    EntriesHold(other);
    SortSameElements(EntriesOf(batches), EntriesOf(other), EntryKey);
    SortSameElements(ExclusionsOf(batches), ExclusionsOf(other), ExclusionKey);
  }

  // -------------------------------------------------------- entries and exclusions

  /** Every candidate of the roster is an entry or an exclusion, and not both: an entry exactly when its
      batch is stable. */
  lemma RosterPartitioned(stimulus: Digest, envelope: Digest, roster: seq<Candidate>, batches: seq<Batch>, c: Candidate)
    requires SoundBatches(stimulus, envelope, roster, batches) && NoRepeats(roster) && batches != []
    ensures var m := MapOf(stimulus, envelope, roster, batches);
            && (c in roster <==> (exists e <- m.entries :: e.candidate == c) || (exists x <- m.exclusions :: x.candidate == c))
            && !((exists e <- m.entries :: e.candidate == c) && (exists x <- m.exclusions :: x.candidate == c))
  {
    hide SortBy, EntriesOf, ExclusionsOf, Flatten, ApartBatches, SoundBatches;
    EntriesHold(batches);
    SortByCorrect(EntriesOf(batches), EntryKey);
    SortByCorrect(ExclusionsOf(batches), ExclusionKey);
    SoundDistinct(stimulus, envelope, roster, batches);
    BatchesCoverRoster(stimulus, envelope, roster, batches);
    Split(batches, c);
  }

  lemma Split(batches: seq<Batch>, c: Candidate)
    requires DistinctKeys(batches, BatchCandidate)
    ensures (exists b <- batches :: b.candidate == c) <==>
      (exists e <- EntriesOf(batches) :: e.candidate == c) || (exists x <- ExclusionsOf(batches) :: x.candidate == c)
    ensures !((exists e <- EntriesOf(batches) :: e.candidate == c) && (exists x <- ExclusionsOf(batches) :: x.candidate == c))
  {
    hide EntriesOf, ExclusionsOf;
    EntriesHold(batches);
    if b :| b in batches && b.candidate == c {
      if b.classification.status.ObservedStable? {
        assert EntryOf(b) in EntriesOf(batches);
      } else {
        assert ExclusionOf(b) in ExclusionsOf(batches);
      }
    }
    forall a <- batches, b <- batches | a.candidate == b.candidate ensures a == b {
      var i :| 0 <= i < |batches| && batches[i] == a;
      var j :| 0 <= j < |batches| && batches[j] == b;
      assert BatchCandidate(batches[i]) == BatchCandidate(batches[j]);
    }
  }

  /** As many batches as candidates, all different: nobody is missing. */
  lemma BatchesCoverRoster(stimulus: Digest, envelope: Digest, roster: seq<Candidate>, batches: seq<Batch>)
    requires SoundBatches(stimulus, envelope, roster, batches) && NoRepeats(roster)
    ensures forall c :: c in roster <==> exists b <- batches :: b.candidate == c
    ensures CandidateSet(batches) == SetOf(roster)
  {
    hide ApartBatches, CleanBatch, SameRun;
    SoundDistinct(stimulus, envelope, roster, batches);
    CandidatesCounted(batches);
    RosterCounted(roster);
    assert CandidateSet(batches) <= SetOf(roster);
    SubsetSize(CandidateSet(batches), SetOf(roster));
    assert forall c :: c in roster <==> c in CandidateSet(batches);
  }

  function CandidateSet(batches: seq<Batch>): set<Candidate>
  {
    set b <- batches :: b.candidate
  }

  lemma {:induction false} CandidatesCounted(batches: seq<Batch>)
    requires DistinctKeys(batches, BatchCandidate)
    ensures |CandidateSet(batches)| == |batches|
  {
    if batches != [] {
      var last := |batches| - 1;
      CandidatesCounted(batches[..last]);
      assert batches == batches[..last] + [batches[last]];
      assert CandidateSet(batches) == CandidateSet(batches[..last]) + {batches[last].candidate};
      assert forall i :: 0 <= i < last ==> BatchCandidate(batches[i]) != BatchCandidate(batches[last]);
    }
  }

  lemma {:induction false} RosterCounted(roster: seq<Candidate>)
    requires NoRepeats(roster)
    ensures |SetOf(roster)| == |roster|
  {
    if roster != [] {
      var last := |roster| - 1;
      RosterCounted(roster[..last]);
      assert roster == roster[..last] + [roster[last]];
      assert SetOf(roster) == SetOf(roster[..last]) + {roster[last]};
    }
  }

  // -------------------------------------------------------------- preservation

  datatype Relation = Unresolved | Preserves | Changes

  datatype Label = Label(candidate: Candidate, fingerprint: Fingerprint)

  /** The preservation digest covers exactly these labels. */
  function Labels(entries: seq<Entry>): (r: seq<Label>)
    ensures |r| == |entries| && forall i :: 0 <= i < |r| ==> r[i] == Label(entries[i].candidate, entries[i].fingerprint)
  {
    seq(|entries|, i requires 0 <= i < |entries| => Label(entries[i].candidate, entries[i].fingerprint))
  }

  /** `ComparableForPreservation`: same policy, roster and dispositions. */
  predicate Comparable(a: CandidateOutcomeMap, b: CandidateOutcomeMap)
  {
    && a.plan == b.plan && a.envelope == b.envelope && a.basis == b.basis && a.roster == b.roster
    && |a.entries| == |b.entries| && |a.exclusions| == |b.exclusions|
    && (forall i :: 0 <= i < |a.entries| ==> a.entries[i].candidate == b.entries[i].candidate)
    && (forall i :: 0 <= i < |a.exclusions| ==>
          a.exclusions[i].candidate == b.exclusions[i].candidate && a.exclusions[i].disposition == b.exclusions[i].disposition)
  }

  method ComparableForPreservation(a: CandidateOutcomeMap, b: CandidateOutcomeMap) returns (same: bool)
    ensures same <==> Comparable(a, b)
  {
    if a.plan != b.plan || a.envelope != b.envelope || a.basis != b.basis || a.roster != b.roster
       || |a.entries| != |b.entries| || |a.exclusions| != |b.exclusions| {
      return false;
    }
    for i := 0 to |a.entries|
      invariant forall k :: 0 <= k < i ==> a.entries[k].candidate == b.entries[k].candidate
    {
      if a.entries[i].candidate != b.entries[i].candidate {
        return false;
      }
    }
    for i := 0 to |a.exclusions|
      invariant forall k :: 0 <= k < i ==>
        a.exclusions[k].candidate == b.exclusions[k].candidate && a.exclusions[k].disposition == b.exclusions[k].disposition
    {
      if a.exclusions[i].candidate != b.exclusions[i].candidate || a.exclusions[i].disposition != b.exclusions[i].disposition {
        return false;
      }
    }
    return true;
  }

  /** `AssessPreservation` on built maps, whose digests are valid. */
  function Assess(a: CandidateOutcomeMap, b: CandidateOutcomeMap): Relation
  {
    if !Comparable(a, b) then Unresolved else if Labels(a.entries) == Labels(b.entries) then Preserves else Changes
  }

  /** The fingerprints of the entries, by candidate. */
  ghost predicate SameFingerprints(a: CandidateOutcomeMap, b: CandidateOutcomeMap)
  {
    forall e <- a.entries, d <- b.entries :: e.candidate == d.candidate ==> e.fingerprint == d.fingerprint
  }

  /** For comparable built maps PRESERVES means exactly that every eligible candidate kept its own
      fingerprint, however the fingerprints group. */
  lemma PreservesExactly(a: CandidateOutcomeMap, b: CandidateOutcomeMap)
    requires StrictlySorted(a.entries, EntryKey)
    ensures Assess(a, b) == Preserves <==> Comparable(a, b) && SameFingerprints(a, b)
    ensures Assess(a, b) == Changes <==> Comparable(a, b) && !SameFingerprints(a, b)
  {
    hide Less;
    if Comparable(a, b) {
      if Labels(a.entries) == Labels(b.entries) {
        LabelsGiveFingerprints(a, b);
      }
      if SameFingerprints(a, b) {
        FingerprintsGiveLabels(a, b);
      }
    }
  }

  lemma FingerprintsGiveLabels(a: CandidateOutcomeMap, b: CandidateOutcomeMap)
    requires Comparable(a, b) && SameFingerprints(a, b)
    ensures Labels(a.entries) == Labels(b.entries)
  {
    assert forall i :: 0 <= i < |a.entries| ==> a.entries[i] in a.entries && b.entries[i] in b.entries;
  }

  lemma LabelsGiveFingerprints(a: CandidateOutcomeMap, b: CandidateOutcomeMap)
    requires StrictlySorted(a.entries, EntryKey) && Labels(a.entries) == Labels(b.entries)
    ensures SameFingerprints(a, b)
  {
    hide Less, StrictlySorted;
    StrictIsDistinct(a.entries, EntryKey);
    forall e <- a.entries, d <- b.entries | e.candidate == d.candidate ensures e.fingerprint == d.fingerprint {
      var i :| 0 <= i < |a.entries| && a.entries[i] == e;
      var j :| 0 <= j < |b.entries| && b.entries[j] == d;
      assert Labels(a.entries)[i] == Label(e.candidate, e.fingerprint);
      assert Labels(a.entries)[j] == Labels(b.entries)[j] == Label(d.candidate, d.fingerprint);
      assert EntryKey(a.entries[i]) == EntryKey(a.entries[j]);
      assert i == j;
    }
  }

  /** PRESERVES is an equivalence relation. */
  lemma PreservesIsEquivalence(a: CandidateOutcomeMap, b: CandidateOutcomeMap, c: CandidateOutcomeMap)
    ensures Assess(a, a) == Preserves
    ensures Assess(a, b) == Preserves ==> Assess(b, a) == Preserves
    ensures Assess(a, b) == Preserves && Assess(b, c) == Preserves ==> Assess(a, c) == Preserves
  {
  }

  // --------------------------------------------- preservation between built maps

  datatype Mark = Mark(candidate: Candidate, disposition: Disposition)

  function Marks(exclusions: seq<Exclusion>): (r: seq<Mark>)
    ensures |r| == |exclusions| && forall i :: 0 <= i < |r| ==> r[i] == Mark(exclusions[i].candidate, exclusions[i].disposition)
  {
    seq(|exclusions|, i requires 0 <= i < |exclusions| => Mark(exclusions[i].candidate, exclusions[i].disposition))
  }

  function LabelKey(l: Label): bytes { l.candidate }

  function MarkKey(m: Mark): bytes { m.candidate }

  /** The lists of a built map are sorted by candidate, each once. */
  lemma BuiltListsSorted(stimulus: Digest, envelope: Digest, roster: seq<Candidate>, batches: seq<Batch>)
    requires SoundBatches(stimulus, envelope, roster, batches) && batches != []
    ensures StrictlySorted(Labels(MapOf(stimulus, envelope, roster, batches).entries), LabelKey)
    ensures StrictlySorted(Marks(MapOf(stimulus, envelope, roster, batches).exclusions), MarkKey)
  {
    hide SoundBatches, SortBy, EntriesOf, Flatten, ExclusionsOf, Less;
    SoundDistinct(stimulus, envelope, roster, batches);
    EntriesDistinct(batches);
    SortByPermutation(EntriesOf(batches), EntriesOf(batches), EntryKey);
    SortByPermutation(ExclusionsOf(batches), ExclusionsOf(batches), ExclusionKey);
    KeysStaySorted(SortBy(EntriesOf(batches), EntryKey), SortBy(ExclusionsOf(batches), ExclusionKey));
  }

  lemma KeysStaySorted(entries: seq<Entry>, exclusions: seq<Exclusion>)
    requires StrictlySorted(entries, EntryKey) && StrictlySorted(exclusions, ExclusionKey)
    ensures StrictlySorted(Labels(entries), LabelKey) && StrictlySorted(Marks(exclusions), MarkKey)
  {
    hide Less;
    assert forall i :: 0 <= i < |entries| ==> LabelKey(Labels(entries)[i]) == EntryKey(entries[i]);
    assert forall i :: 0 <= i < |exclusions| ==> MarkKey(Marks(exclusions)[i]) == ExclusionKey(exclusions[i]);
  }

  /** A stable batch with its fingerprint. */
  predicate Labelled(b: Batch, l: Label)
  {
    b.classification.status.ObservedStable? && l == Label(b.candidate, b.classification.status.fingerprint)
  }

  predicate Marked(b: Batch, m: Mark)
  {
    !b.classification.status.ObservedStable? && m == Mark(b.candidate, ExclusionOf(b).disposition)
  }

  /** The labels are those of the stable batches, the marks those of the others. */
  ghost predicate Lists(batches: seq<Batch>, labels: seq<Label>, marks: seq<Mark>)
  {
    && (forall l :: l in labels <==> exists b <- batches :: Labelled(b, l))
    && (forall m :: m in marks <==> exists b <- batches :: Marked(b, m))
  }

  lemma BuiltListsHold(stimulus: Digest, envelope: Digest, roster: seq<Candidate>, batches: seq<Batch>)
    requires batches != []
    ensures var m := MapOf(stimulus, envelope, roster, batches); Lists(batches, Labels(m.entries), Marks(m.exclusions))
  {
    hide SortBy, EntriesOf, Flatten, ExclusionsOf, Labels, Marks;
    EntriesHold(batches);
    SortByCorrect(EntriesOf(batches), EntryKey);
    SortByCorrect(ExclusionsOf(batches), ExclusionKey);
    var entries, exclusions := SortBy(EntriesOf(batches), EntryKey), SortBy(ExclusionsOf(batches), ExclusionKey);
    forall l ensures l in Labels(entries) <==> exists b <- batches :: Labelled(b, l) {
      LabelFrom(entries, l);
      if b :| b in batches && Labelled(b, l) {
        assert EntryOf(b) in entries;
      }
    }
    forall m ensures m in Marks(exclusions) <==> exists b <- batches :: Marked(b, m) {
      MarkFrom(exclusions, m);
      if b :| b in batches && Marked(b, m) {
        assert ExclusionOf(b) in exclusions;
      }
    }
  }

  lemma LabelFrom(entries: seq<Entry>, l: Label)
    ensures l in Labels(entries) <==> exists e <- entries :: l == Label(e.candidate, e.fingerprint)
  {
    if e :| e in entries && l == Label(e.candidate, e.fingerprint) {
      var i :| 0 <= i < |entries| && entries[i] == e;
      assert Labels(entries)[i] == l;
    }
  }

  lemma MarkFrom(exclusions: seq<Exclusion>, m: Mark)
    ensures m in Marks(exclusions) <==> exists x <- exclusions :: m == Mark(x.candidate, x.disposition)
  {
    if x :| x in exclusions && m == Mark(x.candidate, x.disposition) {
      var i :| 0 <= i < |exclusions| && exclusions[i] == x;
      assert Marks(exclusions)[i] == m;
    }
  }

  datatype Verdict = Kept(fingerprint: Fingerprint) | Dropped(disposition: Disposition)

  /** What the map says of a batch's candidate. */
  function VerdictOf(b: Batch): Verdict
  {
    if b.classification.status.ObservedStable? then Kept(b.classification.status.fingerprint) else Dropped(ExclusionOf(b).disposition)
  }

  predicate SameVerdicts(batches: seq<Batch>, other: seq<Batch>)
  {
    forall a <- batches, b <- other :: a.candidate == b.candidate ==> VerdictOf(a) == VerdictOf(b)
  }

  /** Two runs' maps PRESERVE each other exactly when plan, envelope, basis and roster agree and every
      candidate has the same verdict in both. */
  lemma BuiltPreservesExactly(stimulus: Digest, envelope: Digest, roster: seq<Candidate>, batches: seq<Batch>,
                              stimulus2: Digest, envelope2: Digest, roster2: seq<Candidate>, other: seq<Batch>)
    requires SoundBatches(stimulus, envelope, roster, batches) && NoRepeats(roster) && batches != []
    requires SoundBatches(stimulus2, envelope2, roster2, other) && NoRepeats(roster2) && other != []
    ensures Assess(MapOf(stimulus, envelope, roster, batches), MapOf(stimulus2, envelope2, roster2, other)) == Preserves <==>
      && envelope == envelope2 && roster == roster2 && batches[0].binding.plan == other[0].binding.plan
      && batches[0].basis == other[0].basis && SameVerdicts(batches, other)
  {
    hide SoundBatches, MapOf, Labels, Marks, SameVerdicts, Lists;
    var a, b := MapOf(stimulus, envelope, roster, batches), MapOf(stimulus2, envelope2, roster2, other);
    MapFields(stimulus, envelope, roster, batches);
    MapFields(stimulus2, envelope2, roster2, other);
    BuiltListsSorted(stimulus, envelope, roster, batches);
    BuiltListsSorted(stimulus2, envelope2, roster2, other);
    BuiltListsHold(stimulus, envelope, roster, batches);
    BuiltListsHold(stimulus2, envelope2, roster2, other);
    PreservesByLists(a, b);
    if roster == roster2 {
      SoundDistinct(stimulus2, envelope2, roster2, other);
      BatchesCoverRoster(stimulus, envelope, roster, batches);
      BatchesCoverRoster(stimulus2, envelope2, roster2, other);
      VerdictsByLists(batches, other, Labels(a.entries), Labels(b.entries), Marks(a.exclusions), Marks(b.exclusions));
    }
  }

  lemma MapFields(stimulus: Digest, envelope: Digest, roster: seq<Candidate>, batches: seq<Batch>)
    requires batches != []
    ensures var m := MapOf(stimulus, envelope, roster, batches);
            && m.envelope == envelope && m.roster == roster && m.plan == batches[0].binding.plan && m.basis == batches[0].basis
  {
    hide SortBy, EntriesOf, Flatten, ExclusionsOf;
  }

  lemma PreservesByLists(a: CandidateOutcomeMap, b: CandidateOutcomeMap)
    ensures Assess(a, b) == Preserves <==>
      && a.plan == b.plan && a.envelope == b.envelope && a.basis == b.basis && a.roster == b.roster
      && Labels(a.entries) == Labels(b.entries) && Marks(a.exclusions) == Marks(b.exclusions)
  {
    if Labels(a.entries) == Labels(b.entries) && Marks(a.exclusions) == Marks(b.exclusions) {
      assert forall i :: 0 <= i < |a.entries| ==> Labels(a.entries)[i] == Labels(b.entries)[i];
      assert forall i :: 0 <= i < |a.exclusions| ==> Marks(a.exclusions)[i] == Marks(b.exclusions)[i];
    }
  }

  lemma VerdictsByLists(batches: seq<Batch>, other: seq<Batch>, la: seq<Label>, lb: seq<Label>, ma: seq<Mark>, mb: seq<Mark>)
    requires DistinctKeys(other, BatchCandidate) && CandidateSet(batches) == CandidateSet(other)
    requires Lists(batches, la, ma) && Lists(other, lb, mb)
    requires StrictlySorted(la, LabelKey) && StrictlySorted(lb, LabelKey) && StrictlySorted(ma, MarkKey) && StrictlySorted(mb, MarkKey)
    ensures SameVerdicts(batches, other) <==> la == lb && ma == mb
  {
    hide Less, StrictlySorted, DistinctKeys, VerdictOf, Lists, CandidateSet;
    if SameVerdicts(batches, other) {
      ListsIncluded(batches, other, la, lb, ma, mb);
      ListsIncluded(other, batches, lb, la, mb, ma);
      StrictlySortedUnique(la, lb, LabelKey);
      StrictlySortedUnique(ma, mb, MarkKey);
    } else if la == lb && ma == mb {
      forall a <- batches, b <- other | a.candidate == b.candidate ensures VerdictOf(a) == VerdictOf(b) {
        VerdictFromLists(batches, other, lb, mb, a, b);
      }
    }
  }

  lemma ListsIncluded(batches: seq<Batch>, other: seq<Batch>, la: seq<Label>, lb: seq<Label>, ma: seq<Mark>, mb: seq<Mark>)
    requires SameVerdicts(batches, other) || SameVerdicts(other, batches)
    requires CandidateSet(batches) == CandidateSet(other) && Lists(batches, la, ma) && Lists(other, lb, mb)
    ensures (forall l <- la :: l in lb) && forall m <- ma :: m in mb
  {
    forall l <- la ensures l in lb {
      var a :| a in batches && Labelled(a, l);
      var b := Counterpart(batches, other, a);
      assert Labelled(b, l);
    }
    forall m <- ma ensures m in mb {
      var a :| a in batches && Marked(a, m);
      var b := Counterpart(batches, other, a);
      assert Marked(b, m);
    }
  }

  lemma Counterpart(batches: seq<Batch>, other: seq<Batch>, a: Batch) returns (b: Batch)
    requires SameVerdicts(batches, other) || SameVerdicts(other, batches)
    requires CandidateSet(batches) == CandidateSet(other) && a in batches
    ensures b in other && b.candidate == a.candidate && VerdictOf(a) == VerdictOf(b)
  {
    hide VerdictOf;
    assert a.candidate in CandidateSet(batches);
    b :| b in other && b.candidate == a.candidate;
  }

  lemma VerdictFromLists(batches: seq<Batch>, other: seq<Batch>, labels: seq<Label>, marks: seq<Mark>, a: Batch, b: Batch)
    requires DistinctKeys(other, BatchCandidate) && a in batches && b in other && a.candidate == b.candidate
    requires Lists(batches, labels, marks) && Lists(other, labels, marks)
    ensures VerdictOf(a) == VerdictOf(b)
  {
    hide DistinctKeys;
    if a.classification.status.ObservedStable? {
      var l := Label(a.candidate, a.classification.status.fingerprint);
      assert Labelled(a, l);
      assert l in labels;
      var x :| x in other && Labelled(x, l);
      OneBatchEach(other, x, b);
    } else {
      var m := Mark(a.candidate, ExclusionOf(a).disposition);
      assert Marked(a, m);
      assert m in marks;
      var x :| x in other && Marked(x, m);
      OneBatchEach(other, x, b);
    }
  }

  lemma OneBatchEach(batches: seq<Batch>, a: Batch, b: Batch)
    requires DistinctKeys(batches, BatchCandidate) && a in batches && b in batches && a.candidate == b.candidate
    ensures a == b
  {
    var i :| 0 <= i < |batches| && batches[i] == a;
    var j :| 0 <= j < |batches| && batches[j] == b;
    assert BatchCandidate(batches[i]) == BatchCandidate(batches[j]);
  }
}
