/** `ClassifyScheduled` and `classifyBatch`: one candidate's admitted trials become a batch. */
module Classification {
  import opened Bytes
  import opened Domain
  import opened Schedule
  import opened Assessment
  import opened Eligibility

  datatype Status =
    | ObservedStable(fingerprint: Fingerprint)
    | Unstable(histogram: map<Fingerprint, nat>)
    | Uncomparable(reasons: set<Control>)
    | Incomplete

  datatype Classification = Classification(status: Status, eligible: nat, required: int)

  /** The digest of a batch is represented by the batch. */
  datatype Batch = Batch(
    schedule: Schedule, candidate: Candidate, binding: Binding, envelope: Digest, capturePolicy: Digest,
    definition: Digest, basis: Basis, roster: seq<Candidate>, admissions: seq<Admission>,
    ordinals: seq<int>, trials: seq<TrialFact>, observations: seq<Digest>, classification: Classification)

  // ---------------------------------------------------- refusals, in code order

  function HeaderRefusal(trials: seq<TrialFact>): Option<ObserveError>
    requires trials != []
  {
    var world := trials[0].world;
    if !ValidCandidate(world.candidate) || !ValidDigest(world.binding.plan) || !ValidDigest(world.binding.stimulus)
       || !ValidDigest(world.envelope) || !ValidDigest(world.capturePolicy) || !ValidDigest(world.definition)
       || !ValidPurpose(world.binding.purpose) then Some(InvalidBatchIdentity)
    else if world.binding.requiredTrials < 1 || world.binding.requiredTrials > 5 then Some(InvalidRepeatCount)
    else if |trials| > world.binding.requiredTrials then Some(ExtraTrials)
    else None
  }

  function OrdinalRefusal(trials: seq<TrialFact>, i: nat): Option<ObserveError>
    requires i < |trials|
  {
    var ordinal := trials[i].world.ordinal;
    if ordinal < 0 then Some(NegativeOrdinal)
    else if exists t <- trials[..i] :: t.world.ordinal == ordinal then Some(DuplicateOrdinal)
    else if i > 0 && ordinal <= trials[i - 1].world.ordinal then Some(UnorderedOrdinals)
    else None
  }

  function FirstOrdinalRefusal(trials: seq<TrialFact>, i: nat): Option<ObserveError>
    requires i <= |trials|
    decreases |trials| - i
  {
    if i == |trials| then None
    else if OrdinalRefusal(trials, i).Some? then OrdinalRefusal(trials, i)
    else FirstOrdinalRefusal(trials, i + 1)
  }

  /** The trial belongs to the batch that the first trial opens. */
  predicate SameBatch(first: TrialFact, t: TrialFact)
  {
    var a, w := t.token.admission, t.world;
    && w.candidate == first.world.candidate && w.binding == first.world.binding && w.envelope == first.world.envelope
    && w.capturePolicy == first.world.capturePolicy && w.definition == first.world.definition
    && a.envelope == w.envelope && a.binding == w.binding && BasisOf(a) == BasisOf(first.token.admission)
    && w.attempt == t.attempt.digest
  }

  function TrialRefusal(trials: seq<TrialFact>, i: nat): Option<ObserveError>
    requires i < |trials|
  {
    var first, t, before := trials[0], trials[i], trials[..i];
    if !ValidDigest(t.world.digest) || !ValidDigest(t.attempt.digest) then Some(InvalidTrialIdentity)
    else if !SameBatch(first, t) then Some(BatchLineageMismatch)
    else if i == 0 && t.world.candidate !in t.token.admission.roster then Some(NotInAdmission)
    else if t.token.admission.roster != first.token.admission.roster then Some(MixedRoster)
    else if exists b <- before :: b.attempt.digest == t.attempt.digest then Some(ReusedAttemptEvidence)
    else if exists b <- before :: b.world.digest == t.world.digest then Some(ReusedWorld)
    else if exists b <- before :: b.token.admission == t.token.admission then Some(ReusedAdmission)
    else if ObservationOf(t).Some? && !ValidDigest(ObservationOf(t).value) then Some(InvalidObservation)
    else if ObservationOf(t).Some? && exists b <- before :: ObservationOf(b) == ObservationOf(t) then Some(ReusedObservation)
    else if EligibilityOf(t).Ineligible? && exists c <- EligibilityOf(t).reasons :: c.OtherControl? then Some(InvalidControl)
    else None
  }

  function FirstTrialRefusal(trials: seq<TrialFact>, i: nat): Option<ObserveError>
    requires i <= |trials|
    decreases |trials| - i
  {
    if i == |trials| then None
    else if TrialRefusal(trials, i).Some? then TrialRefusal(trials, i)
    else FirstTrialRefusal(trials, i + 1)
  }

  function BatchRefusal(trials: seq<TrialFact>): Option<ObserveError>
  {
    if trials == [] then Some(MissingEvidence)
    else if HeaderRefusal(trials).Some? then HeaderRefusal(trials)
    else if FirstOrdinalRefusal(trials, 0).Some? then FirstOrdinalRefusal(trials, 0)
    else FirstTrialRefusal(trials, 0)
  }

  // ------------------------------------------------------------- the status

  /** The fingerprints of the eligible trials, in trial order. */
  function Fingerprints(trials: seq<TrialFact>): (r: seq<Fingerprint>)
    ensures |r| <= |trials|
  {
    if trials == [] then []
    else
      var last := |trials| - 1;
      Fingerprints(trials[..last])
      + if EligibilityOf(trials[last]).Eligible? then [EligibilityOf(trials[last]).fingerprint] else []
  }

  function TrialReasons(t: TrialFact): set<Control>
  {
    if EligibilityOf(t).Ineligible? then set c <- EligibilityOf(t).reasons else {}
  }

  function ReasonsOf(trials: seq<TrialFact>): set<Control>
  {
    if trials == [] then {} else ReasonsOf(trials[..|trials| - 1]) + TrialReasons(trials[|trials| - 1])
  }

  function Observations(trials: seq<TrialFact>): seq<Digest>
  {
    if trials == [] then []
    else
      var last := |trials| - 1;
      Observations(trials[..last]) + if ObservationOf(trials[last]).Some? then [ObservationOf(trials[last]).value] else []
  }

  function Histogram(prints: seq<Fingerprint>): (h: map<Fingerprint, nat>)
    ensures forall f :: f in h <==> f in prints
    ensures forall f <- h :: h[f] == multiset(prints)[f]
  {
    map f | f in prints :: multiset(prints)[f]
  }

  predicate Disagree(prints: seq<Fingerprint>)
  {
    exists f <- prints, g <- prints :: f != g
  }

  function Classified(trials: seq<TrialFact>, required: int, forceIncomplete: bool): Option<Classification>
  {
    var prints, reasons := Fingerprints(trials), ReasonsOf(trials);
    if reasons != {} then Some(Classification(Uncomparable(reasons), |prints|, required))
    else if Disagree(prints) then Some(Classification(Unstable(Histogram(prints)), |prints|, required))
    else if forceIncomplete || |prints| < required then Some(Classification(Incomplete, |prints|, required))
    else if |prints| == required && prints != [] then Some(Classification(ObservedStable(prints[0]), |prints|, required))
    else None
  }

  function BatchOf(schedule: Schedule, trials: seq<TrialFact>, c: Classification): Batch
    requires trials != []
  {
    var w, a := trials[0].world, trials[0].token.admission;
    Batch(schedule, w.candidate, w.binding, w.envelope, w.capturePolicy, w.definition, BasisOf(a), a.roster,
          Admissions(trials), Ordinals(trials), trials, Observations(trials), c)
  }

  function Admissions(trials: seq<TrialFact>): (r: seq<Admission>)
    ensures |r| == |trials| && forall i :: 0 <= i < |r| ==> r[i] == trials[i].token.admission
  {
    seq(|trials|, i requires 0 <= i < |trials| => trials[i].token.admission)
  }

  function Ordinals(trials: seq<TrialFact>): (r: seq<int>)
    ensures |r| == |trials| && forall i :: 0 <= i < |r| ==> r[i] == trials[i].world.ordinal
  {
    seq(|trials|, i requires 0 <= i < |trials| => trials[i].world.ordinal)
  }

  function Classify(schedule: Schedule, trials: seq<TrialFact>, forceIncomplete: bool): Result<Batch, ObserveError>
  {
    if BatchRefusal(trials).Some? then Err(BatchRefusal(trials).value)
    else
      var c := Classified(trials, trials[0].world.binding.requiredTrials, forceIncomplete);
      if c.None? then Err(InvalidClassification) else Ok(BatchOf(schedule, trials, c.value))
  }

  // -------------------------------------------------------------- the loops

  method CheckOrdinals(trials: seq<TrialFact>) returns (refusal: Option<ObserveError>, ordinals: seq<int>)
    ensures refusal == FirstOrdinalRefusal(trials, 0)
    ensures refusal.None? ==> ordinals == Ordinals(trials)
  {
    ordinals := [];
    var seen: set<int> := {};
    for i := 0 to |trials|
      invariant FirstOrdinalRefusal(trials, 0) == FirstOrdinalRefusal(trials, i)
      invariant ordinals == Ordinals(trials[..i]) && seen == set t <- trials[..i] :: t.world.ordinal
    {
      assert trials[..i + 1] == trials[..i] + [trials[i]];
      var ordinal := trials[i].world.ordinal;
      if ordinal < 0 {
        return Some(NegativeOrdinal), ordinals;
      }
      if ordinal in seen {
        return Some(DuplicateOrdinal), ordinals;
      }
      if i > 0 && ordinal <= ordinals[i - 1] {
        return Some(UnorderedOrdinals), ordinals;
      }
      seen, ordinals := seen + {ordinal}, ordinals + [ordinal];
    }
    assert trials[..|trials|] == trials;
    return None, ordinals;
  }

  /** What the trial loop has collected. */
  datatype Tally = Tally(
    observations: seq<Digest>, admissions: seq<Admission>, counts: map<Fingerprint, nat>, reasons: set<Control>, eligible: nat)

  ghost predicate Tallies(tally: Tally, trials: seq<TrialFact>)
  {
    && tally.observations == Observations(trials) && tally.admissions == Admissions(trials)
    && tally.counts == Histogram(Fingerprints(trials)) && tally.reasons == ReasonsOf(trials)
    && tally.eligible == |Fingerprints(trials)|
  }

  lemma TallyNext(tally: Tally, trials: seq<TrialFact>, i: nat, next: Tally)
    requires i < |trials| && Tallies(tally, trials[..i])
    requires var t, e := trials[i], EligibilityOf(trials[i]);
             && next.observations == tally.observations + (if ObservationOf(t).Some? then [ObservationOf(t).value] else [])
             && next.admissions == tally.admissions + [t.token.admission]
             && next.counts == (if e.Eligible? then Counted(tally.counts, e.fingerprint) else tally.counts)
             && next.reasons == tally.reasons + TrialReasons(t)
             && next.eligible == tally.eligible + (if e.Eligible? then 1 else 0)
    ensures Tallies(next, trials[..i + 1])
  {
    hide EligibilityOf, ObservationOf, TrialReasons, Histogram, Fingerprints, ReasonsOf, Observations;
    assert trials[..i + 1] == trials[..i] + [trials[i]];
    OneMore(trials[..i], trials[i]);
    HistogramNext(Fingerprints(trials[..i]), EligibilityOf(trials[i]));
  }

  lemma OneMore(trials: seq<TrialFact>, t: TrialFact)
    ensures Observations(trials + [t]) == Observations(trials) + if ObservationOf(t).Some? then [ObservationOf(t).value] else []
    ensures Fingerprints(trials + [t])
         == Fingerprints(trials) + if EligibilityOf(t).Eligible? then [EligibilityOf(t).fingerprint] else []
    ensures ReasonsOf(trials + [t]) == ReasonsOf(trials) + TrialReasons(t)
  {
    hide EligibilityOf, ObservationOf, TrialReasons;
    assert (trials + [t])[..|trials|] == trials;
  }

  lemma HistogramNext(prints: seq<Fingerprint>, e: Eligibility)
    ensures e.Eligible? ==> Histogram(prints + [e.fingerprint]) == Counted(Histogram(prints), e.fingerprint)
    ensures prints + [] == prints
  {
  }

  function Counted(counts: map<Fingerprint, nat>, f: Fingerprint): map<Fingerprint, nat>
  {
    counts[f := if f in counts then counts[f] + 1 else 1]
  }

  /** The seen sets of the trial loop. */
  datatype Seen = Seen(attempts: set<Digest>, worlds: set<Digest>, admissions: set<Admission>, observations: set<Digest>)

  ghost predicate Sees(seen: Seen, trials: seq<TrialFact>)
  {
    && seen.attempts == (set t <- trials :: t.attempt.digest)
    && seen.worlds == (set t <- trials :: t.world.digest)
    && seen.admissions == (set t <- trials :: t.token.admission)
    && (forall d :: d in seen.observations <==> exists t <- trials :: ObservationOf(t) == Some(d))
  }

  /** One trial against the evidence seen so far. */
  method CheckTrial(trials: seq<TrialFact>, i: nat, seen: Seen) returns (refusal: Option<ObserveError>, next: Seen)
    requires i < |trials| && Sees(seen, trials[..i])
    ensures refusal == TrialRefusal(trials, i)
    ensures refusal.None? ==> Sees(next, trials[..i + 1])
  {
    hide ValidDigest, EligibilityOf, ObservationOf, SameBatch;
    var t, roster := trials[i], trials[0].token.admission.roster;
    next := seen;
    assert trials[..i + 1] == trials[..i] + [t];
    if !ValidDigest(t.world.digest) || !ValidDigest(t.attempt.digest) {
      return Some(InvalidTrialIdentity), next;
    }
    if !SameBatch(trials[0], t) {
      return Some(BatchLineageMismatch), next;
    }
    if i == 0 {
      if t.world.candidate !in roster {
        return Some(NotInAdmission), next;
      }
    } else if t.token.admission.roster != roster {
      return Some(MixedRoster), next;
    }
    if t.attempt.digest in seen.attempts {
      return Some(ReusedAttemptEvidence), next;
    }
    if t.world.digest in seen.worlds {
      return Some(ReusedWorld), next;
    }
    if t.token.admission in seen.admissions {
      return Some(ReusedAdmission), next;
    }
    var observation := ObservationOf(t);
    if observation.Some? {
      if !ValidDigest(observation.value) {
        return Some(InvalidObservation), next;
      }
      if observation.value in seen.observations {
        return Some(ReusedObservation), next;
      }
    }
    if EligibilityOf(t).Ineligible? && exists c <- EligibilityOf(t).reasons :: c.OtherControl? {
      return Some(InvalidControl), next;
    }
    next := Seen(seen.attempts + {t.attempt.digest}, seen.worlds + {t.world.digest},
                 seen.admissions + {t.token.admission},
                 if observation.Some? then seen.observations + {observation.value} else seen.observations);
    return None, next;
  }

  method TallyTrials(trials: seq<TrialFact>) returns (refusal: Option<ObserveError>, tally: Tally)
    ensures refusal == FirstTrialRefusal(trials, 0)
    ensures refusal.None? ==> Tallies(tally, trials)
  {
    hide TrialRefusal, EligibilityOf, ObservationOf, Tallies, Sees;
    var seen := Seen({}, {}, {}, {});
    tally := Tally([], [], map[], {}, 0);
    assert Tallies(tally, trials[..0]) && Sees(seen, trials[..0]) by {
      StartsEmpty();
      assert trials[..0] == [];
    }
    for i := 0 to |trials|
      invariant FirstTrialRefusal(trials, 0) == FirstTrialRefusal(trials, i)
      invariant Tallies(tally, trials[..i]) && Sees(seen, trials[..i])
    {
      refusal, seen := CheckTrial(trials, i, seen);
      if refusal.Some? {
        return refusal, tally;
      }
      var t := trials[i];
      var observation, e := ObservationOf(t), EligibilityOf(t);
      var next := Tally(
        tally.observations + if observation.Some? then [observation.value] else [],
        tally.admissions + [t.token.admission],
        if e.Eligible? then Counted(tally.counts, e.fingerprint) else tally.counts,
        tally.reasons + TrialReasons(t),
        tally.eligible + if e.Eligible? then 1 else 0);
      TallyNext(tally, trials, i, next);
      tally := next;
    }
    assert trials[..|trials|] == trials;
    return None, tally;
  }

  lemma StartsEmpty()
    ensures Tallies(Tally([], [], map[], {}, 0), []) && Sees(Seen({}, {}, {}, {}), [])
  {
  }

  /** Two counted fingerprints are two that disagree. */
  lemma CountsDisagree(prints: seq<Fingerprint>)
    ensures |Histogram(prints)| >= 2 <==> Disagree(prints)
    ensures |Histogram(prints)| == 1 <==> prints != [] && !Disagree(prints)
    ensures |Histogram(prints)| == 1 ==> Histogram(prints).Keys == {prints[0]}
  {
    var keys := Histogram(prints).Keys;
    assert |Histogram(prints)| == |keys|;
    if prints != [] {
      assert prints[0] in keys;
      assert |keys - {prints[0]}| == |keys| - 1;
      if Disagree(prints) {
        var f, g :| f in prints && g in prints && f != g;
        var other := if f == prints[0] then g else f;
        assert other in keys - {prints[0]};
      } else {
        assert keys == {prints[0]};
      }
    }
  }

  method ClassifyBatch(schedule: Schedule, trials: seq<TrialFact>, forceIncomplete: bool)
    returns (result: Result<Batch, ObserveError>)
    ensures result == Classify(schedule, trials, forceIncomplete)
  {
    hide HeaderRefusal, FirstOrdinalRefusal, FirstTrialRefusal, Fingerprints, ReasonsOf, Observations, Admissions, Ordinals,
      BasisOf, Histogram, Disagree;
    if |trials| == 0 {
      return Err(MissingEvidence);
    }
    var header := HeaderRefusal(trials);
    if header.Some? {
      return Err(header.value);
    }
    var refusal, ordinals := CheckOrdinals(trials);
    if refusal.Some? {
      return Err(refusal.value);
    }
    var tally;
    refusal, tally := TallyTrials(trials);
    if refusal.Some? {
      return Err(refusal.value);
    }
    var first := trials[0];
    var required := first.world.binding.requiredTrials;
    CountsDisagree(Fingerprints(trials));
    var status;
    if tally.reasons != {} {
      status := Uncomparable(tally.reasons);
    } else if |tally.counts| >= 2 {
      status := Unstable(tally.counts);
    } else if forceIncomplete {
      status := Incomplete;
    } else if tally.eligible < required {
      status := Incomplete;
    } else if tally.eligible == required && |tally.counts| == 1 {
      var fingerprint :| fingerprint in tally.counts;
      status := ObservedStable(fingerprint);
    } else {
      return Err(InvalidClassification);
    }
    var admission := first.token.admission;
    return Ok(Batch(
      schedule, first.world.candidate, first.world.binding, first.world.envelope, first.world.capturePolicy,
      first.world.definition, BasisOf(admission), admission.roster, tally.admissions, ordinals, trials,
      tally.observations, Classification(status, tally.eligible, required)));
  }

  // ----------------------------------------------------------- the scheduled form

  /** `ClassifyScheduled`: the trials occupy this candidate's slots of repetitions 0, 1, .... */
  function ScheduleRefusal(schedule: Schedule, candidate: Candidate, trials: seq<TrialFact>, runIncomplete: bool)
    : Option<ObserveError>
  {
    if !ValidSchedule(schedule) || !ValidCandidate(candidate) then Some(InvalidAuthority)
    else if candidate !in schedule.roster then Some(NotInRoster)
    else if trials == [] then Some(MissingEvidence)
    else if |trials| > schedule.repetitions || (!runIncomplete && |trials| != schedule.repetitions) then Some(RepeatMismatch)
    else if trials[0].world.binding.requiredTrials != schedule.repetitions then Some(RepeatAuthorityMismatch)
    else if exists r | 0 <= r < |trials| :: !InSlot(schedule, candidate, trials, r) then Some(SlotMismatch)
    else None
  }

  predicate InSlot(schedule: Schedule, candidate: Candidate, trials: seq<TrialFact>, r: nat)
    requires candidate in schedule.roster && r < |trials|
  {
    && trials[r].world.candidate == candidate
    && trials[r].world.ordinal == SlotOf(schedule.roster, schedule.startOffset, r, candidate).ordinal
  }

  function Scheduled(schedule: Schedule, candidate: Candidate, trials: seq<TrialFact>, runIncomplete: bool)
    : Result<Batch, ObserveError>
  {
    var refusal := ScheduleRefusal(schedule, candidate, trials, runIncomplete);
    if refusal.Some? then Err(refusal.value) else Classify(schedule, trials, runIncomplete)
  }

  method ClassifyScheduled(schedule: Schedule, candidate: Candidate, trials: seq<TrialFact>, runIncomplete: bool)
    returns (result: Result<Batch, ObserveError>)
    ensures result == Scheduled(schedule, candidate, trials, runIncomplete)
  {
    hide ValidSchedule, ValidCandidate, Classify;
    if !ValidSchedule(schedule) || !ValidCandidate(candidate) {
      return Err(InvalidAuthority);
    }
    if candidate !in schedule.roster {
      return Err(NotInRoster);
    }
    if |trials| == 0 {
      return Err(MissingEvidence);
    }
    if |trials| > schedule.repetitions || (!runIncomplete && |trials| != schedule.repetitions) {
      return Err(RepeatMismatch);
    }
    if trials[0].world.binding.requiredTrials != schedule.repetitions {
      return Err(RepeatAuthorityMismatch);
    }
    for repetition := 0 to |trials|
      invariant forall r :: 0 <= r < repetition ==> InSlot(schedule, candidate, trials, r)
    {
      var slot := Slot(schedule, candidate, repetition);
      if slot.None? || trials[repetition].world.candidate != candidate
         || trials[repetition].world.ordinal != slot.value.ordinal {
        assert !InSlot(schedule, candidate, trials, repetition);
        return Err(SlotMismatch);
      }
    }
    result := ClassifyBatch(schedule, trials, runIncomplete);
  }

  // --------------------------------------------------------------- properties

  /** Every trial is eligible with this fingerprint. */
  predicate AllEligible(trials: seq<TrialFact>, f: Fingerprint)
  {
    forall t <- trials :: EligibilityOf(t) == Eligible(f)
  }

  ghost predicate Unanimous(trials: seq<TrialFact>)
  {
    exists f :: AllEligible(trials, f)
  }

  lemma {:induction false} PrintsCount(trials: seq<TrialFact>)
    ensures ReasonsOf(trials) == {} <==> forall i :: 0 <= i < |trials| ==> EligibilityOf(trials[i]).Eligible?
    ensures ReasonsOf(trials) == {} ==> |Fingerprints(trials)| == |trials|
    ensures ReasonsOf(trials) == {} ==>
      forall i :: 0 <= i < |trials| ==> EligibilityOf(trials[i]) == Eligible(Fingerprints(trials)[i])
  {
    hide EligibilityOf;
    if trials != [] {
      var last := |trials| - 1;
      var before := trials[..last];
      PrintsCount(before);
      ReasonsFound(trials[last]);
      assert forall i :: 0 <= i < last ==> before[i] == trials[i];
    }
  }

  lemma ReasonsFound(t: TrialFact)
    ensures TrialReasons(t) == {} <==> EligibilityOf(t).Eligible?
  {
    var e := EligibilityOf(t);
    if e.Ineligible? {
      assert e.reasons[0] in TrialReasons(t);
    }
  }

  /** The same for the fingerprints alone: they all agree when none disagrees. */
  lemma AgreedPrints(trials: seq<TrialFact>)
    requires trials != [] && ReasonsOf(trials) == {}
    ensures !Disagree(Fingerprints(trials)) <==> Unanimous(trials)
  {
    hide EligibilityOf, Fingerprints, ReasonsOf;
    PrintsCount(trials);
    var prints := Fingerprints(trials);
    assert forall i :: 0 <= i < |trials| ==> prints[i] in prints && trials[i] in trials;
    if !Disagree(prints) {
      assert AllEligible(trials, prints[0]);
    }
  }

  /** A batch is stable exactly when all required trials are eligible with one fingerprint and the
      run was not cut short. */
  lemma StableExactly(schedule: Schedule, trials: seq<TrialFact>, force: bool)
    requires Classify(schedule, trials, force).Ok?
    ensures var b := Classify(schedule, trials, force).value;
            b.classification.status.ObservedStable? <==>
              !force && |trials| == b.binding.requiredTrials && Unanimous(trials)
  {
    hide EligibilityOf, FirstTrialRefusal, FirstOrdinalRefusal, ReasonsOf, Fingerprints, AllEligible, Disagree, Histogram,
      Observations, HeaderRefusal;
    PrintsCount(trials);
    if ReasonsOf(trials) == {} {
      AgreedPrints(trials);
    } else {
      SomeIneligible(trials);
    }
  }

  lemma SomeIneligible(trials: seq<TrialFact>)
    requires ReasonsOf(trials) != {}
    ensures !Unanimous(trials)
  {
    hide EligibilityOf;
    PrintsCount(trials);
    var i :| 0 <= i < |trials| && !EligibilityOf(trials[i]).Eligible?;
    assert trials[i] in trials;
  }

  lemma RefusalCodes(trials: seq<TrialFact>)
    ensures BatchRefusal(trials) != Some(InvalidClassification)
  {
    if trials != [] {
      OrdinalCodes(trials, 0);
      TrialCodes(trials, 0);
    }
  }

  lemma {:induction false} OrdinalCodes(trials: seq<TrialFact>, i: nat)
    requires i <= |trials|
    ensures FirstOrdinalRefusal(trials, i) != Some(InvalidClassification)
    decreases |trials| - i
  {
    if i < |trials| {
      OrdinalCodes(trials, i + 1);
    }
  }

  lemma {:induction false} TrialCodes(trials: seq<TrialFact>, i: nat)
    requires i <= |trials|
    ensures FirstTrialRefusal(trials, i) != Some(InvalidClassification)
    decreases |trials| - i
  {
    hide ValidDigest, SameBatch, EligibilityOf, ObservationOf;
    if i < |trials| {
      TrialCodes(trials, i + 1);
    }
  }

  /** The last branch of the classifier is never taken. */
  lemma ClassifierIsTotal(schedule: Schedule, trials: seq<TrialFact>, force: bool)
    ensures Classify(schedule, trials, force) != Err(InvalidClassification)
  {
    hide EligibilityOf, FirstTrialRefusal, FirstOrdinalRefusal, ReasonsOf, Fingerprints, Disagree;
    if BatchRefusal(trials).None? {
      assert |Fingerprints(trials)| <= |trials| <= trials[0].world.binding.requiredTrials;
    }
    RefusalCodes(trials);
  }

  // ------------------------------------------------------------ prefixes

  lemma {:induction false} ReasonsGrow(trials: seq<TrialFact>, k: nat)
    requires k <= |trials|
    ensures ReasonsOf(trials[..k]) <= ReasonsOf(trials)
    ensures Fingerprints(trials[..k]) <= Fingerprints(trials)
  {
    hide EligibilityOf;
    if k == |trials| {
      assert trials[..k] == trials;
    } else {
      var last := |trials| - 1;
      ReasonsGrow(trials[..last], k);
      assert trials[..last][..k] == trials[..k];
    }
  }

  /** Once a prefix is UNCOMPARABLE every accepted extension is; once it is UNSTABLE no accepted
      extension is anything but UNSTABLE or UNCOMPARABLE. In particular neither becomes stable. */
  lemma PrefixDecides(schedule: Schedule, trials: seq<TrialFact>, k: nat, force: bool, later: bool)
    requires k <= |trials|
    requires Classify(schedule, trials[..k], force).Ok? && Classify(schedule, trials, later).Ok?
    ensures var before := Classify(schedule, trials[..k], force).value.classification.status;
            var after := Classify(schedule, trials, later).value.classification.status;
            && (before.Uncomparable? ==> after.Uncomparable? && before.reasons <= after.reasons)
            && (before.Unstable? ==> after.Unstable? || after.Uncomparable?)
  {
    hide EligibilityOf, FirstTrialRefusal, FirstOrdinalRefusal, ReasonsOf, Fingerprints, Histogram, Observations,
      HeaderRefusal, BasisOf, Admissions, Ordinals;
    ReasonsGrow(trials, k);
    var early, late := Fingerprints(trials[..k]), Fingerprints(trials);
    if Disagree(early) {
      var f, g :| f in early && g in early && f != g;
      assert f in late && g in late;
    }
  }

  // ------------------------------------------------- what an accepted batch holds

  lemma {:induction false} NoTrialRefused(trials: seq<TrialFact>, i: nat, k: nat)
    requires i <= k < |trials| && FirstTrialRefusal(trials, i).None?
    ensures TrialRefusal(trials, k).None?
    decreases k - i
  {
    hide TrialRefusal;
    if i < k {
      NoTrialRefused(trials, i + 1, k);
    }
  }

  lemma {:induction false} NoOrdinalRefused(trials: seq<TrialFact>, i: nat, k: nat)
    requires i <= k < |trials| && FirstOrdinalRefusal(trials, i).None?
    ensures OrdinalRefusal(trials, k).None?
    decreases k - i
  {
    hide OrdinalRefusal;
    if i < k {
      NoOrdinalRefused(trials, i + 1, k);
    }
  }

  /** No evidence is used twice in a batch, and its ordinals increase. */
  lemma BatchEvidenceIsFresh(schedule: Schedule, trials: seq<TrialFact>, force: bool, i: nat, j: nat)
    requires Classify(schedule, trials, force).Ok? && i < j < |trials|
    ensures trials[i].attempt.digest != trials[j].attempt.digest && trials[i].world.digest != trials[j].world.digest
    ensures trials[i].token.admission != trials[j].token.admission
    ensures ObservationOf(trials[i]).Some? ==> ObservationOf(trials[i]) != ObservationOf(trials[j])
    ensures trials[i].world.ordinal < trials[j].world.ordinal
  {
    hide EligibilityOf, Classified, BatchOf, HeaderRefusal, ObservationOf;
    NoTrialRefused(trials, 0, j);
    assert trials[..j][i] == trials[i] && trials[i] in trials[..j];
    OrdinalsClimb(trials, i, j);
  }

  lemma {:induction false} OrdinalsClimb(trials: seq<TrialFact>, i: nat, j: nat)
    requires i < j < |trials| && FirstOrdinalRefusal(trials, 0).None?
    ensures trials[i].world.ordinal < trials[j].world.ordinal
    decreases j - i
  {
    hide FirstOrdinalRefusal;
    NoOrdinalRefused(trials, 0, j);
    if i < j - 1 {
      OrdinalsClimb(trials, i, j - 1);
    }
  }

  /** A batch of a complete run, made of all the trials its plan asks for, is never INCOMPLETE. */
  lemma CompleteIsDecided(schedule: Schedule, candidate: Candidate, trials: seq<TrialFact>)
    requires Scheduled(schedule, candidate, trials, false).Ok?
    ensures |trials| == schedule.repetitions
    ensures !Scheduled(schedule, candidate, trials, false).value.classification.status.Incomplete?
  {
    hide EligibilityOf, FirstTrialRefusal, FirstOrdinalRefusal, ReasonsOf, Fingerprints, Histogram, Observations,
      HeaderRefusal, BasisOf, Admissions, Ordinals, ValidSchedule;
    PrintsCount(trials);
  }

  /** A batch of a run cut short is never OBSERVED_STABLE. */
  lemma CutShortIsNotStable(schedule: Schedule, candidate: Candidate, trials: seq<TrialFact>)
    requires Scheduled(schedule, candidate, trials, true).Ok?
    ensures !Scheduled(schedule, candidate, trials, true).value.classification.status.ObservedStable?
  {
    hide EligibilityOf, FirstTrialRefusal, FirstOrdinalRefusal, ReasonsOf, Fingerprints, Histogram, Observations,
      HeaderRefusal, BasisOf, Admissions, Ordinals, ValidSchedule;
  }
}
