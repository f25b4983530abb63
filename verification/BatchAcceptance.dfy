/** Which trials the classifier takes as one batch, said without an order of checks. */
module BatchAcceptance {
  import opened Bytes
  import opened Domain
  import opened Schedule
  import opened Assessment
  import opened Eligibility
  import opened Classification

  /** One trial, by itself and beside the first one. */
  predicate SoundTrial(first: TrialFact, t: TrialFact)
  {
    var w, a := t.world, t.token.admission;
    && ValidDigest(w.digest) && ValidDigest(t.attempt.digest) && w.attempt == t.attempt.digest && w.ordinal >= 0
    && w.candidate == first.world.candidate && w.binding == first.world.binding && w.envelope == first.world.envelope
    && w.capturePolicy == first.world.capturePolicy && w.definition == first.world.definition
    && a.envelope == w.envelope && a.binding == w.binding && a.roster == first.token.admission.roster
    && a.basis == first.token.admission.basis && w.candidate in a.roster
    && (ObservationOf(t).Some? ==> ValidDigest(ObservationOf(t).value))
  }

  /** An earlier and a later trial share nothing and stand in order. */
  predicate TrialsDiffer(a: TrialFact, b: TrialFact)
  {
    && a.world.ordinal < b.world.ordinal && a.attempt.digest != b.attempt.digest && a.world.digest != b.world.digest
    && a.token.admission != b.token.admission && (ObservationOf(b).Some? ==> ObservationOf(a) != ObservationOf(b))
  }

  predicate SoundHeader(w: World)
  {
    && ValidCandidate(w.candidate) && ValidDigest(w.binding.plan) && ValidDigest(w.binding.stimulus) && ValidDigest(w.envelope)
    && ValidDigest(w.capturePolicy) && ValidDigest(w.definition) && ValidPurpose(w.binding.purpose)
    && 1 <= w.binding.requiredTrials <= 5
  }

  predicate SoundTrials(trials: seq<TrialFact>)
  {
    && trials != [] && SoundHeader(trials[0].world) && |trials| <= trials[0].world.binding.requiredTrials
    && (forall i :: 0 <= i < |trials| ==> SoundTrial(trials[0], trials[i]))
    && forall i, j :: 0 <= i < j < |trials| ==> TrialsDiffer(trials[i], trials[j])
  }

  lemma {:induction false} OrdinalsExactly(trials: seq<TrialFact>, i: nat)
    requires i <= |trials|
    ensures FirstOrdinalRefusal(trials, i).None? <==> forall k :: i <= k < |trials| ==> OrdinalRefusal(trials, k).None?
    decreases |trials| - i
  {
    hide OrdinalRefusal;
    if i < |trials| {
      OrdinalsExactly(trials, i + 1);
    }
  }

  lemma {:induction false} TrialsExactly(trials: seq<TrialFact>, i: nat)
    requires i <= |trials|
    ensures FirstTrialRefusal(trials, i).None? <==> forall k :: i <= k < |trials| ==> TrialRefusal(trials, k).None?
    decreases |trials| - i
  {
    hide TrialRefusal;
    if i < |trials| {
      TrialsExactly(trials, i + 1);
    }
  }

  predicate Climbs(trials: seq<TrialFact>)
  {
    && (forall i :: 0 <= i < |trials| ==> trials[i].world.ordinal >= 0)
    && forall i, j :: 0 <= i < j < |trials| ==> trials[i].world.ordinal < trials[j].world.ordinal
  }

  lemma ClimbsExactly(trials: seq<TrialFact>)
    ensures FirstOrdinalRefusal(trials, 0).None? <==> Climbs(trials)
  {
    OrdinalsExactly(trials, 0);
    if FirstOrdinalRefusal(trials, 0).None? {
      forall i, j | 0 <= i < j < |trials| ensures trials[i].world.ordinal < trials[j].world.ordinal {
        OrdinalsClimb(trials, i, j);
      }
    } else if Climbs(trials) {
      forall k | 0 <= k < |trials| ensures OrdinalRefusal(trials, k).None? {
        NoSameOrdinal(trials, k);
      }
    }
  }

  lemma NoSameOrdinal(trials: seq<TrialFact>, k: nat)
    requires k < |trials| && Climbs(trials)
    ensures OrdinalRefusal(trials, k).None?
  {
    forall t <- trials[..k] ensures t.world.ordinal != trials[k].world.ordinal {
      var i :| 0 <= i < k && trials[..k][i] == t;
      assert trials[i] == t;
    }
  }

  /** A trial that shares no evidence with an earlier one. */
  predicate FreshBeside(a: TrialFact, b: TrialFact)
  {
    && a.attempt.digest != b.attempt.digest && a.world.digest != b.world.digest
    && a.token.admission != b.token.admission && (ObservationOf(b).Some? ==> ObservationOf(a) != ObservationOf(b))
  }

  lemma OneTrialExactly(trials: seq<TrialFact>, k: nat)
    requires k < |trials| && trials[k].world.ordinal >= 0
    requires k > 0 ==> SoundTrial(trials[0], trials[0])
    ensures TrialRefusal(trials, k).None? <==>
      SoundTrial(trials[0], trials[k]) && forall i :: 0 <= i < k ==> FreshBeside(trials[i], trials[k])
  {
    hide ValidDigest, EligibilityOf, ObservationOf;
    var before := trials[..k];
    assert forall i :: 0 <= i < k ==> before[i] == trials[i] && before[i] in before;
    NoOtherControl(trials[k]);
  }

  lemma NoOtherControl(t: TrialFact)
    ensures !(EligibilityOf(t).Ineligible? && exists c <- EligibilityOf(t).reasons :: c.OtherControl?)
  {
    var e := EligibilityOf(t);
    hide EligibilityOf;
    assert e.Ineligible? ==> forall c <- e.reasons :: !c.OtherControl?;
  }

  /** Every trial is sound and shares no evidence with an earlier one. */
  predicate EvidenceSound(trials: seq<TrialFact>)
  {
    forall k :: 0 <= k < |trials| ==>
      SoundTrial(trials[0], trials[k]) && forall i :: 0 <= i < k ==> FreshBeside(trials[i], trials[k])
  }

  lemma EvidenceExactly(trials: seq<TrialFact>)
    requires trials != [] && Climbs(trials)
    ensures FirstTrialRefusal(trials, 0).None? <==> EvidenceSound(trials)
  {
    hide SoundTrial, FreshBeside, TrialRefusal, FirstTrialRefusal;
    TrialsExactly(trials, 0);
    OneTrialExactly(trials, 0);
    if SoundTrial(trials[0], trials[0]) {
      forall k | 0 <= k < |trials|
        ensures TrialRefusal(trials, k).None? <==>
          SoundTrial(trials[0], trials[k]) && forall i :: 0 <= i < k ==> FreshBeside(trials[i], trials[k])
      {
        OneTrialExactly(trials, k);
      }
    }
  }

  lemma HeaderExactly(trials: seq<TrialFact>)
    requires trials != []
    ensures HeaderRefusal(trials).None? <==> SoundHeader(trials[0].world) && |trials| <= trials[0].world.binding.requiredTrials
  {
    hide ValidDigest, ValidCandidate;
  }

  lemma SoundnessParts(trials: seq<TrialFact>)
    requires trials != []
    ensures SoundTrials(trials) <==>
      SoundHeader(trials[0].world) && |trials| <= trials[0].world.binding.requiredTrials && Climbs(trials) && EvidenceSound(trials)
  {
    hide SoundHeader, ValidDigest, ObservationOf;
    if SoundTrials(trials) {
      forall i, j | 0 <= i < j < |trials| ensures FreshBeside(trials[i], trials[j]) {
        assert TrialsDiffer(trials[i], trials[j]);
      }
    }
    if Climbs(trials) && EvidenceSound(trials) {
      forall i, j | 0 <= i < j < |trials| ensures TrialsDiffer(trials[i], trials[j]) {
        assert FreshBeside(trials[i], trials[j]);
      }
    }
  }

  /** The classifier accepts exactly the sound lists of trials. */
  lemma ClassifyExactly(schedule: Schedule, trials: seq<TrialFact>, force: bool)
    ensures Classify(schedule, trials, force).Ok? <==> SoundTrials(trials)
  {
    hide HeaderRefusal, SoundHeader, FirstOrdinalRefusal, FirstTrialRefusal, Classified, Climbs, EvidenceSound;
    ClassifierIsTotal(schedule, trials, force);
    if trials != [] {
      hide SoundTrials;
      SoundnessParts(trials);
      HeaderExactly(trials);
      ClimbsExactly(trials);
      if Climbs(trials) {
        EvidenceExactly(trials);
      }
    }
  }
}
