/** The statuses of a run, read off the producer's replies alone. */
module RunStatuses {
  import opened Bytes
  import opened Domain
  import opened Schedule
  import opened Assessment
  import opened Eligibility
  import opened Classification
  import opened ObservationRun

  /** The call that filled slot `r` of candidate number `i`. */
  function CallOf(run: Run, i: nat, r: nat): int
    requires i < |run.schedule.roster|
  {
    SlotOf(run.schedule.roster, run.schedule.startOffset, r, run.schedule.roster[i]).ordinal
  }

  /** The reply to this call is a capture with this fingerprint. */
  predicate Shows(env: Environment, call: int, f: Fingerprint)
  {
    && call >= 0 && env.reply(call).Produced? && env.reply(call).trial.kind == CapturedKind
    && env.reply(call).trial.capture.fingerprint == f
  }

  predicate Captures(env: Environment, call: int)
  {
    call >= 0 && env.reply(call).Produced? && env.reply(call).trial.kind == CapturedKind
  }

  /** What a reply without a capture is reported as: its controls, when they are a legal selection, and
      otherwise a rejected projection. */
  function Reasons(p: PreparedTrial): set<Control>
  {
    var controls := if p.kind == RejectedKind then [ProjectionRejected] else ReportedControls(p.attempt);
    if Selectable(controls) then set c <- controls else {ProjectionRejected}
  }

  predicate Reports(env: Environment, call: int, c: Control)
  {
    call >= 0 && env.reply(call).Produced? && env.reply(call).trial.kind != CapturedKind && c in Reasons(env.reply(call).trial)
  }

  /** What one trial is, in terms of its reply. */
  lemma TrialTells(env: Environment, call: nat, t: TrialFact)
    requires Records(env, call, t)
    ensures EligibilityOf(t).Eligible? <==> Captures(env, call)
    ensures forall f :: EligibilityOf(t) == Eligible(f) <==> Shows(env, call, f)
    ensures forall c :: c in TrialReasons(t) <==> Reports(env, call, c)
  {
    hide ValidDigest, SoundBinding, ValidRoster, FactEvidence, PreparedEvidence;
  }

  lemma {:induction false} ReasonsHold(trials: seq<TrialFact>, c: Control)
    ensures c in ReasonsOf(trials) <==> exists t <- trials :: c in TrialReasons(t)
  {
    hide TrialReasons;
    if trials != [] {
      var last := |trials| - 1;
      ReasonsHold(trials[..last], c);
      assert trials == trials[..last] + [trials[last]];
    }
  }

  predicate AllShow(trials: seq<TrialFact>, f: Fingerprint)
  {
    forall r :: 0 <= r < |trials| ==> EligibilityOf(trials[r]) == Eligible(f)
  }

  predicate SomeDiffer(trials: seq<TrialFact>)
  {
    exists r, q :: 0 <= r < |trials| && 0 <= q < |trials| && EligibilityOf(trials[r]) != EligibilityOf(trials[q])
  }

  /** Fingerprints disagree when trials do. */
  lemma PrintsTell(trials: seq<TrialFact>)
    requires trials != [] && ReasonsOf(trials) == {}
    ensures |Fingerprints(trials)| == |trials| && (Disagree(Fingerprints(trials)) <==> SomeDiffer(trials))
    ensures forall f :: AllShow(trials, f) <==> !Disagree(Fingerprints(trials)) && Fingerprints(trials)[0] == f
  {
    hide EligibilityOf, ReasonsOf, Fingerprints;
    PrintsCount(trials);
    var prints := Fingerprints(trials);
    assert forall r :: 0 <= r < |trials| ==> prints[r] in prints;
    if Disagree(prints) {
      var f, g :| f in prints && g in prints && f != g;
      var r :| 0 <= r < |prints| && prints[r] == f;
      var q :| 0 <= q < |prints| && prints[q] == g;
      assert EligibilityOf(trials[r]) != EligibilityOf(trials[q]);
    }
  }

  /** What a classified batch says, trial by trial. */
  lemma StatusByTrials(schedule: Schedule, trials: seq<TrialFact>, force: bool)
    requires Classify(schedule, trials, force).Ok?
    ensures trials != []
    ensures var status := Classify(schedule, trials, force).value.classification.status;
            && (forall f :: status == ObservedStable(f) <==>
                  !force && |trials| == trials[0].world.binding.requiredTrials && AllShow(trials, f))
            && (status.Uncomparable? <==> exists r :: 0 <= r < |trials| && EligibilityOf(trials[r]).Ineligible?)
            && (status.Uncomparable? ==> status.reasons == ReasonsOf(trials))
            && (status.Unstable? <==> ReasonsOf(trials) == {} && SomeDiffer(trials))
            && (ReasonsOf(trials) == {} <==> forall r :: 0 <= r < |trials| ==> EligibilityOf(trials[r]).Eligible?)
  {
    hide EligibilityOf, FirstTrialRefusal, FirstOrdinalRefusal, HeaderRefusal, ReasonsOf, Fingerprints, Histogram, Observations, Disagree,
      SomeDiffer, AllShow;
    PrintsCount(trials);
    if ReasonsOf(trials) == {} {
      PrintsTell(trials);
    } else {
      NoneShow(trials);
    }
  }

  lemma NoneShow(trials: seq<TrialFact>)
    requires ReasonsOf(trials) != {}
    ensures forall f :: !AllShow(trials, f)
  {
    hide EligibilityOf, ReasonsOf;
    PrintsCount(trials);
  }

  /** The batch of candidate `i`, with the calls its trials record. */
  lemma BatchTells(env: Environment, config: RunConfig, run: Run, asked: Asked, i: nat)
    requires SoundRun(run) && Told(env, config, run, asked) && i < |run.batches|
    ensures i < |run.schedule.roster| && |run.batches[i].trials| == run.matrices > 0
    ensures var trials, force := run.batches[i].trials, run.status == IncompleteRun;
            && Classify(run.schedule, trials, force) == Ok(run.batches[i])
            && (run.status == CompleteRun ==> |trials| == trials[0].world.binding.requiredTrials)
            && (force || run.status == CompleteRun)
            && forall r :: 0 <= r < |trials| ==> CallOf(run, i, r) >= 0 && Records(env, CallOf(run, i, r), trials[r])
  {
    hide ValidSchedule, Classify, Records, MatricesShared, NoEvidenceReused, BudgetKept, MapInputMatches, InSlot, SlotOf;
    var c, trials := run.schedule.roster[i], run.batches[i].trials;
    assert Scheduled(run.schedule, c, trials, run.status == IncompleteRun) == Ok(run.batches[i]);
    forall r | 0 <= r < |trials| ensures CallOf(run, i, r) >= 0 && Records(env, CallOf(run, i, r), trials[r]) {
      assert IsReply(env, run.schedule, c, r, trials[r], asked.producer);
    }
  }

  /** The status of every exposed batch by the replies to its own calls: stable with a fingerprint exactly
      in a complete run all of whose replies for the candidate are captures with it; unstable exactly when
      all are captures and two disagree; uncomparable exactly when some is not a capture, and then with
      exactly the reported reasons. */
  lemma StatusByReplies(env: Environment, config: RunConfig, run: Run, asked: Asked, i: nat)
    requires SoundRun(run) && Told(env, config, run, asked) && i < |run.batches|
    ensures i < |run.schedule.roster|
    ensures var status := run.batches[i].classification.status;
            && (forall f :: status == ObservedStable(f) <==>
                  run.status == CompleteRun && forall r: nat :: r < run.matrices ==> Shows(env, CallOf(run, i, r), f))
            && (status.Uncomparable? <==> exists r: nat :: r < run.matrices && !Captures(env, CallOf(run, i, r)))
            && (status.Uncomparable? ==>
                  forall c :: c in status.reasons <==> exists r: nat :: r < run.matrices && Reports(env, CallOf(run, i, r), c))
            && (status.Unstable? <==>
                  (forall r: nat :: r < run.matrices ==> Captures(env, CallOf(run, i, r))) && TwoShown(env, run, i))
  {
    hide SoundRun, Told, Classify, Records, Shows, Captures, Reports, CallOf, EligibilityOf, TrialReasons, TwoShown, SomeDiffer, ReasonsOf;
    BatchTells(env, config, run, asked, i);
    var trials, force := run.batches[i].trials, run.status == IncompleteRun;
    StatusByTrials(run.schedule, trials, force);
    forall r: nat | r < run.matrices
      ensures EligibilityOf(trials[r]).Eligible? <==> Captures(env, CallOf(run, i, r))
      ensures forall f :: EligibilityOf(trials[r]) == Eligible(f) <==> Shows(env, CallOf(run, i, r), f)
      ensures forall c :: c in TrialReasons(trials[r]) <==> Reports(env, CallOf(run, i, r), c)
    {
      TrialTells(env, CallOf(run, i, r), trials[r]);
    }
    var status := run.batches[i].classification.status;
    forall c ensures c in ReasonsOf(trials) <==> exists r: nat :: r < run.matrices && Reports(env, CallOf(run, i, r), c) {
      ReasonsHold(trials, c);
      if t :| t in trials && c in TrialReasons(t) {
        var r: nat :| r < |trials| && trials[r] == t;
        assert Reports(env, CallOf(run, i, r), c);
      }
    }
    if forall r :: 0 <= r < |trials| ==> EligibilityOf(trials[r]).Eligible? {
      UnstableByReplies(env, run, i, trials);
    }
    assert forall f :: AllShow(trials, f) <==> forall r: nat :: r < run.matrices ==> Shows(env, CallOf(run, i, r), f);
  }

  /** The first call's reply shows a fingerprint that the second one's does not. */
  ghost predicate Differ(env: Environment, a: int, b: int)
  {
    exists f :: Shows(env, a, f) && !Shows(env, b, f)
  }

  ghost predicate TwoShown(env: Environment, run: Run, i: nat)
    requires i < |run.schedule.roster|
  {
    exists r: nat, q: nat :: r < run.matrices && q < run.matrices && Differ(env, CallOf(run, i, r), CallOf(run, i, q))
  }

  /** The trial is eligible with the fingerprint that the reply shows. */
  ghost predicate Tells(env: Environment, call: int, t: TrialFact)
  {
    EligibilityOf(t).Eligible? && forall f :: EligibilityOf(t) == Eligible(f) <==> Shows(env, call, f)
  }

  lemma PairDiffers(env: Environment, a: int, b: int, t: TrialFact, u: TrialFact)
    requires Tells(env, a, t) && Tells(env, b, u)
    ensures EligibilityOf(t) != EligibilityOf(u) <==> Differ(env, a, b)
  {
    hide EligibilityOf, Shows;
    var f := EligibilityOf(t).fingerprint;
    assert EligibilityOf(t) == Eligible(f);
    assert EligibilityOf(u) == Eligible(f) <==> Shows(env, b, f);
  }

  lemma UnstableByReplies(env: Environment, run: Run, i: nat, trials: seq<TrialFact>)
    requires i < |run.schedule.roster| && |trials| == run.matrices
    requires forall r: nat | r < run.matrices :: Tells(env, CallOf(run, i, r), trials[r])
    ensures SomeDiffer(trials) <==> TwoShown(env, run, i)
  {
    hide EligibilityOf, Tells, CallOf, Differ;
    if SomeDiffer(trials) {
      var r: nat, q: nat :| r < |trials| && q < |trials| && EligibilityOf(trials[r]) != EligibilityOf(trials[q]);
      PairDiffers(env, CallOf(run, i, r), CallOf(run, i, q), trials[r], trials[q]);
    }
    if TwoShown(env, run, i) {
      var r: nat, q: nat :| r < run.matrices && q < run.matrices && Differ(env, CallOf(run, i, r), CallOf(run, i, q));
      PairDiffers(env, CallOf(run, i, r), CallOf(run, i, q), trials[r], trials[q]);
    }
  }

  // ------------------------------------------------------------------- counts

  function EligibleAt(trials: seq<TrialFact>): set<nat>
  {
    set r: nat | r < |trials| && EligibilityOf(trials[r]).Eligible?
  }

  function ShownAt(trials: seq<TrialFact>, f: Fingerprint): set<nat>
  {
    set r: nat | r < |trials| && EligibilityOf(trials[r]) == Eligible(f)
  }

  lemma OneMoreAt(before: seq<TrialFact>, t: TrialFact, f: Fingerprint)
    ensures |EligibleAt(before + [t])| == |EligibleAt(before)| + if EligibilityOf(t).Eligible? then 1 else 0
    ensures |ShownAt(before + [t], f)| == |ShownAt(before, f)| + if EligibilityOf(t) == Eligible(f) then 1 else 0
  {
    hide EligibilityOf;
    OneMoreEligible(before, t);
    OneMoreShown(before, t, f);
    assert |before| !in EligibleAt(before) && |before| !in ShownAt(before, f);
    hide EligibleAt, ShownAt;
  }

  lemma OneMoreEligible(before: seq<TrialFact>, t: TrialFact)
    ensures EligibleAt(before + [t]) == EligibleAt(before) + if EligibilityOf(t).Eligible? then {|before|} else {}
  {
    hide EligibilityOf;
    var all := before + [t];
    forall r: nat ensures r in EligibleAt(all) <==>
        r in EligibleAt(before) || (r == |before| && EligibilityOf(t).Eligible?) {
      if r < |before| {
        assert all[r] == before[r];
      }
    }
  }

  lemma OneMoreShown(before: seq<TrialFact>, t: TrialFact, f: Fingerprint)
    ensures ShownAt(before + [t], f) == ShownAt(before, f) + if EligibilityOf(t) == Eligible(f) then {|before|} else {}
  {
    hide EligibilityOf;
    var all := before + [t];
    forall r: nat ensures r in ShownAt(all, f) <==>
        r in ShownAt(before, f) || (r == |before| && EligibilityOf(t) == Eligible(f)) {
      if r < |before| {
        assert all[r] == before[r];
      }
    }
  }

  lemma {:induction false} PrintsCounted(trials: seq<TrialFact>, f: Fingerprint)
    ensures |Fingerprints(trials)| == |EligibleAt(trials)| && multiset(Fingerprints(trials))[f] == |ShownAt(trials, f)|
  {
    hide EligibilityOf, EligibleAt, ShownAt;
    if trials == [] {
      NothingAt(f);
    } else {
      var last := |trials| - 1;
      PrintsCounted(trials[..last], f);
      assert trials == trials[..last] + [trials[last]];
      OneMoreAt(trials[..last], trials[last], f);
    }
  }

  lemma NothingAt(f: Fingerprint)
    ensures EligibleAt([]) == {} && ShownAt([], f) == {}
  {
  }

  /** The numbers in a classification count replies: the eligible ones are the captures, and the histogram of
      an unstable batch counts, for every fingerprint, the captures with it. */
  lemma CountsByReplies(env: Environment, config: RunConfig, run: Run, asked: Asked, i: nat)
    requires SoundRun(run) && Told(env, config, run, asked) && i < |run.batches|
    ensures i < |run.schedule.roster|
    ensures var c := run.batches[i].classification;
            && c.eligible == |set r: nat | r < run.matrices && Captures(env, CallOf(run, i, r))|
            && (c.status.Unstable? ==> forall f ::
                  (f in c.status.histogram <==> exists r: nat :: r < run.matrices && Shows(env, CallOf(run, i, r), f))
                  && (f in c.status.histogram ==>
                        c.status.histogram[f] == |set r: nat | r < run.matrices && Shows(env, CallOf(run, i, r), f)|))
  {
    hide SoundRun, Told, Classify, Records, Shows, Captures, CallOf, EligibilityOf, Fingerprints, Histogram;
    BatchTells(env, config, run, asked, i);
    var trials := run.batches[i].trials;
    ClassifiedCounts(run.schedule, trials, run.status == IncompleteRun);
    forall r: nat | r < run.matrices
      ensures EligibilityOf(trials[r]).Eligible? <==> Captures(env, CallOf(run, i, r))
      ensures forall f :: EligibilityOf(trials[r]) == Eligible(f) <==> Shows(env, CallOf(run, i, r), f)
    {
      TrialTells(env, CallOf(run, i, r), trials[r]);
    }
    assert EligibleAt(trials) == set r: nat | r < run.matrices && Captures(env, CallOf(run, i, r));
    forall f ensures ShownAt(trials, f) == set r: nat | r < run.matrices && Shows(env, CallOf(run, i, r), f) {
    }
    PrintsCounted(trials, []);
    forall f
      ensures multiset(Fingerprints(trials))[f] == |set r: nat | r < run.matrices && Shows(env, CallOf(run, i, r), f)|
      ensures f in Fingerprints(trials) <==> exists r: nat :: r < run.matrices && Shows(env, CallOf(run, i, r), f)
    {
      PrintsCounted(trials, f);
      SomeShown(trials, f);
    }
  }

  lemma SomeShown(trials: seq<TrialFact>, f: Fingerprint)
    ensures f in Fingerprints(trials) <==> exists r: nat :: r < |trials| && EligibilityOf(trials[r]) == Eligible(f)
  {
    hide EligibilityOf, Fingerprints;
    PrintsCounted(trials, f);
    assert f in Fingerprints(trials) <==> multiset(Fingerprints(trials))[f] > 0;
    if r: nat :| r < |trials| && EligibilityOf(trials[r]) == Eligible(f) {
      assert r in ShownAt(trials, f);
    }
    if ShownAt(trials, f) != {} {
      var r :| r in ShownAt(trials, f);
    }
  }

  lemma ClassifiedCounts(schedule: Schedule, trials: seq<TrialFact>, force: bool)
    requires Classify(schedule, trials, force).Ok?
    ensures var c := Classify(schedule, trials, force).value.classification;
            && c.eligible == |Fingerprints(trials)|
            && (c.status.Unstable? ==>
                  (forall f :: f in c.status.histogram <==> f in Fingerprints(trials))
                  && forall f <- c.status.histogram :: c.status.histogram[f] == multiset(Fingerprints(trials))[f])
  {
    hide EligibilityOf, FirstTrialRefusal, FirstOrdinalRefusal, HeaderRefusal, ReasonsOf, Fingerprints, Observations, Disagree;
  }

  /** What an exposed trial holds, by the kind of its reply. */
  lemma TrialByReply(env: Environment, config: RunConfig, run: Run, asked: Asked, i: nat, r: nat)
    requires SoundRun(run) && Told(env, config, run, asked) && i < |run.batches| && r < |run.batches[i].trials|
    ensures i < |run.schedule.roster| && CallOf(run, i, r) >= 0 && env.reply(CallOf(run, i, r)).Produced?
    ensures var p, t := env.reply(CallOf(run, i, r)).trial, run.batches[i].trials[r];
            && t.world == p.world && t.attempt == p.attempt
            && (p.kind == CapturedKind ==> t.CapturedFact? && t.capture == p.capture)
            && (p.kind == ControlledKind ==>
                  && t.ControlledFact? && t.rejection.None?
                  && t.controls == if p.attempt.primary.Some? then [p.attempt.primary.value] + p.attempt.teardown else p.attempt.teardown)
            && (p.kind == RejectedKind ==> t.ControlledFact? && t.rejection == Some(p.rejection) && t.controls == [ProjectionRejected])
            && p.kind != OtherKind
  {
    hide SoundRun, Told, SoundFact, FactEvidence, PreparedEvidence, CallOf, Classify;
    BatchTells(env, config, run, asked, i);
    assert Records(env, CallOf(run, i, r), run.batches[i].trials[r]);
  }
}
