/** From an observation run to its candidate outcome map. */
module RunOutcome {
  import opened Bytes
  import opened Sorting
  import opened Domain
  import opened Schedule
  import opened Assessment
  import opened Eligibility
  import opened Classification
  import opened ObservationRun
  import opened OutcomeMap

  // ------------------------------------------------------------- one batch

  /** What the classifier's acceptance says of a batch. */
  ghost predicate BuiltFrom(b: Batch, schedule: Schedule, c: Candidate)
  {
    && b.trials != [] && b.schedule == schedule && b.candidate == c && ValidCandidate(c)
    && ValidDigest(b.binding.plan) && ValidDigest(b.binding.stimulus) && ValidDigest(b.envelope)
    && ValidDigest(b.capturePolicy) && ValidDigest(b.definition) && ValidPurpose(b.binding.purpose)
    && b.admissions == Admissions(b.trials) && b.observations == Observations(b.trials)
    && var a := b.trials[0].token.admission;
       b.binding == a.binding && b.envelope == a.envelope && b.basis == BasisOf(a) && b.roster == a.roster && c in a.roster
  }

  lemma BatchIsBuilt(schedule: Schedule, c: Candidate, trials: seq<TrialFact>, incomplete: bool)
    requires Scheduled(schedule, c, trials, incomplete).Ok?
    ensures BuiltFrom(Scheduled(schedule, c, trials, incomplete).value, schedule, c)
    ensures Classify(schedule, trials, incomplete) == Scheduled(schedule, c, trials, incomplete)
  {
    hide ValidSchedule, ValidCandidate, ValidDigest, Classified, FirstOrdinalRefusal, FirstTrialRefusal, EligibilityOf, ObservationOf,
      SlotOf, Observations, Admissions, Ordinals;
    ScheduledHolds(schedule, c, trials, incomplete);
    NoTrialRefused(trials, 0, 0);
    assert InSlot(schedule, c, trials, 0);
  }

  /** The observations of the trials, each once. */
  ghost predicate ObservedOnce(trials: seq<TrialFact>)
  {
    && CleanEvidence(Observations(trials))
    && forall d :: d in Observations(trials) <==> exists t <- trials :: ObservationOf(t) == Some(d)
  }

  lemma ObservedNext(before: seq<TrialFact>, t: TrialFact)
    requires ObservedOnce(before)
    requires ObservationOf(t).Some? ==> ValidDigest(ObservationOf(t).value) && forall b <- before :: ObservationOf(b) != ObservationOf(t)
    ensures ObservedOnce(before + [t])
  {
    hide ObservationOf, ValidDigest;
    var all := before + [t];
    assert all[..|before|] == before;
    assert forall x :: x in all <==> x in before || x == t;
  }

  lemma {:induction false} ObservationsClean(trials: seq<TrialFact>, k: nat)
    requires k <= |trials| && FirstTrialRefusal(trials, 0).None?
    ensures ObservedOnce(trials[..k])
  {
    hide FirstTrialRefusal, EligibilityOf, ObservationOf, ValidDigest, SameBatch;
    if k > 0 {
      hide ObservedOnce;
      ObservationsClean(trials, k - 1);
      NoTrialRefused(trials, 0, k - 1);
      ObservedNext(trials[..k - 1], trials[k - 1]);
      assert trials[..k] == trials[..k - 1] + [trials[k - 1]];
    }
  }

  lemma EvidenceIsClean(schedule: Schedule, trials: seq<TrialFact>, incomplete: bool)
    requires Classify(schedule, trials, incomplete).Ok?
    ensures CleanBatch(Classify(schedule, trials, incomplete).value)
    ensures DistinctAdmissions(Admissions(trials))
    ensures forall d :: d in Observations(trials) <==> exists t <- trials :: ObservationOf(t) == Some(d)
  {
    hide EligibilityOf, ObservationOf, Observations, Classified, FirstTrialRefusal, FirstOrdinalRefusal, HeaderRefusal, ValidDigest, SameBatch;
    ObservationsClean(trials, |trials|);
    assert trials[..|trials|] == trials;
    forall i, j | 0 <= i < j < |trials|
      ensures trials[i].attempt.digest != trials[j].attempt.digest && trials[i].world.digest != trials[j].world.digest
      ensures trials[i].token.admission != trials[j].token.admission
    {
      BatchEvidenceIsFresh(schedule, trials, incomplete, i, j);
    }
    forall i | 0 <= i < |trials| ensures ValidDigest(trials[i].attempt.digest) && ValidDigest(trials[i].world.digest) {
      NoTrialRefused(trials, 0, i);
    }
  }

  lemma FingerprintIsValid(schedule: Schedule, trials: seq<TrialFact>, incomplete: bool)
    requires Classify(schedule, trials, incomplete).Ok?
    ensures var status := Classify(schedule, trials, incomplete).value.classification.status;
            status.ObservedStable? ==> ValidDigest(status.fingerprint)
  {
    hide EligibilityOf, FirstTrialRefusal, FirstOrdinalRefusal, HeaderRefusal, ReasonsOf, Fingerprints, Disagree, ValidDigest, Histogram;
    PrintsCount(trials);
    if ReasonsOf(trials) == {} {
      EligiblePrint(trials[0]);
    }
  }

  lemma EligiblePrint(t: TrialFact)
    ensures EligibilityOf(t).Eligible? ==> ValidDigest(EligibilityOf(t).fingerprint)
  {
    hide ValidDigest, ValidToken;
  }

  // -------------------------------------------------------------- the whole run

  /** Batch `i` of a sound run, with its own evidence in order. */
  lemma RunBatch(run: Run, i: nat)
    requires SoundRun(run) && i < |run.batches|
    ensures i < |run.schedule.roster| && |run.batches[i].trials| == run.matrices
    ensures BuiltFrom(run.batches[i], run.schedule, run.schedule.roster[i]) && CleanBatch(run.batches[i])
    ensures DistinctAdmissions(run.batches[i].admissions)
    ensures var status := run.batches[i].classification.status; status.ObservedStable? ==> ValidDigest(status.fingerprint)
    ensures forall d :: d in run.batches[i].observations <==> exists t <- run.batches[i].trials :: ObservationOf(t) == Some(d)
  {
    hide ValidSchedule, Scheduled, Classify, CleanBatch, ObservationOf, Observations, Admissions, NoEvidenceReused, BudgetKept, StatusTold,
      MapInputMatches, MatricesShared, ValidDigest, ValidCandidate, DistinctAdmissions;
    var c, trials, incomplete := run.schedule.roster[i], run.batches[i].trials, run.status == IncompleteRun;
    BatchIsBuilt(run.schedule, c, trials, incomplete);
    EvidenceIsClean(run.schedule, trials, incomplete);
    FingerprintIsValid(run.schedule, trials, incomplete);
  }

  lemma RunBatchesApart(run: Run, i: nat, j: nat)
    requires SoundRun(run) && i < j < |run.batches|
    ensures ApartBatches(run.batches[i], run.batches[j])
  {
    hide SoundRun, CleanBatch, ObservationOf, Observations, Admissions, ValidDigest, ValidCandidate, DistinctAdmissions, FactEvidence, Apart;
    RosterOfRun(run);
    RunBatch(run, i);
    RunBatch(run, j);
    EvidenceApart(run, i, j);
    AttemptsApart(run.batches[i], run.batches[j]);
    ObservationsApart(run.batches[i], run.batches[j]);
  }

  lemma RosterOfRun(run: Run)
    requires SoundRun(run)
    ensures NoRepeats(run.schedule.roster)
  {
    hide ValidSchedule, NoEvidenceReused, BatchesClassified, MatricesShared, CompleteMatrices, BudgetKept, StatusTold, MapInputMatches;
    RosterHasNoRepeats(run.schedule);
  }

  lemma EvidenceApart(run: Run, i: nat, j: nat)
    requires SoundRun(run) && i < j < |run.batches|
    ensures var a, b := run.batches[i], run.batches[j];
            forall r, q :: 0 <= r < |a.trials| && 0 <= q < |b.trials| ==> Apart(FactEvidence(a.trials[r]), FactEvidence(b.trials[q]))
  {
    hide ValidSchedule, BatchesClassified, MatricesShared, CompleteMatrices, BudgetKept, StatusTold, MapInputMatches, FactEvidence, Apart;
    assert NoEvidenceReused(run);
  }

  lemma AttemptsApart(a: Batch, b: Batch)
    requires forall r, q :: 0 <= r < |a.trials| && 0 <= q < |b.trials| ==> Apart(FactEvidence(a.trials[r]), FactEvidence(b.trials[q]))
    ensures DisjointLists(Attempts(a), Attempts(b)) && DisjointLists(Worlds(a), Worlds(b))
  {
    hide ObservationOf;
    assert forall r :: 0 <= r < |a.trials| ==> FactEvidence(a.trials[r]).attempt == Attempts(a)[r];
    assert forall r :: 0 <= r < |a.trials| ==> FactEvidence(a.trials[r]).world == Worlds(a)[r];
  }

  lemma ObservationsApart(a: Batch, b: Batch)
    requires forall d :: d in a.observations <==> exists t <- a.trials :: ObservationOf(t) == Some(d)
    requires forall d :: d in b.observations <==> exists t <- b.trials :: ObservationOf(t) == Some(d)
    requires forall r, q :: 0 <= r < |a.trials| && 0 <= q < |b.trials| ==> Apart(FactEvidence(a.trials[r]), FactEvidence(b.trials[q]))
    ensures DisjointLists(a.observations, b.observations)
  {
    hide ObservationOf;
    forall d <- a.observations ensures d !in b.observations {
      var t :| t in a.trials && ObservationOf(t) == Some(d);
      var r :| 0 <= r < |a.trials| && a.trials[r] == t;
      forall u <- b.trials ensures ObservationOf(u) != Some(d) {
        var q :| 0 <= q < |b.trials| && b.trials[q] == u;
        assert Apart(FactEvidence(a.trials[r]), FactEvidence(b.trials[q]));
      }
    }
  }

  /** The admission of a matrix names exactly the roster. */
  lemma AdmissionNamesRoster(run: Run, i: nat)
    requires SoundRun(run) && i < |run.batches|
    ensures run.batches[i].roster == run.schedule.roster
  {
    hide Scheduled, CleanBatch, Observations, Admissions, BudgetKept, StatusTold, MapInputMatches, ValidDigest, ValidCandidate,
      BatchesClassified, NoEvidenceReused, DistinctAdmissions, InSlot, Trials, Less;
    var roster, named := run.schedule.roster, run.batches[i].roster;
    RosterHasNoRepeats(run.schedule);
    RunBatch(run, i);
    assert SortedRoster(run.batches[i].trials[0].token.admission, |roster|);
    forall c <- roster ensures c in named {
      var j :| 0 <= j < |roster| && roster[j] == c;
      RunBatch(run, j);
      assert run.batches[j].trials[0].token.admission == run.batches[i].trials[0].token.admission;
    }
    StrictIsDistinct(named, Itself);
    assert NoRepeats(named) by {
      assert forall x, y :: 0 <= x < y < |named| ==> Itself(named[x]) != Itself(named[y]);
    }
    RosterCounted(roster);
    RosterCounted(named);
    SubsetSize(SetOf(roster), SetOf(named));
    assert forall c :: c in named <==> c in SetOf(named);
    assert forall c :: c in roster <==> c in SetOf(roster);
    StrictlySortedUnique(roster, named, Itself);
  }

  /** All but the capture policy and the projection definition is shared by the batches of a run. */
  lemma BatchesAgree(run: Run, i: nat, j: nat)
    requires SoundRun(run) && i < |run.batches| && j < |run.batches|
    ensures var a, b := run.batches[i], run.batches[j];
            && a.admissions == b.admissions && a.binding == b.binding && a.envelope == b.envelope && a.basis == b.basis
            && a.schedule == b.schedule
  {
    hide ValidSchedule, Scheduled, CleanBatch, Observations, BudgetKept, StatusTold, MapInputMatches, ValidDigest, ValidCandidate,
      BatchesClassified, NoEvidenceReused, CompleteMatrices, SortedRoster, DistinctAdmissions;
    RunBatch(run, i);
    RunBatch(run, j);
    assert run.batches[i].trials[0].token.admission == run.batches[j].trials[0].token.admission;
  }

  predicate OneProjection(batches: seq<Batch>)
  {
    forall a <- batches, b <- batches :: a.capturePolicy == b.capturePolicy && a.definition == b.definition
  }

  lemma RunBatchIsBound(run: Run, i: nat)
    requires SoundRun(run) && i < |run.batches|
    ensures BoundBatch(run.batches[0].binding.stimulus, run.batches[0].envelope, run.schedule.roster, run.batches[i])
  {
    hide ValidSchedule, Scheduled, CleanBatch, Observations, BudgetKept, StatusTold, MapInputMatches, ValidDigest, ValidCandidate,
      BatchesClassified, NoEvidenceReused, CompleteMatrices, MatricesShared, DistinctAdmissions;
    RunBatch(run, i);
    BatchesAgree(run, 0, i);
    AdmissionNamesRoster(run, i);
  }

  /** The map input of a run is accepted exactly when its batches share one capture policy and one
      projection definition: everything else the map asks for, every run has. */
  lemma RunMapsExactly(run: Run)
    requires SoundRun(run) && run.mapInput.Some?
    ensures var input := run.mapInput.value;
            Acceptable(input.stimulus, input.envelope, input.roster, input.batches) <==> OneProjection(run.batches)
  {
    hide SoundRun, ValidDigest, ValidCandidate, BoundBatch, CleanBatch, ApartBatches, DistinctAdmissions, Less;
    InputOfRun(run);
    var batches, roster := run.batches, run.schedule.roster;
    RunBatch(run, 0);
    forall i | 0 <= i < |batches|
      ensures BoundBatch(batches[0].binding.stimulus, batches[0].envelope, roster, batches[i]) && CleanBatch(batches[i])
    {
      RunBatch(run, i);
      RunBatchIsBound(run, i);
    }
    forall i, j | 0 <= i < j < |batches| ensures ApartBatches(batches[i], batches[j]) {
      RunBatchesApart(run, i, j);
    }
    forall i, j | 0 <= i < |batches| && 0 <= j < |batches|
      ensures SameRun(batches[i], batches[j])
              <==> batches[i].capturePolicy == batches[j].capturePolicy && batches[i].definition == batches[j].definition
    {
      BatchesAgree(run, i, j);
    }
    SortByIdempotent(roster, Itself);
  }

  lemma InputOfRun(run: Run)
    requires SoundRun(run) && run.mapInput.Some?
    ensures run.batches != [] && |run.batches| == |run.schedule.roster|
    ensures run.mapInput.value
         == OutcomeMapInput(run.batches[0].binding.stimulus, run.batches[0].envelope, run.schedule.roster, run.batches)
    ensures 2 <= |run.schedule.roster| <= 4 && NoRepeats(run.schedule.roster) && StrictlySorted(run.schedule.roster, Itself)
    ensures forall c <- run.schedule.roster :: ValidCandidate(c)
  {
    hide Scheduled, NoEvidenceReused, BatchesClassified, MatricesShared, ValidCandidate, Less, Trials, InSlot;
    RosterHasNoRepeats(run.schedule);
  }
}
