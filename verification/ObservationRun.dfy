/** One observation run: a producer called in schedule order, matrix by matrix, under a trial and a
    wall budget. The clock, the cancellation of the caller and the producer are arbitrary. */
module ObservationRun {
  import opened Bytes
  import opened Domain
  import opened Sorting
  import opened Schedule
  import opened Envelopes
  import opened Assessment
  import opened MatrixRecords
  import opened Eligibility
  import opened Classification

  datatype PreparedKind = CapturedKind | ControlledKind | RejectedKind | OtherKind

  /** The producer's hand-over, whatever it holds. */
  datatype PreparedTrial = PreparedTrial(
    slot: ScheduledTrial, kind: PreparedKind, world: World, attempt: Attempt, measurements: Measurements,
    capture: Capture, rejection: RejectionEvidence)

  /** A producer error may be the caller's own cancellation, or a deadline error. */
  datatype Reply = Produced(trial: PreparedTrial) | Failed(isParentError: bool, isDeadlineError: bool)

  /** The n-th reading of the clock, the n-th look at the caller's context, the n-th producer call. */
  datatype Environment = Environment(clock: nat -> int, cancelled: nat -> bool, reply: nat -> Reply)

  /** How often a run read the clock, looked at the caller's context and called the producer. */
  datatype Asked = Asked(clock: nat, caller: nat, producer: nat)

  datatype Rotation = StartByRepetition | OtherRotation

  datatype Plan = Plan(
    digest: Digest, envelope: Digest, candidates: int, discoveryRepeats: int, confirmationRepeats: int, rotation: Rotation)

  datatype RunConfig = RunConfig(
    plan: Plan, purpose: Purpose, envelope: Envelope, roster: seq<Candidate>, repetitions: int, budget: Budget)

  datatype RunError =
    | InvalidConfig | ScheduleRefused(schedule: ScheduleError) | PlanMismatch | InvalidBudget | ProducerFailed
    | ScheduleMismatch | InvalidPrepared | PreparedLineageMismatch | RepeatRequirementMismatch
    | ReusedOrchestrationAttempt | ReusedOrchestrationWorld | ReusedOrchestrationObservation
    | AssessmentRefused(refusal: Refusal) | NotInComparison | UnknownPreparedKind | FactRefused(fact: ObserveError)
    | BatchRefused(batch: ObserveError)

  datatype RunStatus = CompleteRun | IncompleteRun | RejectedRun

  datatype OutcomeMapInput = OutcomeMapInput(stimulus: Digest, envelope: Digest, roster: seq<Candidate>, batches: seq<Batch>)

  datatype Run = Run(
    status: RunStatus, schedule: Schedule, matrices: nat, batches: seq<Batch>, rejection: Option<Comparison>,
    budget: Snapshot, mapInput: Option<OutcomeMapInput>)

  // ------------------------------------------------------ checks on one reply

  function PreparedRefusal(p: PreparedTrial): Option<RunError>
  {
    if !ValidCandidate(p.slot.candidate) || p.slot.repetition < 0 || p.slot.position < 0 || p.slot.ordinal < 0
       || !ValidDigest(p.world.digest) || !ValidDigest(p.attempt.digest) || !ValidDigest(p.measurements.digest)
    then Some(InvalidPrepared)
    else if p.world.candidate != p.slot.candidate || p.world.ordinal != p.slot.ordinal
         || p.world.attempt != p.attempt.digest || p.world.binding.purpose != p.attempt.purpose
         || p.measurements.subject != p.world.digest then Some(PreparedLineageMismatch)
    else None
  }

  /** `validateProducedSlot`. */
  function SlotRefusal(p: PreparedTrial, slot: ScheduledTrial, schedule: Schedule, plan: Plan, purpose: Purpose): Option<RunError>
  {
    if p.slot != slot || !slot.Valid(|schedule.roster|, schedule.repetitions) then Some(ScheduleMismatch)
    else if PreparedRefusal(p).Some? then PreparedRefusal(p)
    else if p.world.binding.plan != plan.digest || p.world.binding.purpose != purpose
         || p.world.binding.requiredTrials != schedule.repetitions then Some(RepeatRequirementMismatch)
    else None
  }

  /** `PreparedTrial.admit`. */
  function Admit(p: PreparedTrial, comparison: Comparison): Result<TrialFact, RunError>
    requires comparison.Admitted?
  {
    var token := AdmissionFor(comparison, p.measurements);
    if token.None? then Err(NotInComparison)
    else
      var fact :=
        match p.kind
        case CapturedKind => NewCapturedTrial(p.world, p.attempt, token.value, p.capture)
        case ControlledKind => NewControlledTrial(p.world, p.attempt, token.value)
        case RejectedKind => NewProjectionRejectedTrial(p.world, p.attempt, token.value, p.rejection)
        case OtherKind => Err(InvalidAuthority);
      if p.kind.OtherKind? then Err(UnknownPreparedKind)
      else if fact.Err? then Err(FactRefused(fact.error))
      else Ok(fact.value)
  }

  // -------------------------------------------------------------- evidence

  /** What may be used only once in a run. */
  datatype Evidence = Evidence(attempt: Digest, world: Digest, observation: Option<Digest>)

  function PreparedEvidence(p: PreparedTrial): Evidence
  {
    Evidence(p.attempt.digest, p.world.digest,
             if p.kind == CapturedKind then Some(p.capture.observation)
             else if p.kind == RejectedKind then Some(p.rejection.observation) else None)
  }

  function FactEvidence(t: TrialFact): Evidence
  {
    Evidence(t.attempt.digest, t.world.digest, ObservationOf(t))
  }

  /** The fact records the producer's reply: a capture unchanged, the controls of the attempt in their
      order, or a rejection with its evidence. */
  predicate FromReply(t: TrialFact, p: PreparedTrial)
  {
    && t.world == p.world && t.attempt == p.attempt && FactEvidence(t) == PreparedEvidence(p) && SoundFact(t)
    && match p.kind
       case CapturedKind => t == CapturedFact(p.world, p.attempt, t.token, p.capture)
       case ControlledKind => t == ControlledFact(p.world, p.attempt, t.token, ReportedControls(p.attempt), None)
       case RejectedKind => t == ControlledFact(p.world, p.attempt, t.token, [ProjectionRejected], Some(p.rejection))
       case OtherKind => false
  }

  /** The primary control, if there is one, and then those of the teardown. */
  function ReportedControls(a: Attempt): seq<Control>
  {
    if a.primary.Some? then [a.primary.value] + a.teardown else a.teardown
  }

  predicate SoundFact(t: TrialFact)
  {
    && SoundLineage(t.world, t.attempt, t.token)
    && (t.CapturedFact? ==> !t.attempt.HasControls() && CompleteCapture(t.capture))
  }

  lemma AdmitKeepsReply(p: PreparedTrial, comparison: Comparison)
    requires comparison.Admitted? && Admit(p, comparison).Ok?
    ensures FromReply(Admit(p, comparison).value, p)
    ensures AdmissionFor(comparison, p.measurements) == Some(Admit(p, comparison).value.token)
  {
    hide SoundLineage, ValidDigest, AdmissionFor;
  }

  predicate Apart(a: Evidence, b: Evidence)
  {
    a.attempt != b.attempt && a.world != b.world && (a.observation.Some? ==> a.observation != b.observation)
  }

  predicate Fresh(log: seq<Evidence>)
  {
    forall i, j :: 0 <= i < j < |log| ==> Apart(log[i], log[j])
  }

  // ---------------------------------------------------------- what a run promises

  /** One batch per candidate, each with exactly the admitted repetitions 0, 1, ..., in schedule order. */
  predicate CompleteMatrices(run: Run)
  {
    && |run.batches| == |run.schedule.roster|
    && forall i :: 0 <= i < |run.batches| ==>
      && |run.batches[i].trials| == run.matrices
      && forall r :: 0 <= r < run.matrices ==> InSlot(run.schedule, run.schedule.roster[i], run.batches[i].trials, r)
  }

  /** Every exposed batch is what the classifier makes of its trials. */
  ghost predicate BatchesClassified(run: Run)
  {
    |run.batches| <= |run.schedule.roster| && forall i :: 0 <= i < |run.batches| ==>
      Scheduled(run.schedule, run.schedule.roster[i], run.batches[i].trials, run.status == IncompleteRun) == Ok(run.batches[i])
  }

  /** The admission names so many candidates, in strict order. */
  predicate SortedRoster(a: Admission, n: nat)
  {
    |a.roster| == n && StrictlySorted(a.roster, Itself)
  }

  /** The trials of one repetition were admitted together, by a matrix of the roster's size. */
  predicate MatricesShared(run: Run)
  {
    && (forall i, j, r ::
          && 0 <= i < |run.batches| && 0 <= j < |run.batches|
          && 0 <= r < |run.batches[i].trials| && r < |run.batches[j].trials|
          ==> run.batches[i].trials[r].token.admission == run.batches[j].trials[r].token.admission)
    && forall i, r :: 0 <= i < |run.batches| && 0 <= r < |run.batches[i].trials|
         ==> SortedRoster(run.batches[i].trials[r].token.admission, |run.schedule.roster|)
  }

  /** No attempt, world or observation appears twice among all exposed trials. */
  predicate NoEvidenceReused(run: Run)
  {
    forall i, r, j, q ::
      && 0 <= i < |run.batches| && 0 <= r < |run.batches[i].trials|
      && 0 <= j < |run.batches| && 0 <= q < |run.batches[j].trials| && (i != j || r != q)
      ==> Apart(FactEvidence(run.batches[i].trials[r]), FactEvidence(run.batches[j].trials[q]))
  }

  /** Started and completed trials bracket the admitted ones, and the trial budget only ever runs
      out between two matrices. */
  predicate BudgetKept(run: Run, n: nat)
  {
    var b := run.budget;
    && n * run.matrices <= b.completed <= b.started <= b.budget.maxTotalTrials
    && (b.exhaustion == TrialExhausted ==> b.started == b.completed == n * run.matrices == b.budget.maxTotalTrials)
    && (b.exhaustion == MatrixWouldSplit ==>
          b.started == b.completed == n * run.matrices < b.budget.maxTotalTrials < n * run.matrices + n)
  }

  predicate StatusTold(run: Run)
  {
    && (run.status == CompleteRun ==>
          && run.matrices == run.schedule.repetitions && run.budget.exhaustion == Available
          && forall b <- run.batches :: !b.classification.status.Incomplete?)
    && (run.status == IncompleteRun ==> forall b <- run.batches :: !b.classification.status.ObservedStable?)
    && (run.status == RejectedRun <==> run.rejection.Some?)
    && (run.rejection.Some? ==> run.rejection.value.Rejection? && run.batches == [] && run.mapInput.None?)
  }

  predicate MapInputMatches(run: Run)
  {
    && (run.mapInput.Some? <==> run.status != RejectedRun && run.matrices > 0)
    && (run.mapInput.Some? ==>
          run.batches != [] && run.mapInput.value
          == OutcomeMapInput(run.batches[0].binding.stimulus, run.batches[0].envelope, run.schedule.roster, run.batches))
  }

  ghost predicate SoundRun(run: Run)
  {
    && ValidSchedule(run.schedule) && run.matrices <= run.schedule.repetitions
    && (run.batches != [] ==> CompleteMatrices(run)) && NoEvidenceReused(run) && BatchesClassified(run) && MatricesShared(run)
    && BudgetKept(run, |run.schedule.roster|) && StatusTold(run) && MapInputMatches(run)
  }

  /** Go on with a value, or leave the run with a result. */
  datatype Step<T> = Next(value: T) | Halt(result: Result<Run, RunError>)

  // ------------------------------------------------------------ why a run ends

  /** The producer returned a trial in each of `n` calls from call `start` on. */
  predicate Returned(env: Environment, start: nat, n: nat)
  {
    forall p :: start <= p < start + n ==> env.reply(p).Produced?
  }

  /** The measured rows of these calls. */
  function Rows(env: Environment, start: nat, n: nat): (rows: seq<Measurements>)
    requires Returned(env, start, n)
    ensures |rows| == n && forall p :: 0 <= p < n ==> rows[p] == env.reply(start + p).trial.measurements
  {
    seq(n, p requires 0 <= p < n => env.reply(start + p).trial.measurements)
  }

  /** Trial `r` of each batch is the reply to the call numbered by its slot's ordinal: the producer is
      called strictly in schedule order. */
  ghost predicate TrialsAreReplies(env: Environment, run: Run, calls: nat)
  {
    |run.batches| <= |run.schedule.roster| && forall i, r :: 0 <= i < |run.batches| && 0 <= r < |run.batches[i].trials| ==>
      IsReply(env, run.schedule, run.schedule.roster[i], r, run.batches[i].trials[r], calls)
  }

  ghost predicate IsReply(env: Environment, schedule: Schedule, c: Candidate, r: nat, t: TrialFact, calls: nat)
    requires c in schedule.roster
  {
    var ordinal := SlotOf(schedule.roster, schedule.startOffset, r, c).ordinal;
    0 <= ordinal < calls && Records(env, ordinal, t)
  }

  /** One of the clock's readings so far was past the wall budget. */
  ghost predicate WallPassed(env: Environment, wall: int, readings: nat)
  {
    exists t: nat :: t < readings && env.clock(t) >= env.clock(0) + wall
  }

  /** One of the looks at the caller so far found it done. */
  ghost predicate CallerDone(env: Environment, looks: nat)
  {
    exists p: nat :: p < looks && env.cancelled(p)
  }

  /** The calls of repetition `r`, `n` at a time, were assessed as one matrix with this admission. */
  ghost predicate MatrixAdmitted(env: Environment, envelope: Envelope, n: nat, r: nat, a: Admission)
  {
    Returned(env, n * r, n) && AdmittedBy(envelope, Rows(env, n * r, n), a)
  }

  /** Every exposed trial has the admission of its matrix. */
  ghost predicate MatricesAdmitted(env: Environment, config: RunConfig, run: Run)
  {
    forall i, r: nat :: 0 <= i < |run.batches| && r < |run.batches[i].trials| ==>
      MatrixAdmitted(env, config.envelope, |run.schedule.roster|, r, run.batches[i].trials[r].token.admission)
  }

  /** A producer error in the last call is excused when it is the caller's own and the caller was then done, or
      a deadline error and the clock was then past the wall budget. */
  predicate LastCallExcused(env: Environment, config: RunConfig, asked: Asked)
  {
    asked.producer > 0 && env.reply(asked.producer - 1).Failed? ==>
      var reply := env.reply(asked.producer - 1);
      || (reply.isParentError && asked.caller > 0 && env.cancelled(asked.caller - 1))
      || (reply.isDeadlineError && asked.clock > 0 && env.clock(asked.clock - 1) >= env.clock(0) + config.budget.wall)
  }

  /** What an admitted, rejected or incomplete run says about the part of the environment it has seen. */
  ghost predicate Told(env: Environment, config: RunConfig, run: Run, asked: Asked)
  {
    && TrialsAreReplies(env, run, asked.producer) && MatricesAdmitted(env, config, run)
    && LastCallExcused(env, config, asked)
    && (run.status == IncompleteRun && run.budget.exhaustion == Available ==> CallerDone(env, asked.caller))
    && (run.budget.exhaustion == WallExhausted ==> WallPassed(env, config.budget.wall, asked.clock))
    && (run.rejection.Some? ==>
          var start, n := |run.schedule.roster| * run.matrices, |run.schedule.roster|;
          start + n == asked.producer && Returned(env, start, n)
          && Assess(config.envelope, Rows(env, start, n)) == Ok(run.rejection.value))
  }

  /** What a refused run says: in its last call the producer failed, or returned something that a check
      refuses, alone or with the calls before it. */
  ghost predicate Cause(env: Environment, config: RunConfig, schedule: Schedule, e: RunError, asked: Asked)
  {
    var calls, n := asked.producer, |schedule.roster|;
    var last, start := calls - 1, calls - n;
    && 0 < calls <= |schedule.trials|
    && match e
       case ProducerFailed => env.reply(last).Failed? && !LastCallExcused(env, config, asked)
       case ScheduleMismatch | InvalidPrepared | PreparedLineageMismatch | RepeatRequirementMismatch =>
         RefusedSlot(env, config, schedule, last, e)
       case ReusedOrchestrationAttempt | ReusedOrchestrationWorld | ReusedOrchestrationObservation =>
         ReusesEarlier(env, last)
       case AssessmentRefused(refusal) =>
         n <= calls && Returned(env, start, n) && Assess(config.envelope, Rows(env, start, n)) == Err(refusal)
       case NotInComparison | UnknownPreparedKind | FactRefused(_) =>
         n <= calls && SomeNotAdmitted(env, config, start, n, e)
       case BatchRefused(batch) => SomeBatchRefused(env, schedule, batch, calls)
       case _ => false
  }

  /** The reply to this call does not fit its slot. */
  predicate RefusedSlot(env: Environment, config: RunConfig, schedule: Schedule, call: nat, e: RunError)
    requires call < |schedule.trials|
  {
    && env.reply(call).Produced?
    && SlotRefusal(env.reply(call).trial, schedule.trials[call], schedule, config.plan, config.purpose) == Some(e)
  }

  predicate Reused(env: Environment, b: nat, c: nat)
  {
    && env.reply(b).Produced? && env.reply(c).Produced?
    && !Apart(PreparedEvidence(env.reply(b).trial), PreparedEvidence(env.reply(c).trial))
  }

  ghost predicate ReusesEarlier(env: Environment, last: nat)
  {
    exists b: nat :: b < last && Reused(env, b, last)
  }

  ghost predicate SomeNotAdmitted(env: Environment, config: RunConfig, start: nat, n: nat, e: RunError)
  {
    exists p: nat :: p < n && NotAdmitted(env, config, start, n, p, e)
  }

  ghost predicate SomeBatchRefused(env: Environment, schedule: Schedule, e: ObserveError, calls: nat)
  {
    exists c, list, incomplete :: RefusedBatch(env, schedule, c, list, incomplete, e, calls)
  }

  predicate NotAdmitted(env: Environment, config: RunConfig, start: nat, n: nat, p: nat, e: RunError)
    requires p < n
  {
    && Returned(env, start, n)
    && var assessed := Assess(config.envelope, Rows(env, start, n));
       assessed.Ok? && assessed.value.Admitted? && Admit(env.reply(start + p).trial, assessed.value) == Err(e)
  }

  ghost predicate RefusedBatch(env: Environment, schedule: Schedule, c: Candidate, list: seq<TrialFact>, incomplete: bool,
                               e: ObserveError, calls: nat)
  {
    && c in schedule.roster && Scheduled(schedule, c, list, incomplete) == Err(e)
    && forall r :: 0 <= r < |list| ==> IsReply(env, schedule, c, r, list[r], calls)
  }

  predicate FiledAt(schedule: Schedule, list: seq<TrialFact>, facts: seq<TrialFact>, c: Candidate, r: nat)
    requires c in schedule.roster && r < |list|
  {
    var ordinal := SlotOf(schedule.roster, schedule.startOffset, r, c).ordinal;
    0 <= ordinal < |facts| && list[r] == facts[ordinal]
  }

  predicate FreshFacts(facts: seq<TrialFact>)
  {
    forall i, j :: 0 <= i < j < |facts| ==> Apart(FactEvidence(facts[i]), FactEvidence(facts[j]))
  }

  /** The seen sets hold the log, in which no evidence repeats. */
  ghost predicate SeenSets(log: seq<Evidence>, attempts: set<Digest>, worlds: set<Digest>, observations: set<Digest>)
  {
    && Fresh(log) && attempts == (set e <- log :: e.attempt) && worlds == (set e <- log :: e.world)
    && (forall d :: d in observations <==> exists e <- log :: e.observation == Some(d))
  }

  /** The admitted facts are the first entries of the log. */
  ghost predicate Logged(log: seq<Evidence>, facts: seq<TrialFact>)
  {
    |facts| <= |log| && forall i :: 0 <= i < |facts| ==> FactEvidence(facts[i]) == log[i]
  }

  /** Entry `i` of the log is the evidence of reply `i`. */
  ghost predicate Replied(env: Environment, log: seq<Evidence>)
  {
    forall i :: 0 <= i < |log| ==> env.reply(i).Produced? && log[i] == PreparedEvidence(env.reply(i).trial)
  }

  /** The fact records reply `i`. */
  predicate Records(env: Environment, i: nat, t: TrialFact)
  {
    env.reply(i).Produced? && FromReply(t, env.reply(i).trial)
  }

  /** Fact `i` records reply `i`. */
  ghost predicate Recorded(env: Environment, facts: seq<TrialFact>)
  {
    forall i :: 0 <= i < |facts| ==> Records(env, i, facts[i])
  }

  lemma RecordedMore(env: Environment, facts: seq<TrialFact>, more: seq<TrialFact>)
    requires Recorded(env, facts)
    requires forall p :: 0 <= p < |more| ==> Records(env, |facts| + p, more[p])
    ensures Recorded(env, facts + more)
  {
    hide Records;
    forall i | 0 <= i < |facts + more| ensures Records(env, i, (facts + more)[i]) {
      if i >= |facts| {
        assert Records(env, |facts| + (i - |facts|), more[i - |facts|]);
      }
    }
  }

  /** What is filed for a candidate are the replies to its slots. */
  lemma FiledIsReply(env: Environment, schedule: Schedule, list: seq<TrialFact>, facts: seq<TrialFact>, c: Candidate, r: nat, calls: nat)
    requires c in schedule.roster && r < |list| && FiledAt(schedule, list, facts, c, r) && Recorded(env, facts) && |facts| <= calls
    ensures IsReply(env, schedule, c, r, list[r], calls)
  {
    hide Records, SlotOf;
  }

  lemma LoggedMore(log: seq<Evidence>, facts: seq<TrialFact>, more: seq<TrialFact>)
    requires Logged(log, facts) && |log| == |facts| + |more|
    requires forall p :: 0 <= p < |more| ==> FactEvidence(more[p]) == log[|facts| + p]
    ensures Logged(log, facts + more)
  {
    hide FactEvidence;
    forall i | 0 <= i < |facts + more| ensures FactEvidence((facts + more)[i]) == log[i] {
      if i >= |facts| {
        assert FactEvidence(more[i - |facts|]) == log[|facts| + (i - |facts|)];
      }
    }
  }

  /** Two candidates, or two repetitions, never share a slot. */
  lemma SlotsDiffer(roster: seq<Candidate>, offset: nat, c: Candidate, r: nat, d: Candidate, q: nat)
    requires NoRepeats(roster) && c in roster && d in roster && (c != d || r != q)
    ensures SlotOf(roster, offset, r, c).ordinal != SlotOf(roster, offset, q, d).ordinal
  {
    if r < q {
      RowsApart(r, q, |roster|);
    } else if q < r {
      RowsApart(q, r, |roster|);
    } else {
      RepetitionPermutes(roster, offset, r, PositionOf(roster, offset, r, c), c);
      RepetitionPermutes(roster, offset, r, PositionOf(roster, offset, r, c), d);
    }
  }

  /** `finishObservation` turned each candidate's list into its batch. */
  ghost predicate Finished(schedule: Schedule, lists: map<Candidate, seq<TrialFact>>, batches: seq<Batch>, incomplete: bool)
  {
    && |batches| <= |schedule.roster|
    && forall i :: 0 <= i < |batches| ==>
      var c := schedule.roster[i];
      c in lists && Scheduled(schedule, c, lists[c], incomplete) == Ok(batches[i])
  }

  lemma ScheduledHolds(schedule: Schedule, c: Candidate, list: seq<TrialFact>, incomplete: bool)
    requires Scheduled(schedule, c, list, incomplete).Ok?
    ensures Scheduled(schedule, c, list, incomplete).value.trials == list && c in schedule.roster
    ensures forall r :: 0 <= r < |list| ==> InSlot(schedule, c, list, r)
  {
    hide ValidSchedule, BatchRefusal, Classified, InSlot, BasisOf, Admissions, Ordinals, Observations;
  }

  lemma FinishedIsComplete(run: Run, lists: map<Candidate, seq<TrialFact>>, incomplete: bool)
    requires Finished(run.schedule, lists, run.batches, incomplete) && |run.batches| == |run.schedule.roster|
    requires forall c <- run.schedule.roster :: c in lists && |lists[c]| == run.matrices
    ensures CompleteMatrices(run)
  {
    hide InSlot, Scheduled;
    forall i | 0 <= i < |run.batches|
      ensures |run.batches[i].trials| == run.matrices
      ensures forall r :: 0 <= r < run.matrices ==> InSlot(run.schedule, run.schedule.roster[i], run.batches[i].trials, r)
    {
      var c := run.schedule.roster[i];
      ScheduledHolds(run.schedule, c, lists[c], incomplete);
    }
  }

  /** Each candidate's list has as many trials as there are matrices, and each matrix one admission. */
  ghost predicate AdmittedTogether(roster: seq<Candidate>, lists: map<Candidate, seq<TrialFact>>, n: nat)
  {
    && (forall c <- roster :: c in lists && |lists[c]| == n)
    && (forall c <- roster, d <- roster, r | 0 <= r < n :: lists[c][r].token.admission == lists[d][r].token.admission)
    && forall c <- roster, r | 0 <= r < n :: SortedRoster(lists[c][r].token.admission, |roster|)
  }

  /** Each filed trial has the admission of its matrix. */
  ghost predicate FiledMatrices(env: Environment, envelope: Envelope, roster: seq<Candidate>, lists: map<Candidate, seq<TrialFact>>, n: nat)
  {
    && (forall c <- roster :: c in lists && |lists[c]| == n)
    && forall c <- roster, r: nat | r < n :: MatrixAdmitted(env, envelope, |roster|, r, lists[c][r].token.admission)
  }

  lemma FiledMatricesMore(env: Environment, envelope: Envelope, roster: seq<Candidate>, before: map<Candidate, seq<TrialFact>>,
                          after: map<Candidate, seq<TrialFact>>, n: nat, admission: Admission)
    requires FiledMatrices(env, envelope, roster, before, n) && MatrixAdmitted(env, envelope, |roster|, n, admission)
    requires forall c <- roster :: c in after && |after[c]| == n + 1 && after[c][..n] == before[c]
    requires forall c <- roster :: after[c][n].token.admission == admission
    ensures FiledMatrices(env, envelope, roster, after, n + 1)
  {
    hide MatrixAdmitted;
    forall c <- roster, r: nat | r < n + 1 ensures MatrixAdmitted(env, envelope, |roster|, r, after[c][r].token.admission) {
      if r < n {
        assert after[c][r] == before[c][r];
      }
    }
  }

  lemma AdmittedMore(roster: seq<Candidate>, before: map<Candidate, seq<TrialFact>>, after: map<Candidate, seq<TrialFact>>, n: nat,
                     admission: Admission)
    requires AdmittedTogether(roster, before, n) && SortedRoster(admission, |roster|)
    requires forall c <- roster :: c in after && |after[c]| == n + 1 && after[c][..n] == before[c]
    requires forall c <- roster :: after[c][n].token.admission == admission
    ensures AdmittedTogether(roster, after, n + 1)
  {
    forall c <- roster, d <- roster, r | 0 <= r < n + 1 ensures after[c][r].token.admission == after[d][r].token.admission {
      if r < n {
        assert after[c][r] == before[c][r] && after[d][r] == before[d][r];
      }
    }
    forall c <- roster, r | 0 <= r < n + 1 ensures SortedRoster(after[c][r].token.admission, |roster|) {
      if r < n {
        assert after[c][r] == before[c][r];
      }
    }
  }

  lemma FinishedIsClassified(run: Run, lists: map<Candidate, seq<TrialFact>>)
    requires Finished(run.schedule, lists, run.batches, run.status == IncompleteRun)
    requires AdmittedTogether(run.schedule.roster, lists, run.matrices)
    ensures BatchesClassified(run) && MatricesShared(run)
  {
    hide Scheduled, SortedRoster;
    forall i | 0 <= i < |run.batches| ensures run.batches[i].trials == lists[run.schedule.roster[i]] {
      var c := run.schedule.roster[i];
      ScheduledHolds(run.schedule, c, lists[c], run.status == IncompleteRun);
    }
  }

  lemma FinishedIsFresh(run: Run, lists: map<Candidate, seq<TrialFact>>, facts: seq<TrialFact>, incomplete: bool)
    requires Finished(run.schedule, lists, run.batches, incomplete) && NoRepeats(run.schedule.roster) && FreshFacts(facts)
    requires forall c <- run.schedule.roster :: c in lists
    requires forall c <- run.schedule.roster, r | 0 <= r < |lists[c]| :: FiledAt(run.schedule, lists[c], facts, c, r)
    ensures NoEvidenceReused(run)
  {
    hide Scheduled, SlotOf, FactEvidence, Apart;
    forall i, r, j, q
      | && 0 <= i < |run.batches| && 0 <= r < |run.batches[i].trials|
        && 0 <= j < |run.batches| && 0 <= q < |run.batches[j].trials| && (i != j || r != q)
      ensures Apart(FactEvidence(run.batches[i].trials[r]), FactEvidence(run.batches[j].trials[q]))
    {
      var c, d := run.schedule.roster[i], run.schedule.roster[j];
      ScheduledHolds(run.schedule, c, lists[c], incomplete);
      ScheduledHolds(run.schedule, d, lists[d], incomplete);
      assert c == d ==> i == j;
      SlotsDiffer(run.schedule.roster, run.schedule.startOffset, c, r, d, q);
      assert FiledAt(run.schedule, lists[c], facts, c, r) && FiledAt(run.schedule, lists[d], facts, d, q);
      FreshBothWays(facts, SlotOf(run.schedule.roster, run.schedule.startOffset, r, c).ordinal,
                    SlotOf(run.schedule.roster, run.schedule.startOffset, q, d).ordinal);
    }
  }

  lemma FreshBothWays(facts: seq<TrialFact>, x: int, y: int)
    requires FreshFacts(facts) && 0 <= x < |facts| && 0 <= y < |facts| && x != y
    ensures Apart(FactEvidence(facts[x]), FactEvidence(facts[y]))
  {
    hide FactEvidence;
    if y < x {
      assert Apart(FactEvidence(facts[y]), FactEvidence(facts[x]));
    }
  }

  /** The statuses of the finished batches. */
  lemma FinishedStatuses(schedule: Schedule, lists: map<Candidate, seq<TrialFact>>, batches: seq<Batch>, incomplete: bool)
    requires Finished(schedule, lists, batches, incomplete)
    ensures forall b <- batches ::
      if incomplete then !b.classification.status.ObservedStable? else !b.classification.status.Incomplete?
  {
    hide Scheduled;
    forall b <- batches
      ensures if incomplete then !b.classification.status.ObservedStable? else !b.classification.status.Incomplete?
    {
      var i :| 0 <= i < |batches| && batches[i] == b;
      var c := schedule.roster[i];
      if incomplete {
        CutShortIsNotStable(schedule, c, lists[c]);
      } else {
        CompleteIsDecided(schedule, c, lists[c]);
      }
    }
  }

  lemma RosterHasNoRepeats(schedule: Schedule)
    requires ValidSchedule(schedule)
    ensures NoRepeats(schedule.roster) && |schedule.roster| >= 2
  {
    StrictIsDistinct(schedule.roster, Itself);
    forall i, j | 0 <= i < j < |schedule.roster| ensures schedule.roster[i] != schedule.roster[j] {
      assert Itself(schedule.roster[i]) != Itself(schedule.roster[j]);
    }
  }

  lemma CauseOfBatch(env: Environment, config: RunConfig, schedule: Schedule, c: Candidate, list: seq<TrialFact>, incomplete: bool,
                     e: ObserveError, asked: Asked)
    requires 0 < asked.producer <= |schedule.trials| && RefusedBatch(env, schedule, c, list, incomplete, e, asked.producer)
    ensures Cause(env, config, schedule, BatchRefused(e), asked)
  {
    hide RefusedBatch;
    assert SomeBatchRefused(env, schedule, e, asked.producer);
  }

  lemma SlotErrors(p: PreparedTrial, slot: ScheduledTrial, schedule: Schedule, plan: Plan, purpose: Purpose)
    ensures var e := SlotRefusal(p, slot, schedule, plan, purpose);
            e.Some? ==> e.value.ScheduleMismatch? || e.value.InvalidPrepared? || e.value.PreparedLineageMismatch?
                        || e.value.RepeatRequirementMismatch?
  {
    hide ValidDigest, ValidCandidate;
  }

  lemma CauseOfSlot(env: Environment, config: RunConfig, schedule: Schedule, e: RunError, asked: Asked)
    requires 0 < asked.producer <= |schedule.trials| && RefusedSlot(env, config, schedule, asked.producer - 1, e)
    ensures Cause(env, config, schedule, e, asked)
  {
    var last := asked.producer - 1;
    hide SlotRefusal;
    SlotErrors(env.reply(last).trial, schedule.trials[last], schedule, config.plan, config.purpose);
    hide RefusedSlot;
  }

  lemma CauseOfReuse(env: Environment, config: RunConfig, schedule: Schedule, e: RunError, asked: Asked)
    requires 0 < asked.producer <= |schedule.trials| && ReusesEarlier(env, asked.producer - 1)
    requires e.ReusedOrchestrationAttempt? || e.ReusedOrchestrationWorld? || e.ReusedOrchestrationObservation?
    ensures Cause(env, config, schedule, e, asked)
  {
    hide ReusesEarlier;
  }

  lemma CauseOfAdmission(env: Environment, config: RunConfig, schedule: Schedule, p: nat, e: RunError, asked: Asked)
    requires |schedule.roster| <= asked.producer <= |schedule.trials| && p < |schedule.roster|
    requires NotAdmitted(env, config, asked.producer - |schedule.roster|, |schedule.roster|, p, e)
    ensures Cause(env, config, schedule, e, asked)
  {
    hide NotAdmitted, Cause;
    var start := asked.producer - |schedule.roster|;
    NotAdmittedErrors(env, config, start, |schedule.roster|, p, e);
    assert SomeNotAdmitted(env, config, start, |schedule.roster|, e);
    CauseOfNotAdmitted(env, config, schedule, e, asked);
  }

  lemma CauseOfNotAdmitted(env: Environment, config: RunConfig, schedule: Schedule, e: RunError, asked: Asked)
    requires |schedule.roster| <= asked.producer <= |schedule.trials| && 0 < asked.producer
    requires SomeNotAdmitted(env, config, asked.producer - |schedule.roster|, |schedule.roster|, e)
    requires e.NotInComparison? || e.UnknownPreparedKind? || e.FactRefused?
    ensures Cause(env, config, schedule, e, asked)
  {
    hide SomeNotAdmitted, Assess, Rows, Returned, RefusedSlot, ReusesEarlier, SomeBatchRefused;
  }

  lemma NotAdmittedErrors(env: Environment, config: RunConfig, start: nat, n: nat, p: nat, e: RunError)
    requires p < n && NotAdmitted(env, config, start, n, p, e)
    ensures e.NotInComparison? || e.UnknownPreparedKind? || e.FactRefused?
  {
    hide Assess, Rows, Admit;
    AdmitErrors(env.reply(start + p).trial, Assess(config.envelope, Rows(env, start, n)).value);
  }

  lemma AdmitErrors(p: PreparedTrial, comparison: Comparison)
    requires comparison.Admitted? && Admit(p, comparison).Err?
    ensures var e := Admit(p, comparison).error; e == NotInComparison || e == UnknownPreparedKind || e.FactRefused?
  {
    hide AdmissionFor, SoundLineage;
  }

  /** What a run says stays true when the clock is read once more. */
  lemma ToldLater(env: Environment, config: RunConfig, run: Run, before: Asked, after: Asked)
    requires Told(env, config, run, before) && before.clock <= after.clock && LastCallExcused(env, config, after)
    requires before.caller == after.caller && before.producer == after.producer
    ensures Told(env, config, run, after)
  {
    hide TrialsAreReplies, Assess;
  }

  /** The replies of a matrix, as prepared trials. */
  lemma RowsOfPrepared(env: Environment, start: nat, prepared: seq<PreparedTrial>, rows: seq<Measurements>)
    requires forall p :: 0 <= p < |prepared| ==> env.reply(start + p) == Produced(prepared[p])
    requires |rows| == |prepared| && forall p :: 0 <= p < |rows| ==> rows[p] == prepared[p].measurements
    ensures Returned(env, start, |prepared|) && rows == Rows(env, start, |prepared|)
  {
    forall q | start <= q < start + |prepared| ensures env.reply(q).Produced? {
      assert env.reply(start + (q - start)) == Produced(prepared[q - start]);
    }
  }

  /** Repetition `r` stands at the indices from `n * r` on. */
  lemma RepetitionIndices(roster: seq<Candidate>, offset: nat, repetitions: nat, r: nat)
    requires roster != [] && r < repetitions
    ensures |roster| * r + |roster| <= |Trials(roster, offset, repetitions)|
    ensures forall p :: 0 <= p < |roster| ==>
      Repetition(roster, offset, r)[p] == Trials(roster, offset, repetitions)[|roster| * r + p]
  {
    hide SlotAt, Trials;
    var n := |roster|;
    RowsApart(r, repetitions, n);
    assert n * r == r * n;
    forall p | 0 <= p < n ensures Repetition(roster, offset, r)[p] == Trials(roster, offset, repetitions)[n * r + p] {
      TrialAt(roster, offset, repetitions, r, p);
    }
  }

  /** The replies from call `start` on, each in its slot of the repetition. */
  ghost predicate Prepares(env: Environment, schedule: Schedule, repetition: nat, start: nat, prepared: seq<PreparedTrial>)
    requires schedule.roster != []
  {
    && |prepared| <= |schedule.roster|
    && (forall p :: 0 <= p < |prepared| ==>
          prepared[p].slot == SlotAt(schedule.roster, schedule.startOffset, repetition, p))
    && (forall p :: 0 <= p < |prepared| ==> env.reply(start + p) == Produced(prepared[p]))
  }

  lemma NothingPrepared(env: Environment, schedule: Schedule, repetition: nat, start: nat)
    requires schedule.roster != []
    ensures Prepares(env, schedule, repetition, start, [])
  {
  }

  lemma PreparesNext(env: Environment, schedule: Schedule, repetition: nat, start: nat, prepared: seq<PreparedTrial>, p: PreparedTrial)
    requires schedule.roster != [] && Prepares(env, schedule, repetition, start, prepared) && |prepared| < |schedule.roster|
    requires env.reply(start + |prepared|) == Produced(p)
    requires p.slot == SlotAt(schedule.roster, schedule.startOffset, repetition, |prepared|)
    ensures Prepares(env, schedule, repetition, start, prepared + [p])
  {
  }

  lemma FiledStays(schedule: Schedule, list: seq<TrialFact>, x: TrialFact, facts: seq<TrialFact>, more: seq<TrialFact>, c: Candidate, r: nat)
    requires c in schedule.roster && r < |list| && FiledAt(schedule, list, facts, c, r)
    ensures FiledAt(schedule, list + [x], facts + more, c, r)
  {
    hide SlotOf;
  }

  lemma FiledNew(schedule: Schedule, list: seq<TrialFact>, facts: seq<TrialFact>, more: seq<TrialFact>, c: Candidate, r: nat)
    requires c in schedule.roster && r == |list| && |facts| == |schedule.roster| * r && |more| == |schedule.roster|
    ensures FiledAt(schedule, list + [more[PositionOf(schedule.roster, schedule.startOffset, r, c)]], facts + more, c, r)
  {
    hide PositionOf;
  }

  class Observer {
    const env: Environment
    const config: RunConfig
    const schedule: Schedule
    const tracker: BudgetTracker
    const deadline: int
    var ticks: nat
    var polls: nat
    var calls: nat
    var attempts: set<Digest>
    var worlds: set<Digest>
    var observations: set<Digest>
    var trials: map<Candidate, seq<TrialFact>>
    var matrices: nat
    ghost var facts: seq<TrialFact> // the admitted trials in schedule order
    ghost var log: seq<Evidence> // all registered evidence, in order

    constructor (env: Environment, config: RunConfig, schedule: Schedule)
      requires ValidSchedule(schedule) && config.budget.maxTotalTrials >= 1
      ensures this.env == env && this.config == config && this.schedule == schedule && fresh(tracker)
      ensures Valid() && matrices == 0 && facts == [] && log == [] && Metered(0)
    {
      this.env, this.config, this.schedule := env, config, schedule;
      tracker := new BudgetTracker(config.budget, env.clock(0));
      deadline := env.clock(0) + config.budget.wall;
      ticks, polls, calls := 1, 0, 0;
      attempts, worlds, observations := {}, {}, {};
      trials := map c | c in schedule.roster :: [];
      matrices := 0;
      facts, log := [], [];
    }

    function N(): nat
    {
      |schedule.roster|
    }

    /** Each candidate's list holds its slot of every admitted repetition. */
    ghost predicate Filed(c: Candidate)
      requires c in schedule.roster
      reads this`trials, this`matrices, this`facts
    {
      && c in trials && |trials[c]| == matrices
      && forall r :: 0 <= r < matrices ==> FiledAt(schedule, trials[c], facts, c, r)
    }

    ghost predicate Remembered()
      reads this`log, this`facts, this`attempts, this`worlds, this`observations
    {
      SeenSets(log, attempts, worlds, observations) && Logged(log, facts) && Replied(env, log) && Recorded(env, facts)
    }

    /** What has been asked so far. */
    function Counts(): Asked
      reads this`ticks, this`polls, this`calls
    {
      Asked(ticks, polls, calls)
    }

    /** A result with its explanation. */
    ghost predicate Explained(r: Result<Run, RunError>)
      reads this`ticks, this`polls, this`calls
    {
      match r
      case Ok(run) => SoundRun(run) && run.schedule == schedule && Told(env, config, run, Counts())
      case Err(e) => Cause(env, config, schedule, e, Counts())
    }

    /** What the run has admitted and remembers. */
    ghost predicate Sound()
      reads this`trials, this`matrices, this`facts, this`log, this`attempts, this`worlds, this`observations
    {
      && ValidSchedule(schedule) && matrices <= schedule.repetitions && |facts| == N() * matrices
      && (forall c <- schedule.roster :: Filed(c)) && Remembered() && AdmittedTogether(schedule.roster, trials, matrices)
      && FiledMatrices(env, config.envelope, schedule.roster, trials, matrices)
    }

    ghost predicate Valid()
      reads this`trials, this`matrices, this`facts, this`log, this`attempts, this`worlds, this`observations, this`calls, tracker
    {
      && Sound() && |facts| <= calls <= |schedule.trials| && tracker.budget == config.budget && config.budget.maxTotalTrials >= 1
      && tracker.startedAt == env.clock(0) && deadline == env.clock(0) + config.budget.wall
      && |facts| <= tracker.completed <= tracker.started <= tracker.budget.maxTotalTrials
    }

    /** So many trials of the current matrix are done, and nothing has run out. */
    ghost predicate Metered(position: nat)
      reads this`facts, this`log, this`calls, tracker
    {
      && tracker.started == tracker.completed == calls == |facts| + position == |log|
      && tracker.exhaustion == Available
    }

    /** The last call returned a trial, if there was one. */
    ghost predicate Answered()
      reads this`calls
    {
      calls == 0 || env.reply(calls - 1).Produced?
    }

    lemma CallsAnswered()
      requires Sound() && calls == |log|
      ensures Answered()
    {
      hide ValidSchedule, Filed, PreparedEvidence, AdmittedTogether, FiledMatrices, SeenSets, Logged, Recorded;
    }

    method Now() returns (t: int)
      modifies this`ticks
      ensures t == env.clock(old(ticks)) && ticks == old(ticks) + 1
    {
      t := env.clock(ticks);
      ticks := ticks + 1;
    }

    method Cancelled() returns (c: bool)
      modifies this`polls
      ensures polls == old(polls) + 1 && c == env.cancelled(old(polls)) && (c ==> CallerDone(env, polls))
    {
      c := env.cancelled(polls);
      polls := polls + 1;
    }

    /** A reading of the tracker that satisfies the budget clause. */
    ghost predicate Fits(s: Snapshot)
      reads this`facts, this`ticks
    {
      && |facts| <= s.completed <= s.started <= s.budget.maxTotalTrials
      && (s.exhaustion == TrialExhausted ==> s.started == s.completed == |facts| == s.budget.maxTotalTrials)
      && (s.exhaustion == MatrixWouldSplit ==>
            s.started == s.completed == |facts| < s.budget.maxTotalTrials < |facts| + N())
      && (s.exhaustion == WallExhausted ==> WallPassed(env, config.budget.wall, ticks))
    }

    method Finish(snapshot: Snapshot, status: RunStatus) returns (result: Result<Run, RunError>)
      requires Valid() && Fits(snapshot) && status != RejectedRun && LastCallExcused(env, config, Counts())
      requires status == CompleteRun ==> matrices == schedule.repetitions && snapshot.exhaustion == Available
      requires status == IncompleteRun && snapshot.exhaustion == Available ==> CallerDone(env, polls)
      ensures Explained(result)
      ensures result.Ok? ==> result.value.status == status && result.value.matrices == matrices
    {
      hide ValidSchedule, Scheduled, FiledAt, Apart, InSlot, SoundRun, Told, IsReply, Replied, Recorded, SeenSets, Logged;
      RosterHasNoRepeats(schedule);
      var run := Run(status, schedule, matrices, [], None, snapshot, None);
      if matrices == 0 {
        EmptyIsSound(run);
        return Ok(run);
      }
      var classified := ClassifyAll(status == IncompleteRun);
      if classified.Err? {
        return Err(classified.error);
      }
      var batches := classified.value;
      assert |batches| > 0;
      var input := OutcomeMapInput(batches[0].binding.stimulus, batches[0].envelope, schedule.roster, batches);
      run := run.(batches := batches, mapInput := Some(input));
      FilledIsSound(run);
      FilledIsTold(run);
      return Ok(run);
    }

    /** Every candidate's list becomes its batch. */
    method ClassifyAll(incomplete: bool) returns (result: Result<seq<Batch>, RunError>)
      requires Valid() && matrices > 0
      ensures result.Err? ==> Explained(Err(result.error))
      ensures result.Ok? ==> |result.value| == N() && Finished(schedule, trials, result.value, incomplete)
    {
      hide ValidSchedule, Scheduled, FiledAt, Apart, IsReply, Replied, Recorded, SeenSets, Logged, Explained, AdmittedTogether;
      RosterHasNoRepeats(schedule);
      assert N() * matrices > 0;
      var batches: seq<Batch> := [];
      for i := 0 to |schedule.roster|
        invariant |batches| == i && Finished(schedule, trials, batches, incomplete)
      {
        var candidate := schedule.roster[i];
        assert Filed(candidate);
        if |trials[candidate]| != matrices {
          assert false;
        }
        var batch := ClassifyScheduled(schedule, candidate, trials[candidate], incomplete);
        if batch.Err? {
          RefusalExplained(candidate, incomplete, batch.error);
          return Err(BatchRefused(batch.error));
        }
        batches := batches + [batch.value];
      }
      return Ok(batches);
    }

    lemma RefusalExplained(c: Candidate, incomplete: bool, e: ObserveError)
      requires Sound() && |facts| <= calls && 0 < calls <= |schedule.trials|
      requires c in schedule.roster && c in trials && Scheduled(schedule, c, trials[c], incomplete) == Err(e)
      ensures Explained(Err(BatchRefused(e)))
    {
      hide ValidSchedule, Scheduled, FiledAt, IsReply, Replied, Recorded, SeenSets, Logged, Cause, SoundRun, Told;
      assert Filed(c);
      forall r | 0 <= r < |trials[c]| ensures IsReply(env, schedule, c, r, trials[c][r], calls) {
        FiledIsReply(env, schedule, trials[c], facts, c, r, calls);
      }
      CauseOfBatch(env, config, schedule, c, trials[c], incomplete, e, Counts());
    }

    lemma FilledIsTold(run: Run)
      requires Sound() && Fits(run.budget) && |facts| <= calls && LastCallExcused(env, config, Counts())
      requires run.schedule == schedule && run.rejection.None?
      requires run.status == IncompleteRun && run.budget.exhaustion == Available ==> CallerDone(env, polls)
      requires Finished(schedule, trials, run.batches, run.status == IncompleteRun)
      ensures Told(env, config, run, Counts())
    {
      hide MatrixAdmitted, ValidSchedule, Scheduled, FiledAt, IsReply, Replied, Recorded, SeenSets, Logged;
      forall i, r | 0 <= i < |run.batches| && 0 <= r < |run.batches[i].trials|
        ensures IsReply(env, schedule, schedule.roster[i], r, run.batches[i].trials[r], calls)
        ensures MatrixAdmitted(env, config.envelope, N(), r, run.batches[i].trials[r].token.admission)
      {
        var c := schedule.roster[i];
        ScheduledHolds(schedule, c, trials[c], run.status == IncompleteRun);
        assert Filed(c);
        FiledIsReply(env, schedule, trials[c], facts, c, r, calls);
      }
    }

    lemma EmptyIsSound(run: Run)
      requires Valid() && Fits(run.budget) && run.status != RejectedRun && matrices == 0 && LastCallExcused(env, config, Counts())
      requires run == Run(run.status, schedule, matrices, [], None, run.budget, None)
      requires run.status == CompleteRun ==> matrices == schedule.repetitions && run.budget.exhaustion == Available
      requires run.status == IncompleteRun && run.budget.exhaustion == Available ==> CallerDone(env, polls)
      ensures SoundRun(run) && Told(env, config, run, Counts())
    {
    }

    lemma FilledIsSound(run: Run)
      requires Sound() && Fits(run.budget) && matrices > 0
      requires run.schedule == schedule && run.matrices == matrices && run.status != RejectedRun && run.rejection.None?
      requires run.status == CompleteRun ==> matrices == schedule.repetitions && run.budget.exhaustion == Available
      requires |run.batches| == N() && Finished(schedule, trials, run.batches, run.status == IncompleteRun)
      requires run.mapInput == Some(OutcomeMapInput(run.batches[0].binding.stimulus, run.batches[0].envelope, schedule.roster, run.batches))
      ensures SoundRun(run)
    {
      hide Scheduled, FiledAt, Apart, ValidSchedule;
      RosterHasNoRepeats(schedule);
      FinishedIsComplete(run, trials, run.status == IncompleteRun);
      FactsAreFresh();
      FinishedIsFresh(run, trials, facts, run.status == IncompleteRun);
      FinishedStatuses(schedule, trials, run.batches, run.status == IncompleteRun);
      FinishedIsClassified(run, trials);
    }

    lemma FactsAreFresh()
      requires Remembered()
      ensures FreshFacts(facts)
    {
      hide FactEvidence, Apart;
    }

    // ----------------------------------------------------------- the run loop

    /** The tracker may be read for a run that stops here, and there is a reason to stop. */
    ghost predicate Stoppable()
      reads this`trials, this`matrices, this`facts, this`log, this`attempts, this`worlds, this`observations
      reads this`ticks, this`polls, this`calls, tracker
    {
      && Valid()
      && (tracker.exhaustion == TrialExhausted ==>
            tracker.started == tracker.completed == |facts| == tracker.budget.maxTotalTrials)
      && (tracker.exhaustion == MatrixWouldSplit ==>
            tracker.started == tracker.completed == |facts| < tracker.budget.maxTotalTrials < |facts| + N())
      && (tracker.exhaustion == WallExhausted ==> WallPassed(env, config.budget.wall, ticks))
      && (tracker.exhaustion == Available ==> CallerDone(env, polls))
    }

    method Stop(now: int) returns (result: Result<Run, RunError>)
      requires Stoppable() && LastCallExcused(env, config, Counts())
      ensures Explained(result)
    {
      hide Sound, Explained, WallPassed, CallerDone;
      var snapshot := tracker.TakeSnapshot(now);
      result := Finish(snapshot, IncompleteRun);
    }

    method StopNow() returns (result: Result<Run, RunError>)
      requires Stoppable() && Answered()
      modifies this`ticks
      ensures Explained(result)
    {
      hide Sound, Explained;
      var now := Now();
      result := Stop(now);
    }

    /** `registerFreshEvidence`. */
    method Register(p: PreparedTrial) returns (refusal: Option<RunError>)
      requires SeenSets(log, attempts, worlds, observations)
      modifies this`attempts, this`worlds, this`observations, this`log
      ensures refusal.None? <==> forall e <- old(log) :: Apart(e, PreparedEvidence(p))
      ensures refusal.None? ==> SeenSets(log, attempts, worlds, observations) && log == old(log) + [PreparedEvidence(p)]
      ensures refusal.Some? ==> refusal.value in {ReusedOrchestrationAttempt, ReusedOrchestrationWorld, ReusedOrchestrationObservation}
    {
      var e := PreparedEvidence(p);
      if e.attempt in attempts {
        return Some(ReusedOrchestrationAttempt);
      }
      if e.world in worlds {
        attempts := attempts + {e.attempt};
        return Some(ReusedOrchestrationWorld);
      }
      if e.observation.Some? && e.observation.value in observations {
        attempts, worlds := attempts + {e.attempt}, worlds + {e.world};
        return Some(ReusedOrchestrationObservation);
      }
      attempts, worlds := attempts + {e.attempt}, worlds + {e.world};
      if e.observation.Some? {
        observations := observations + {e.observation.value};
      }
      log := log + [e];
      return None;
    }

    /** A slot starts unless the caller is done or the wall budget is. */
    method BeginSlot() returns (step: Step<()>)
      requires Valid() && tracker.exhaustion == Available && tracker.started < tracker.budget.maxTotalTrials && Answered()
      modifies this`ticks, this`polls, tracker`started, tracker`exhaustion
      ensures step.Halt? ==> Explained(step.result)
      ensures step.Next? ==> tracker.started == old(tracker.started) + 1 && tracker.exhaustion == Available
    {
      hide Sound, Explained, CallerDone;
      var cancelled := Cancelled();
      if cancelled {
        var r := StopNow();
        return Halt(r);
      }
      var now := Now();
      var begun := tracker.BeginTrial(now);
      if !begun {
        var r := StopNow();
        return Halt(r);
      }
      return Next(());
    }

    /** One slot of the current matrix. */
    method ProduceSlot(slot: ScheduledTrial, ghost position: nat) returns (step: Step<PreparedTrial>)
      requires Valid() && Metered(position) && position < N() && |facts| + N() <= tracker.budget.maxTotalTrials
      requires |facts| + position < |schedule.trials| && slot == schedule.trials[|facts| + position]
      modifies this`ticks, this`polls, this`calls, this`attempts, this`worlds, this`observations, this`log, tracker
      ensures step.Halt? ==> Explained(step.result)
      ensures step.Next? ==> Valid() && Metered(position + 1) && step.value.slot == slot
      ensures step.Next? ==> env.reply(|facts| + position) == Produced(step.value)
    {
      hide Sound, Explained, CallerDone, SlotRefusal, PreparedEvidence;
      CallsAnswered();
      var begun := BeginSlot();
      if begun.Halt? {
        return Halt(begun.result);
      }
      var reply := env.reply(calls);
      calls := calls + 1;
      var finishedAt := Now();
      var within := tracker.CompleteTrial(finishedAt);
      if reply.Failed? {
        step := FailedReply(reply, finishedAt);
        return;
      }
      if !within {
        var r := Stop(finishedAt);
        return Halt(r);
      }
      step := AcceptReply(reply.trial, slot, finishedAt, position);
    }

    /** A producer error ends the run: as an incomplete one when the caller or the deadline ended it. */
    method FailedReply(reply: Reply, finishedAt: int) returns (step: Step<PreparedTrial>)
      requires Valid() && 0 < calls && reply == env.reply(calls - 1) && reply.Failed?
      requires tracker.exhaustion == if finishedAt >= deadline then WallExhausted else Available
      requires finishedAt >= deadline ==> WallPassed(env, config.budget.wall, ticks)
      requires ticks > 0 && finishedAt == env.clock(ticks - 1)
      modifies this`polls
      ensures step.Halt? && Explained(step.result)
    {
      hide Sound, SoundRun, Told, CallerDone, WallPassed;
      var parentEnded := Cancelled();
      if (parentEnded && reply.isParentError) || (reply.isDeadlineError && finishedAt >= deadline) {
        var r := Stop(finishedAt);
        return Halt(r);
      }
      return Halt(Err(ProducerFailed));
    }

    /** A returned trial is checked, its evidence registered, and the caller looked at once more. */
    method AcceptReply(result: PreparedTrial, slot: ScheduledTrial, finishedAt: int, ghost position: nat)
      returns (step: Step<PreparedTrial>)
      requires Valid() && tracker.started == tracker.completed == calls == |facts| + position + 1 == |log| + 1
      requires tracker.exhaustion == Available && env.reply(|log|) == Produced(result)
      requires |log| < |schedule.trials| && slot == schedule.trials[|log|]
      modifies this`polls, this`attempts, this`worlds, this`observations, this`log
      ensures step.Halt? ==> Explained(step.result)
      ensures step.Next? ==> Valid() && Metered(position + 1) && step.value == result && result.slot == slot
    {
      hide Sound, SoundRun, Told, Cause, PreparedRefusal, PreparedEvidence, CallerDone, Stoppable;
      var refusal := SlotRefusal(result, slot, schedule, config.plan, config.purpose);
      if refusal.Some? {
        CauseOfSlot(env, config, schedule, refusal.value, Counts());
        return Halt(Err(refusal.value));
      }
      refusal := RegisterReply(result);
      if refusal.Some? {
        return Halt(Err(refusal.value));
      }
      step := LookAgain(result, finishedAt, position + 1);
    }

    /** A producer may ignore the cancellation of its caller and still return a sound trial. */
    method LookAgain(result: PreparedTrial, finishedAt: int, ghost position: nat) returns (step: Step<PreparedTrial>)
      requires Valid() && Metered(position)
      modifies this`polls
      ensures step.Halt? ==> Explained(step.result)
      ensures step.Next? ==> step.value == result
    {
      hide Sound, Explained, CallerDone;
      CallsAnswered();
      var cancelled := Cancelled();
      if cancelled {
        var r := Stop(finishedAt);
        return Halt(r);
      }
      return Next(result);
    }

    method RegisterReply(result: PreparedTrial) returns (refusal: Option<RunError>)
      requires Sound() && |log| < |schedule.trials| && env.reply(|log|) == Produced(result) && calls == |log| + 1
      modifies this`attempts, this`worlds, this`observations, this`log
      ensures refusal.Some? ==> Explained(Err(refusal.value))
      ensures refusal.None? ==> Sound() && |log| == old(|log|) + 1
    {
      hide ValidSchedule, SoundRun, Told, Cause, Filed, PreparedEvidence, SeenSets, Recorded, Apart, FactEvidence;
      ghost var before := log;
      refusal := Register(result);
      if refusal.Some? {
        ReuseExplained(before, refusal.value);
      }
    }

    lemma ReuseExplained(before: seq<Evidence>, e: RunError)
      requires Replied(env, before) && calls == |before| + 1 <= |schedule.trials| && env.reply(|before|).Produced?
      requires exists x <- before :: !Apart(x, PreparedEvidence(env.reply(|before|).trial))
      requires e in {ReusedOrchestrationAttempt, ReusedOrchestrationWorld, ReusedOrchestrationObservation}
      ensures Explained(Err(e))
    {
      hide Apart, PreparedEvidence, Cause, SoundRun, Told;
      var call := |before|;
      var x :| x in before && !Apart(x, PreparedEvidence(env.reply(call).trial));
      var b :| 0 <= b < |before| && before[b] == x;
      assert Reused(env, b, call);
      assert ReusesEarlier(env, call);
      CauseOfReuse(env, config, schedule, e, Counts());
    }

    /** The prepared trials are the replies of this matrix, in the slots of the repetition. */
    ghost predicate InRepetition(prepared: seq<PreparedTrial>, repetition: nat)
      reads this`facts
    {
      schedule.roster != [] && Prepares(env, schedule, repetition, |facts|, prepared)
    }

    method ProduceMatrix(repetition: nat) returns (step: Step<seq<PreparedTrial>>)
      requires Valid() && Metered(0) && repetition == matrices < schedule.repetitions
      requires |facts| + N() <= tracker.budget.maxTotalTrials
      modifies this`ticks, this`polls, this`calls, this`attempts, this`worlds, this`observations, this`log, tracker
      ensures step.Halt? ==> Explained(step.result)
      ensures step.Next? ==> Valid() && Metered(N()) && |step.value| == N() && InRepetition(step.value, repetition)
    {
      hide Sound, Explained, Trials, Prepares, SlotAt;
      var slots := SlotsOf(repetition);
      var prepared: seq<PreparedTrial> := [];
      NothingPrepared(env, schedule, repetition, |facts|);
      for position := 0 to |slots|
        invariant |prepared| == position && Valid() && Metered(position)
        invariant facts == old(facts) && trials == old(trials) && matrices == old(matrices)
        invariant InRepetition(prepared, repetition)
      {
        var produced := ProduceSlot(slots[position], position);
        if produced.Halt? {
          return Halt(produced.result);
        }
        PreparesNext(env, schedule, repetition, |facts|, prepared, produced.value);
        prepared := prepared + [produced.value];
      }
      return Next(prepared);
    }

    /** The slots of the current repetition are the next ones of the schedule. */
    method SlotsOf(repetition: nat) returns (slots: seq<ScheduledTrial>)
      requires Sound() && repetition == matrices < schedule.repetitions
      ensures schedule.roster != [] && slots == Repetition(schedule.roster, schedule.startOffset, repetition)
      ensures |facts| + N() <= |schedule.trials|
      ensures forall p :: 0 <= p < N() ==> slots[p] == schedule.trials[|facts| + p]
    {
      hide SlotAt, Replied, Recorded, SeenSets, Logged, Filed, Trials, Repetition;
      RosterHasNoRepeats(schedule);
      var found := TrialsForRepetition(schedule, repetition);
      slots := found.value;
      RepetitionIndices(schedule.roster, schedule.startOffset, schedule.repetitions, repetition);
    }

    method AdmitAll(comparison: Comparison, prepared: seq<PreparedTrial>) returns (result: Result<seq<TrialFact>, RunError>)
      requires comparison.Admitted?
      ensures result.Ok? ==> |result.value| == |prepared|
      ensures result.Ok? ==> forall p :: 0 <= p < |prepared| ==> Admit(prepared[p], comparison) == Ok(result.value[p])
      ensures result.Err? ==> exists p :: 0 <= p < |prepared| && Admit(prepared[p], comparison) == Err(result.error)
    {
      hide Admit;
      var admitted: seq<TrialFact> := [];
      for i := 0 to |prepared|
        invariant |admitted| == i
        invariant forall p :: 0 <= p < i ==> Admit(prepared[p], comparison) == Ok(admitted[p])
      {
        var fact := Admit(prepared[i], comparison);
        if fact.Err? {
          return Err(fact.error);
        }
        admitted := admitted + [fact.value];
      }
      return Ok(admitted);
    }

    /** What a candidate has been given once `index` positions of the current matrix are filed. */
    ghost function Passed(admitted: seq<TrialFact>, c: Candidate, index: nat): seq<TrialFact>
      requires c in schedule.roster && |admitted| == N()
      reads this`matrices
    {
      var p := PositionOf(schedule.roster, schedule.startOffset, matrices, c);
      if p < index then [admitted[p]] else []
    }

    /** The admitted facts go to the lists of their candidates. */
    method AppendFacts(prepared: seq<PreparedTrial>, admitted: seq<TrialFact>)
      requires NoRepeats(schedule.roster) && |prepared| == |admitted| == N() && InRepetition(prepared, matrices)
      requires forall c <- schedule.roster :: c in trials
      modifies this`trials
      ensures forall c <- schedule.roster :: c in trials && trials[c] == old(trials)[c] + Passed(admitted, c, N())
    {
      hide PositionOf, SlotAt;
      for index := 0 to |prepared|
        invariant forall c <- schedule.roster :: c in trials
        invariant forall c <- schedule.roster :: trials[c] == old(trials)[c] + Passed(admitted, c, index)
      {
        assert prepared[index].slot == SlotAt(schedule.roster, schedule.startOffset, matrices, index);
        var candidate := prepared[index].slot.candidate;
        StandsAt(schedule.roster, schedule.startOffset, matrices, index);
        trials := trials[candidate := trials[candidate] + [admitted[index]]];
      }
    }

    method FileMatrix(prepared: seq<PreparedTrial>, admitted: seq<TrialFact>, ghost admission: Admission)
      requires Valid() && Metered(N()) && matrices < schedule.repetitions
      requires |prepared| == |admitted| == N() && InRepetition(prepared, matrices)
      requires forall p :: 0 <= p < N() ==> FromReply(admitted[p], prepared[p])
      requires forall p :: 0 <= p < N() ==> admitted[p].token.admission == admission
      requires SortedRoster(admission, N()) && MatrixAdmitted(env, config.envelope, N(), matrices, admission)
      modifies this`trials, this`matrices, this`facts
      ensures Valid() && Metered(0) && matrices == old(matrices) + 1
    {
      hide ValidSchedule, FromReply, Records, Logged, Replied, Recorded, SeenSets, FiledAt, PositionOf, SlotAt, AdmittedTogether, SortedRoster,
        FiledMatrices, MatrixAdmitted;
      RosterHasNoRepeats(schedule);
      ListsGrow(trials, admitted);
      LogCovers(prepared, admitted);
      LoggedMore(log, facts, admitted);
      RecordedMore(env, facts, admitted);
      ghost var m, before := matrices, trials;
      assert N() * (m + 1) == N() * m + N();
      AppendFacts(prepared, admitted);
      forall c <- schedule.roster
        ensures trials[c] == before[c] + [admitted[PositionOf(schedule.roster, schedule.startOffset, m, c)]]
      {
        PassedAll(before, admitted, c);
      }
      matrices := matrices + 1;
      facts := facts + admitted;
      MatrixFiled(before, m, admitted, admission);
      hide Filed, N, AdmittedTogether, FiledMatrices;
    }

    /** After its last fact is filed, a matrix stands in every candidate's list. */
    lemma MatrixFiled(before: map<Candidate, seq<TrialFact>>, m: nat, admitted: seq<TrialFact>, admission: Admission)
      requires |admitted| == N() && matrices == m + 1 && AdmittedTogether(schedule.roster, before, m)
      requires FiledMatrices(env, config.envelope, schedule.roster, before, m) && MatrixAdmitted(env, config.envelope, N(), m, admission)
      requires forall c <- schedule.roster ::
        && c in trials && trials[c] == before[c] + [admitted[PositionOf(schedule.roster, schedule.startOffset, m, c)]]
        && forall r :: 0 <= r <= m ==> FiledAt(schedule, trials[c], facts, c, r)
      requires forall p :: 0 <= p < N() ==> admitted[p].token.admission == admission
      requires SortedRoster(admission, N())
      ensures forall c <- schedule.roster :: Filed(c)
      ensures AdmittedTogether(schedule.roster, trials, matrices)
      ensures FiledMatrices(env, config.envelope, schedule.roster, trials, matrices)
    {
      hide PositionOf, FiledAt, MatrixAdmitted, SortedRoster;
      FiledMatricesMore(env, config.envelope, schedule.roster, before, trials, m, admission);
      AdmittedMore(schedule.roster, before, trials, m, admission);
    }

    /** Everything a filed matrix adds to a candidate's list. */
    lemma PassedAll(before: map<Candidate, seq<TrialFact>>, admitted: seq<TrialFact>, c: Candidate)
      requires c in schedule.roster && |admitted| == N() && c in before
      ensures before[c] + Passed(admitted, c, N())
           == before[c] + [admitted[PositionOf(schedule.roster, schedule.startOffset, matrices, c)]]
    {
      hide PositionOf;
    }

    lemma LogCovers(prepared: seq<PreparedTrial>, admitted: seq<TrialFact>)
      requires Replied(env, log) && |log| == |facts| + N() && |prepared| == |admitted| == N()
      requires forall p :: 0 <= p < N() ==> env.reply(|facts| + p) == Produced(prepared[p])
      requires forall p :: 0 <= p < N() ==> FromReply(admitted[p], prepared[p])
      ensures forall p :: 0 <= p < N() ==> FactEvidence(admitted[p]) == log[|facts| + p]
      ensures forall p :: 0 <= p < |admitted| ==> Records(env, |facts| + p, admitted[p])
    {
      hide FactEvidence, PreparedEvidence;
    }

    lemma ListsGrow(before: map<Candidate, seq<TrialFact>>, admitted: seq<TrialFact>)
      requires ValidSchedule(schedule) && |facts| == N() * matrices && |admitted| == N()
      requires forall c <- schedule.roster :: c in before && |before[c]| == matrices
      requires forall c <- schedule.roster, r | 0 <= r < matrices :: FiledAt(schedule, before[c], facts, c, r)
      ensures forall c <- schedule.roster ::
        var list := before[c] + [admitted[PositionOf(schedule.roster, schedule.startOffset, matrices, c)]];
        forall r :: 0 <= r <= matrices ==> FiledAt(schedule, list, facts + admitted, c, r)
    {
      hide ValidSchedule, PositionOf, FiledAt;
      forall c <- schedule.roster, r | 0 <= r <= matrices
        ensures var list := before[c] + [admitted[PositionOf(schedule.roster, schedule.startOffset, matrices, c)]];
                FiledAt(schedule, list, facts + admitted, c, r)
      {
        var x := admitted[PositionOf(schedule.roster, schedule.startOffset, matrices, c)];
        if r < matrices {
          assert FiledAt(schedule, before[c], facts, c, r);
          FiledStays(schedule, before[c], x, facts, admitted, c, r);
        } else {
          FiledNew(schedule, before[c], facts, admitted, c, matrices);
        }
      }
    }

    /** One repetition: a whole matrix is produced, assessed once and admitted, or the run ends. */
    method RunMatrix(repetition: nat) returns (step: Step<nat>)
      requires Valid() && Metered(0) && repetition == matrices < schedule.repetitions
      modifies this, tracker
      ensures step.Halt? ==> Explained(step.result)
      ensures step.Next? ==> Valid() && Metered(0) && step.value == matrices == old(matrices) + 1
    {
      hide Sound, Explained, PreparedEvidence, SlotAt, CallerDone, InRepetition;
      CallsAnswered();
      var cancelled := Cancelled();
      if cancelled {
        var r := StopNow();
        return Halt(r);
      }
      var now := Now();
      var can := tracker.CanStartMatrix(now, |schedule.roster|);
      if !can {
        var r := StopNow();
        return Halt(r);
      }
      var produced := ProduceMatrix(repetition);
      if produced.Halt? {
        return Halt(produced.result);
      }
      step := AssessMatrix(produced.value);
    }

    method WithinWall() returns (ok: bool)
      requires tracker.startedAt == env.clock(0) && tracker.budget == config.budget
      modifies this`ticks, tracker`exhaustion
      ensures ticks == old(ticks) + 1
      ensures ok ==> tracker.exhaustion == old(tracker.exhaustion)
      ensures !ok ==> tracker.exhaustion == WallExhausted && WallPassed(env, config.budget.wall, ticks)
    {
      var now := Now();
      ok := tracker.WithinWall(now);
    }

    method AssessMatrix(prepared: seq<PreparedTrial>) returns (step: Step<nat>)
      requires Valid() && Metered(N()) && matrices < schedule.repetitions
      requires |prepared| == N() && InRepetition(prepared, matrices)
      modifies this, tracker`exhaustion
      ensures step.Halt? ==> Explained(step.result)
      ensures step.Next? ==> Valid() && Metered(0) && step.value == matrices == old(matrices) + 1
    {
      hide Sound, SoundRun, Told, PreparedEvidence, Assess, SlotAt, CallerDone, WallPassed;
      CallsAnswered();
      var rows := seq(|prepared|, i requires 0 <= i < |prepared| => prepared[i].measurements);
      RowsOfPrepared(env, |facts|, prepared, rows);
      var ok := WithinWall();
      if !ok {
        var r := StopNow();
        return Halt(r);
      }
      var assessment := AssessComparison(config.envelope, rows);
      if assessment.Err? {
        return Halt(Err(AssessmentRefused(assessment.error)));
      }
      ok := WithinWall();
      if !ok {
        var r := StopNow();
        return Halt(r);
      }
      if assessment.value.Rejection? {
        var r := Reject(assessment.value);
        return Halt(r);
      }
      step := AdmitMatrix(assessment.value, prepared);
    }

    method AdmitMatrix(comparison: Comparison, prepared: seq<PreparedTrial>) returns (step: Step<nat>)
      requires Valid() && Metered(N()) && matrices < schedule.repetitions && comparison.Admitted?
      requires |prepared| == N() && InRepetition(prepared, matrices)
      requires Returned(env, |facts|, N()) && Assess(config.envelope, Rows(env, |facts|, N())) == Ok(comparison)
      modifies this, tracker`exhaustion
      ensures step.Halt? ==> Explained(step.result)
      ensures step.Next? ==> Valid() && Metered(0) && step.value == matrices == old(matrices) + 1
    {
      hide Sound, SoundRun, Told, Cause, PreparedEvidence, FromReply, SlotAt, Admit, Assess, CallerDone, WallPassed, SortedRoster;
      CallsAnswered();
      var admitted := AdmitAll(comparison, prepared);
      if admitted.Err? {
        NotAdmittedExplained(comparison, prepared, admitted.error);
        return Halt(Err(admitted.error));
      }
      var ok := WithinWall();
      if !ok {
        var r := StopNow();
        return Halt(r);
      }
      forall p | 0 <= p < N()
        ensures FromReply(admitted.value[p], prepared[p]) && admitted.value[p].token.admission == comparison.admission
      {
        AdmitKeepsReply(prepared[p], comparison);
        RowIsAdmitted(comparison, p, prepared[p]);
      }
      MatrixIsAdmitted(comparison);
      FactsCounted();
      FileMatrix(prepared, admitted.value, comparison.admission);
      return Next(matrices);
    }

    lemma FactsCounted()
      requires Sound()
      ensures |facts| == N() * matrices
    {
    }

    lemma MatrixIsAdmitted(comparison: Comparison)
      requires comparison.Admitted?
      requires Returned(env, |facts|, N()) && Assess(config.envelope, Rows(env, |facts|, N())) == Ok(comparison)
      ensures SortedRoster(comparison.admission, N())
      ensures |facts| == N() * matrices ==> MatrixAdmitted(env, config.envelope, N(), matrices, comparison.admission)
    {
      hide Assess;
      AdmittedRoster(config.envelope, Rows(env, |facts|, N()));
    }

    /** The rows of one admitted matrix hold tokens of its one admission. */
    lemma RowIsAdmitted(comparison: Comparison, p: nat, prepared: PreparedTrial)
      requires comparison.Admitted? && p < N() && env.reply(|facts| + p) == Produced(prepared)
      requires Returned(env, |facts|, N()) && Assess(config.envelope, Rows(env, |facts|, N())) == Ok(comparison)
      ensures AdmissionFor(comparison, prepared.measurements).Some? ==>
        AdmissionFor(comparison, prepared.measurements).value.admission == comparison.admission
    {
      hide Assess, AdmissionFor;
      var rows := Rows(env, |facts|, N());
      assert rows[p] == prepared.measurements;
      EveryRowHasItsToken(config.envelope, rows, prepared.measurements);
      AdmittedRoster(config.envelope, rows);
    }

    lemma StillExplained(run: Run, before: Asked)
      requires SoundRun(run) && run.schedule == schedule && Told(env, config, run, before)
      requires before == Asked(before.clock, polls, calls) && before.clock <= ticks && Answered()
      ensures Explained(Ok(run))
    {
      hide SoundRun, Told;
      ToldLater(env, config, run, before, Counts());
    }

    lemma NotAdmittedExplained(comparison: Comparison, prepared: seq<PreparedTrial>, e: RunError)
      requires comparison.Admitted? && |prepared| == N() && InRepetition(prepared, matrices)
      requires calls == |facts| + N() <= |schedule.trials|
      requires Returned(env, |facts|, N()) && Assess(config.envelope, Rows(env, |facts|, N())) == Ok(comparison)
      requires exists p :: 0 <= p < |prepared| && Admit(prepared[p], comparison) == Err(e)
      ensures Explained(Err(e))
    {
      hide Assess, SlotAt, Returned, Rows, Admit, Cause, SoundRun, Told;
      var p :| 0 <= p < |prepared| && Admit(prepared[p], comparison) == Err(e);
      assert NotAdmitted(env, config, |facts|, N(), p, e);
      CauseOfAdmission(env, config, schedule, p, e, Counts());
    }

    /** A rejected comparison ends the run without exposing any batch. */
    method Reject(rejection: Comparison) returns (result: Result<Run, RunError>)
      requires Valid() && Metered(N()) && rejection.Rejection?
      requires Returned(env, |facts|, N()) && Assess(config.envelope, Rows(env, |facts|, N())) == Ok(rejection)
      modifies this`ticks, tracker`exhaustion
      ensures Explained(result)
    {
      hide ValidSchedule, Filed, Assess, SeenSets, Logged, Recorded, Replied, CallerDone;
      CallsAnswered();
      var rejectedAt := Now();
      var ok := tracker.WithinWall(rejectedAt);
      if !ok {
        result := Stop(rejectedAt);
        return;
      }
      var snapshot := tracker.TakeSnapshot(rejectedAt);
      return Ok(Run(RejectedRun, schedule, matrices, [], Some(rejection), snapshot, None));
    }

    method Observe() returns (result: Result<Run, RunError>)
      requires Valid() && Metered(0) && matrices == 0
      modifies this, tracker
      ensures Explained(result)
    {
      hide Sound, Explained, CallerDone, WallPassed;
      for repetition := 0 to schedule.repetitions
        invariant Valid() && Metered(0) && matrices == repetition
      {
        var step := RunMatrix(repetition);
        if step.Halt? {
          return step.result;
        }
      }
      result := Conclude();
    }

    /** All matrices are done: the batches are classified between two looks at the wall. */
    method Conclude() returns (result: Result<Run, RunError>)
      requires Valid() && Metered(0) && matrices == schedule.repetitions
      modifies this, tracker
      ensures Explained(result)
    {
      hide Sound, SoundRun, Told, Cause, CallerDone, WallPassed;
      CallsAnswered();
      var ok := WithinWall();
      if !ok {
        result := StopNow();
        return;
      }
      var now := Now();
      var snapshot := tracker.TakeSnapshot(now);
      var finished := Finish(snapshot, CompleteRun);
      if finished.Err? {
        return finished;
      }
      ghost var before := Counts();
      ok := WithinWall();
      if !ok {
        result := StopNow();
        return;
      }
      StillExplained(finished.value, before);
      return finished;
    }
  }

  /** Who stands at a position, and where everybody else does not. */
  lemma StandsAt(roster: seq<Candidate>, offset: nat, r: nat, p: nat)
    requires NoRepeats(roster) && p < |roster|
    ensures SlotAt(roster, offset, r, p).candidate in roster
    ensures forall c <- roster :: c == SlotAt(roster, offset, r, p).candidate <==> PositionOf(roster, offset, r, c) == p
  {
    forall c <- roster ensures c == SlotAt(roster, offset, r, p).candidate <==> PositionOf(roster, offset, r, c) == p {
      RepetitionPermutes(roster, offset, r, p, c);
    }
  }

  /** What the source asks of the configuration before anything runs. */
  predicate Coherent(c: RunConfig)
  {
    && ValidDigest(c.envelope.digest) && ValidDigest(c.plan.digest) && ValidPurpose(c.purpose)
    && c.plan.envelope == c.envelope.digest
  }

  function ExpectedRepeats(c: RunConfig): int
  {
    if c.purpose == FinalSweep || c.purpose == Confirmation || c.purpose == Conformance
    then c.plan.confirmationRepeats else c.plan.discoveryRepeats
  }

  /** What is checked before the first trial. */
  predicate Startable(c: RunConfig)
  {
    && Coherent(c) && AcceptsRoster(c.roster, c.repetitions, c.purpose) && |c.roster| == c.plan.candidates
    && c.repetitions == ExpectedRepeats(c) && c.plan.rotation == StartByRepetition && c.budget.Valid(|c.roster|)
  }

  /** The schedule of a startable configuration. */
  predicate Planned(c: RunConfig, s: Schedule)
  {
    ValidSchedule(s) && s.roster == SortBy(c.roster, Itself) && s.repetitions == c.repetitions && s.phase == c.purpose
  }

  /** Whatever the clock, the caller and the producer do, a run that is returned is sound and tells why it
      ended, and a run that is refused has a cause in what the producer did. */
  method RunObservation(env: Environment, config: RunConfig) returns (result: Result<Run, RunError>, asked: Asked)
    ensures result.Ok? ==> Startable(config) && SoundRun(result.value) && Planned(config, result.value.schedule)
    ensures result.Ok? ==> Told(env, config, result.value, asked)
    ensures Startable(config) && result.Err? ==>
      exists s :: Planned(config, s) && Cause(env, config, s, result.error, asked)
  {
    hide SoundRun, Told, Cause, ValidSchedule, SortBy;
    asked := Asked(0, 0, 0);
    if !Coherent(config) {
      return Err(InvalidConfig), asked;
    }
    var built := NewPhaseRotatedSchedule(config.roster, config.repetitions, config.purpose);
    if built.Err? {
      return Err(ScheduleRefused(built.error)), asked;
    }
    var schedule := built.value;
    if |schedule.roster| != config.plan.candidates || schedule.repetitions != ExpectedRepeats(config)
       || config.plan.rotation != StartByRepetition {
      return Err(PlanMismatch), asked;
    }
    if !config.budget.Valid(|schedule.roster|) {
      return Err(InvalidBudget), asked;
    }
    var observer := new Observer(env, config, schedule);
    result := observer.Observe();
    asked := observer.Counts();
  }
}
