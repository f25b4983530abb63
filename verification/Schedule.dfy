/** The rotated schedule of an observation run, and the budget tracker that meters it. */
module Schedule {
  import opened Bytes
  import opened Sorting
  import opened Domain

  const MIN_CANDIDATES := 2
  const MAX_CANDIDATES := 4
  const MAX_REPETITIONS := 5

  datatype ScheduleError = InvalidRoster | InvalidRepeats | InvalidPhase | DuplicateCandidate

  datatype ScheduledTrial = ScheduledTrial(candidate: Candidate, repetition: int, position: int, ordinal: int)
  {
    predicate Valid(candidates: int, repetitions: int)
    {
      && ValidCandidate(candidate) && 0 <= repetition < repetitions && 0 <= position < candidates
      && 0 <= ordinal == repetition * candidates + position
    }
  }

  /** The digest of a schedule is represented by the schedule itself. */
  datatype Schedule = Schedule(
    roster: seq<Candidate>, repetitions: nat, phase: Purpose, startOffset: nat, trials: seq<ScheduledTrial>)

  // ------------------------------------------------------------- the rotation

  /** What stands at position `p` of repetition `r`. */
  function SlotAt(roster: seq<Candidate>, offset: nat, r: nat, p: nat): ScheduledTrial
    requires roster != []
  {
    ScheduledTrial(roster[(offset + r + p) % |roster|], r, p, r * |roster| + p)
  }

  function Repetition(roster: seq<Candidate>, offset: nat, r: nat): (s: seq<ScheduledTrial>)
    requires roster != []
    ensures |s| == |roster|
  {
    seq(|roster|, p requires 0 <= p < |roster| => SlotAt(roster, offset, r, p))
  }

  function Trials(roster: seq<Candidate>, offset: nat, repetitions: nat): (s: seq<ScheduledTrial>)
    requires roster != []
    ensures |s| == repetitions * |roster|
  {
    if repetitions == 0 then []
    else Trials(roster, offset, repetitions - 1) + Repetition(roster, offset, repetitions - 1)
  }

  function StartOffset(phase: Purpose, n: nat): nat
    requires n > 0
  {
    if phase == Confirmation then 1 % n else 0
  }

  /** `RotatedSchedule.Valid`: rebuilding from the declared fields gives the same schedule. */
  predicate ValidSchedule(s: Schedule)
  {
    && MIN_CANDIDATES <= |s.roster| <= MAX_CANDIDATES && 1 <= s.repetitions <= MAX_REPETITIONS
    && ValidPurpose(s.phase) && (forall c <- s.roster :: ValidCandidate(c))
    && StrictlySorted(s.roster, Itself)
    && s.startOffset == StartOffset(s.phase, |s.roster|)
    && s.trials == Trials(s.roster, s.startOffset, s.repetitions)
  }

  predicate AcceptsRoster(roster: seq<Candidate>, repetitions: int, phase: Purpose)
  {
    && MIN_CANDIDATES <= |roster| <= MAX_CANDIDATES && 1 <= repetitions <= MAX_REPETITIONS && ValidPurpose(phase)
    && (forall c <- roster :: ValidCandidate(c)) && NoRepeats(roster)
  }

  method NewPhaseRotatedSchedule(roster: seq<Candidate>, repetitions: int, phase: Purpose)
    returns (result: Result<Schedule, ScheduleError>)
    ensures result.Ok? <==> AcceptsRoster(roster, repetitions, phase)
    ensures result.Ok? ==>
      var s := result.value;
      ValidSchedule(s) && s.roster == SortBy(roster, Itself) && s.repetitions == repetitions && s.phase == phase
    ensures result == Err(InvalidRepeats) <==>
      MIN_CANDIDATES <= |roster| <= MAX_CANDIDATES && !(1 <= repetitions <= MAX_REPETITIONS)
    ensures result == Err(InvalidPhase) <==>
      MIN_CANDIDATES <= |roster| <= MAX_CANDIDATES && 1 <= repetitions <= MAX_REPETITIONS && !ValidPurpose(phase)
    ensures result == Err(DuplicateCandidate) ==> !NoRepeats(roster)
    ensures result.Err? && MIN_CANDIDATES <= |roster| <= MAX_CANDIDATES && 1 <= repetitions <= MAX_REPETITIONS && ValidPurpose(phase) ==>
      RosterRefusal(SortBy(roster, Itself), 0) == Some(result.error)
    ensures !(MIN_CANDIDATES <= |roster| <= MAX_CANDIDATES) ==> result == Err(InvalidRoster)
  {
    if |roster| < MIN_CANDIDATES || |roster| > MAX_CANDIDATES {
      return Err(InvalidRoster);
    }
    if repetitions < 1 || repetitions > MAX_REPETITIONS {
      return Err(InvalidRepeats);
    }
    if !ValidPurpose(phase) {
      return Err(InvalidPhase);
    }
    var canonical :- CanonicalRoster(roster);
    var startOffset := 0;
    if phase == Confirmation {
      startOffset := 1 % |canonical|;
    }
    var trials := BuildTrials(canonical, startOffset, repetitions);
    return Ok(Schedule(canonical, repetitions, phase, startOffset, trials));
  }

  /** The first member in sorted order that is invalid or equal to its predecessor. */
  function RosterRefusal(canonical: seq<Candidate>, index: nat): (r: Option<ScheduleError>)
    requires index <= |canonical|
    ensures r.Some? ==> r.value == InvalidRoster || r.value == DuplicateCandidate
    decreases |canonical| - index
  {
    if index == |canonical| then None
    else if !ValidCandidate(canonical[index]) then Some(InvalidRoster)
    else if index > 0 && canonical[index] == canonical[index - 1] then Some(DuplicateCandidate)
    else RosterRefusal(canonical, index + 1)
  }

  method CanonicalRoster(roster: seq<Candidate>) returns (result: Result<seq<Candidate>, ScheduleError>)
    ensures result.Ok? <==> (forall c <- roster :: ValidCandidate(c)) && NoRepeats(roster)
    ensures result.Ok? ==> result.value == SortBy(roster, Itself) && StrictlySorted(result.value, Itself)
    ensures result.Ok? ==> forall c <- result.value :: ValidCandidate(c)
    ensures result.Err? ==> RosterRefusal(SortBy(roster, Itself), 0) == Some(result.error)
    ensures result.Ok? ==> RosterRefusal(SortBy(roster, Itself), 0).None?
    ensures result == Err(DuplicateCandidate) ==> !NoRepeats(roster)
  {
    hide ValidCandidate, SortBy, Sorted, StrictlySorted, NoRepeats;
    var canonical := SortBy(roster, Itself);
    SortByCorrect(roster, Itself);
    for index := 0 to |canonical|
      invariant forall k :: 0 <= k < index ==> ValidCandidate(canonical[k])
      invariant forall k :: 0 < k < index ==> canonical[k] != canonical[k - 1]
      invariant RosterRefusal(canonical, 0) == RosterRefusal(canonical, index)
    {
      if !ValidCandidate(canonical[index]) {
        assert canonical[index] in roster;
        return Err(InvalidRoster);
      }
      if index > 0 && canonical[index] == canonical[index - 1] {
        RepeatMeansRepeat(roster, index);
        return Err(DuplicateCandidate);
      }
    }
    AdjacentDistinct(roster);
    return Ok(canonical);
  }

  method BuildTrials(roster: seq<Candidate>, startOffset: nat, repetitions: nat) returns (trials: seq<ScheduledTrial>)
    requires roster != []
    ensures trials == Trials(roster, startOffset, repetitions)
  {
    trials := [];
    for repetition := 0 to repetitions
      invariant trials == Trials(roster, startOffset, repetition)
    {
      trials := AppendRepetition(roster, startOffset, repetition, trials);
    }
  }

  /** The inner loop over positions. */
  method AppendRepetition(roster: seq<Candidate>, startOffset: nat, repetition: nat, before: seq<ScheduledTrial>)
    returns (trials: seq<ScheduledTrial>)
    requires roster != []
    ensures trials == before + Repetition(roster, startOffset, repetition)
  {
    hide *;
    ghost var row := Repetition(roster, startOffset, repetition);
    trials := before;
    for position := 0 to |roster|
      invariant trials == before + row[..position]
    {
      var candidate := roster[(startOffset + repetition + position) % |roster|];
      var trial := ScheduledTrial(candidate, repetition, position, repetition * |roster| + position);
      SlotBuilt(roster, startOffset, repetition, position);
      trials := trials + [trial];
    }
  }

  lemma SlotBuilt(roster: seq<Candidate>, offset: nat, r: nat, p: nat)
    requires roster != [] && p < |roster|
    ensures Repetition(roster, offset, r)[p]
         == ScheduledTrial(roster[(offset + r + p) % |roster|], r, p, r * |roster| + p)
  {
  }

  lemma RepeatMeansRepeat(roster: seq<Candidate>, k: nat)
    requires 0 < k < |roster| && SortBy(roster, Itself)[k] == SortBy(roster, Itself)[k - 1]
    ensures !NoRepeats(roster)
  {
    if NoRepeats(roster) {
      SortByPermutation(roster, roster, Itself);
      LessIrreflexive(SortBy(roster, Itself)[k]);
    }
  }

  /** A sorted list without equal neighbours has no repeats at all. */
  lemma AdjacentDistinct(roster: seq<Candidate>)
    requires var s := SortBy(roster, Itself); forall k :: 0 < k < |s| ==> s[k] != s[k - 1]
    ensures NoRepeats(roster) && StrictlySorted(SortBy(roster, Itself), Itself)
  {
    var s := SortBy(roster, Itself);
    SortByCorrect(roster, Itself);
    forall i, j | 0 <= i < j < |s| ensures Less(s[i], s[j]) {
      AdjacentLess(s, i, j);
    }
    StrictIsDistinct(s, Itself);
    DistinctKeysPermute(s, roster, Itself);
    forall i, j | 0 <= i < j < |roster| ensures roster[i] != roster[j] {
      assert Itself(roster[i]) != Itself(roster[j]);
    }
  }

  lemma AdjacentLess(s: seq<Candidate>, i: nat, j: nat)
    requires Sorted(s, Itself) && (forall k :: 0 < k < |s| ==> s[k] != s[k - 1]) && i < j < |s|
    ensures Less(s[i], s[j])
  {
    LessTotal(s[j - 1], s[j]);
    assert !Less(Itself(s[j]), Itself(s[j - 1]));
    if i < j - 1 {
      AdjacentLess(s, i, j - 1);
      LessTransitive(s[i], s[j - 1], s[j]);
    }
  }

  // --------------------------------------------------- what the rotation gives

  function IndexIn(roster: seq<Candidate>, c: Candidate): (i: nat)
    requires c in roster
    ensures i < |roster| && roster[i] == c
  {
    if roster[0] == c then 0 else 1 + IndexIn(roster[1..], c)
  }

  function PositionOf(roster: seq<Candidate>, offset: nat, r: nat, c: Candidate): (p: nat)
    requires c in roster
    ensures p < |roster|
  {
    (IndexIn(roster, c) - offset - r) % |roster|
  }

  function SlotOf(roster: seq<Candidate>, offset: nat, r: nat, c: Candidate): ScheduledTrial
    requires c in roster
  {
    SlotAt(roster, offset, r, PositionOf(roster, offset, r, c))
  }

  lemma ModIs(x: int, n: nat, k: int, i: int)
    requires n > 0 && 0 <= i < n && x == k * n + i
    ensures x % n == i
  {
    assert (k - x / n) * n == x % n - i;
    NoSmallMultiple(k - x / n, n);
  }

  lemma NoSmallMultiple(d: int, n: nat)
    requires 0 - (n as int) < d * n < n
    ensures d == 0
  {
  }

  /** Solving a congruence for one term. */
  lemma ModShift(a: int, p: int, i: int, n: nat)
    requires n > 0 && 0 <= p < n && 0 <= i < n
    ensures (a + p) % n == i <==> p == (i - a) % n
  {
    if (a + p) % n == i {
      var k := (a + p) / n;
      assert i - a == (0 - k) * n + p;
      ModIs(i - a, n, 0 - k, p);
    }
    if p == (i - a) % n {
      var k := (i - a) / n;
      assert a + p == (0 - k) * n + i;
      ModIs(a + p, n, 0 - k, i);
    }
  }

  /** Each repetition is a permutation of the roster: every candidate stands at exactly one position. */
  lemma RepetitionPermutes(roster: seq<Candidate>, offset: nat, r: nat, p: nat, c: Candidate)
    requires NoRepeats(roster) && c in roster && p < |roster|
    ensures SlotAt(roster, offset, r, p).candidate == c <==> p == PositionOf(roster, offset, r, c)
  {
    var i := IndexIn(roster, c);
    ModShift(offset + r, p, i, |roster|);
    var j := (offset + r + p) % |roster|;
    assert roster[j] == c <==> j == i;
  }

  /** The repetition among `r0, ..., r0 + n - 1` that puts candidate `c` at position `p`. */
  function Placing(roster: seq<Candidate>, offset: nat, r0: nat, p: nat, c: Candidate): (r: nat)
    requires c in roster
    ensures r0 <= r < r0 + |roster|
  {
    r0 + (IndexIn(roster, c) - offset - p - r0) % |roster|
  }

  /** Any n consecutive repetitions put every candidate at every position exactly once. */
  lemma EveryPositionOnce(roster: seq<Candidate>, offset: nat, r0: nat, r: nat, p: nat, c: Candidate)
    requires NoRepeats(roster) && c in roster && p < |roster| && r0 <= r < r0 + |roster|
    ensures SlotAt(roster, offset, r, p).candidate == c <==> r == Placing(roster, offset, r0, p, c)
  {
    var i := IndexIn(roster, c);
    ModShift(offset + p + r0, r - r0, i, |roster|);
    var j := (offset + r + p) % |roster|;
    assert roster[j] == c <==> j == i;
  }

  /** Confirmation runs a different candidate than discovery at every slot. */
  lemma ConfirmationDiffers(roster: seq<Candidate>, r: nat, p: nat)
    requires NoRepeats(roster) && |roster| >= 2
    ensures SlotAt(roster, StartOffset(Confirmation, |roster|), r, p).candidate
         != SlotAt(roster, StartOffset(Discovery, |roster|), r, p).candidate
  {
    NextIsOther(r + p, |roster|);
  }

  /** The rotation spelled out: slot `p` of repetition `r` is for the candidate `r + p` places behind the first
      one in canonical order, and one further in the confirmation phase. */
  lemma RotationExactly(s: Schedule, r: nat, p: nat)
    requires ValidSchedule(s) && r < s.repetitions && p < |s.roster|
    ensures 0 <= r * |s.roster| + p < |s.trials|
    ensures s.trials[r * |s.roster| + p]
         == ScheduledTrial(s.roster[(r + p + if s.phase == Confirmation then 1 else 0) % |s.roster|], r, p, r * |s.roster| + p)
  {
    hide Trials, ValidCandidate, Less;
    TrialAt(s.roster, s.startOffset, s.repetitions, r, p);
    NextIsOther(0, |s.roster|);
  }

  lemma NextIsOther(x: nat, n: nat)
    requires n >= 2
    ensures 1 % n == 1 && (1 + x) % n != x % n
  {
    var i, k := x % n, x / n;
    ModIs(1, n, 0, 1);
    if i + 1 < n {
      ModIs(1 + x, n, k, i + 1);
    } else {
      assert 1 + x == (k + 1) * n;
      ModIs(1 + x, n, k + 1, 0);
    }
  }

  /** The schedule depends on the roster only as a set. */
  lemma RosterOrderIrrelevant(a: seq<Candidate>, b: seq<Candidate>)
    requires multiset(a) == multiset(b) && NoRepeats(a)
    ensures NoRepeats(b) && SortBy(a, Itself) == SortBy(b, Itself)
  {
    assert DistinctKeys(a, Itself);
    DistinctKeysPermute(a, b, Itself);
    SortByPermutation(a, b, Itself);
    forall i, j | 0 <= i < j < |b| ensures b[i] != b[j] {
      assert Itself(b[i]) != Itself(b[j]);
    }
  }

  /** The slot at index `r * n + p` is position `p` of repetition `r`: ordinals are indices. */
  lemma {:induction false} TrialAt(roster: seq<Candidate>, offset: nat, repetitions: nat, r: nat, p: nat)
    requires roster != [] && r < repetitions && p < |roster|
    ensures r * |roster| + p < |Trials(roster, offset, repetitions)|
    ensures Trials(roster, offset, repetitions)[r * |roster| + p] == SlotAt(roster, offset, r, p)
    ensures Trials(roster, offset, repetitions)[r * |roster| + p].ordinal == r * |roster| + p
  {
    var n := |roster|;
    assert (r + 1) * n <= repetitions * n;
    if r < repetitions - 1 {
      assert (r + 1) * n <= (repetitions - 1) * n;
      TrialAt(roster, offset, repetitions - 1, r, p);
    }
  }

  /** A candidate's ordinals increase with the repetition. */
  lemma OrdinalsIncrease(roster: seq<Candidate>, offset: nat, r: nat, q: nat, c: Candidate)
    requires c in roster && r < q
    ensures SlotOf(roster, offset, r, c).ordinal < SlotOf(roster, offset, q, c).ordinal
  {
    RowsApart(r, q, |roster|);
  }

  lemma RowsApart(r: nat, q: nat, n: nat)
    requires r < q
    ensures r * n + n <= q * n
  {
    if r + 1 < q {
      RowsApart(r, q - 1, n);
    }
    assert (q - 1) * n + n == q * n;
  }

  method TrialsForRepetition(s: Schedule, r: int) returns (slots: Option<seq<ScheduledTrial>>)
    requires ValidSchedule(s)
    ensures slots.Some? <==> 0 <= r < s.repetitions
    ensures slots.Some? ==> slots.value == Repetition(s.roster, s.startOffset, r)
  {
    if r < 0 || r >= s.repetitions || |s.roster| == 0 {
      return None;
    }
    var start := r * |s.roster|;
    RepetitionSlice(s.roster, s.startOffset, s.repetitions, r);
    return Some(s.trials[start..start + |s.roster|]);
  }

  lemma RepetitionSlice(roster: seq<Candidate>, offset: nat, repetitions: nat, r: nat)
    requires roster != [] && r < repetitions
    ensures (r + 1) * |roster| <= |Trials(roster, offset, repetitions)|
    ensures Trials(roster, offset, repetitions)[r * |roster|..(r + 1) * |roster|] == Repetition(roster, offset, r)
  {
    var n := |roster|;
    TrialAt(roster, offset, repetitions, r, n - 1);
    var x := Trials(roster, offset, repetitions)[r * n..(r + 1) * n];
    forall p | 0 <= p < n ensures x[p] == Repetition(roster, offset, r)[p] {
      TrialAt(roster, offset, repetitions, r, p);
    }
  }

  /** `Slot`: the one slot a candidate has in a repetition. */
  method Slot(s: Schedule, c: Candidate, r: int) returns (slot: Option<ScheduledTrial>)
    ensures slot.Some? <==> ValidSchedule(s) && 0 <= r < s.repetitions && c in s.roster
    ensures slot.Some? ==> slot.value == SlotOf(s.roster, s.startOffset, r, c)
  {
    if !ValidSchedule(s) || r < 0 || r >= s.repetitions {
      return None;
    }
    RepetitionSlice(s.roster, s.startOffset, s.repetitions, r);
    var slots := s.trials[r * |s.roster|..(r + 1) * |s.roster|];
    StrictIsDistinct(s.roster, Itself);
    assert NoRepeats(s.roster) by {
      assert forall i, j :: 0 <= i < j < |s.roster| ==> Itself(s.roster[i]) != Itself(s.roster[j]);
    }
    for p := 0 to |slots|
      invariant c in s.roster ==> p <= PositionOf(s.roster, s.startOffset, r, c)
    {
      assert slots[p] == SlotAt(s.roster, s.startOffset, r, p);
      if c in s.roster {
        RepetitionPermutes(s.roster, s.startOffset, r, p, c);
      }
      if slots[p].candidate == c {
        return Some(slots[p]);
      }
    }
    return None;
  }

  // ------------------------------------------------------------------ budgets

  datatype Budget = Budget(maxTotalTrials: int, wall: int)
  {
    predicate Valid(candidates: int)
    {
      candidates >= MIN_CANDIDATES && maxTotalTrials >= 1 && wall > 0
    }
  }

  datatype Exhaustion = Available | TrialExhausted | WallExhausted | MatrixWouldSplit

  datatype Snapshot = Snapshot(budget: Budget, started: int, completed: int, elapsed: nat, exhaustion: Exhaustion)

  class BudgetTracker {
    const budget: Budget
    const startedAt: int
    var started: int
    var completed: int
    var exhaustion: Exhaustion

    constructor (budget: Budget, startedAt: int)
      ensures this.budget == budget && this.startedAt == startedAt
      ensures started == 0 && completed == 0 && exhaustion == Available
    {
      this.budget := budget;
      this.startedAt := startedAt;
      started, completed, exhaustion := 0, 0, Available;
    }

    predicate WallExpired(now: int)
    {
      now >= startedAt + budget.wall
    }

    method CanStartMatrix(now: int, candidates: int) returns (ok: bool)
      modifies this`exhaustion
      ensures ok <==> !WallExpired(now) && started + candidates <= budget.maxTotalTrials
      ensures exhaustion == if ok then old(exhaustion)
                            else if WallExpired(now) then WallExhausted
                            else if started == budget.maxTotalTrials then TrialExhausted
                            else MatrixWouldSplit
    {
      if WallExpired(now) {
        exhaustion := WallExhausted;
        return false;
      }
      if budget.maxTotalTrials - started < candidates {
        if budget.maxTotalTrials == started {
          exhaustion := TrialExhausted;
        } else {
          exhaustion := MatrixWouldSplit;
        }
        return false;
      }
      return true;
    }

    method BeginTrial(now: int) returns (ok: bool)
      modifies this`started, this`exhaustion
      ensures ok <==> !WallExpired(now) && old(started) < budget.maxTotalTrials
      ensures started == if ok then old(started) + 1 else old(started)
      ensures exhaustion == if ok then old(exhaustion) else if WallExpired(now) then WallExhausted else TrialExhausted
    {
      if WallExpired(now) {
        exhaustion := WallExhausted;
        return false;
      }
      if started >= budget.maxTotalTrials {
        exhaustion := TrialExhausted;
        return false;
      }
      started := started + 1;
      return true;
    }

    method CompleteTrial(now: int) returns (ok: bool)
      modifies this`completed, this`exhaustion
      ensures ok <==> !WallExpired(now)
      ensures completed == if ok then old(completed) + 1 else old(completed)
      ensures exhaustion == if ok then old(exhaustion) else WallExhausted
    {
      if WallExpired(now) {
        exhaustion := WallExhausted;
        return false;
      }
      completed := completed + 1;
      return true;
    }

    method WithinWall(now: int) returns (ok: bool)
      modifies this`exhaustion
      ensures ok <==> !WallExpired(now)
      ensures exhaustion == if ok then old(exhaustion) else WallExhausted
    {
      if WallExpired(now) {
        exhaustion := WallExhausted;
        return false;
      }
      return true;
    }

    method TakeSnapshot(now: int) returns (s: Snapshot)
      ensures s == Snapshot(budget, started, completed, if now < startedAt then 0 else now - startedAt, exhaustion)
    {
      var elapsed := now - startedAt;
      if elapsed < 0 {
        elapsed := 0;
      }
      return Snapshot(budget, started, completed, elapsed, exhaustion);
    }
  }
}
