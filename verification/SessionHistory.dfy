/** What a session remembers of the calls that were made on it. */
module SessionHistory {
  import opened Bytes
  import opened Session

  /** The session before call number `k`. */
  function Before<Input>(start: Session<Input>, calls: seq<Call<Input>>, k: nat): Session<Input>
    requires k <= |calls|
  {
    Run(start, calls[..k])
  }

  /** Call `k` was an accepted visit of the surface, before the reveal when `early` is set. */
  ghost predicate VisitedAt<Input>(start: Session<Input>, calls: seq<Call<Input>>, k: nat, x: Surface, early: bool)
    requires k < |calls|
  {
    && calls[k] == DoVisit(x) && Visit(Before(start, calls, k), x).Ok?
    && (early ==> !Before(start, calls, k).revealed)
  }

  ghost predicate RevealedAt<Input>(start: Session<Input>, calls: seq<Call<Input>>, k: nat)
    requires k < |calls|
  {
    calls[k] == DoReveal && Reveal(Before(start, calls, k)).Ok?
  }

  /** Call `k` was an accepted proposal of the draft. */
  ghost predicate ProposedAt<Input>(start: Session<Input>, calls: seq<Call<Input>>, k: nat, d: Draft)
    requires k < |calls|
  {
    && calls[k].DoPropose? && Propose(Before(start, calls, k), calls[k].input).Ok?
    && start.record.draft(start.view, calls[k].input) == Ok(d)
  }

  /** Call `k` was an accepted revision to the draft. */
  ghost predicate RevisedAt<Input>(start: Session<Input>, calls: seq<Call<Input>>, k: nat, d: Draft, rationale: bytes)
    requires k < |calls|
  {
    && calls[k].DoRevise? && Revise(Before(start, calls, k), calls[k].revised, calls[k].rationale).Ok?
    && start.record.draft(start.view, calls[k].revised) == Ok(d) && calls[k].rationale == rationale
  }

  lemma RunSnoc<Input>(start: Session<Input>, before: seq<Call<Input>>, call: Call<Input>)
    ensures Run(start, before + [call]) == Step(Run(start, before), call)
    ensures forall k: nat :: k <= |before| ==> Before(start, before + [call], k) == Before(start, before, k)
  {
    hide Step;
    var all := before + [call];
    assert all[..|before|] == before;
    forall k: nat | k <= |before| ensures all[..k] == before[..k] {
    }
  }

  /** What one call changes. */
  lemma StepChanges<Input>(s: Session<Input>, call: Call<Input>)
    ensures var t := Step(s, call);
            && t.record == s.record && t.view == s.view
            && (forall x :: x in t.visits <==> x in s.visits || (call == DoVisit(x) && Visit(s, x).Ok?))
            && (forall x :: x in t.pre <==> x in s.pre || (call == DoVisit(x) && Visit(s, x).Ok? && !s.revealed))
            && (t.revealed <==> s.revealed || (call == DoReveal && Reveal(s).Ok?))
  {
    hide Preflight, BuildDecision, RequiredSet, REQUIRED;
  }

  /** Early and other visits are exactly the accepted calls, and the session is revealed exactly when a reveal
      was accepted. */
  lemma {:induction false} VisitsExactly<Input>(start: Session<Input>, calls: seq<Call<Input>>, x: Surface)
    requires start.visits == {} && start.pre == {} && !start.revealed
    ensures var s := Run(start, calls);
            && (x in s.visits <==> exists k: nat :: k < |calls| && VisitedAt(start, calls, k, x, false))
            && (x in s.pre <==> exists k: nat :: k < |calls| && VisitedAt(start, calls, k, x, true))
            && (s.revealed <==> exists k: nat :: k < |calls| && RevealedAt(start, calls, k))
  {
    hide Step, Visit, Reveal, Run, Before;
    if calls == [] {
      NothingRun(start);
    } else {
      var last := |calls| - 1;
      var before, call := calls[..last], calls[last];
      assert calls == before + [call];
      VisitsExactly(start, before, x);
      RunSnoc(start, before, call);
      WholeBefore(start, before);
      StepChanges(Run(start, before), call);
      forall k: nat | k < last
        ensures VisitedAt(start, calls, k, x, false) == VisitedAt(start, before, k, x, false)
        ensures VisitedAt(start, calls, k, x, true) == VisitedAt(start, before, k, x, true)
        ensures RevealedAt(start, calls, k) == RevealedAt(start, before, k)
      {
        assert calls[k] == before[k];
      }
      assert VisitedAt(start, calls, last, x, false) <==> call == DoVisit(x) && Visit(Run(start, before), x).Ok?;
      assert VisitedAt(start, calls, last, x, true)
        <==> call == DoVisit(x) && Visit(Run(start, before), x).Ok? && !Run(start, before).revealed;
      assert RevealedAt(start, calls, last) <==> call == DoReveal && Reveal(Run(start, before)).Ok?;
    }
  }

  lemma NothingRun<Input>(start: Session<Input>)
    ensures Run(start, []) == start
  {
  }

  lemma WholeBefore<Input>(start: Session<Input>, calls: seq<Call<Input>>)
    ensures Before(start, calls, |calls|) == Run(start, calls)
  {
    assert calls[..|calls|] == calls;
  }

  // ------------------------------------------------------------------- drafts

  /** How a call changes the drafts of a sound session. */
  lemma StepDrafts<Input>(s: Session<Input>, call: Call<Input>)
    requires Sound(s)
    ensures var t := Step(s, call);
            && (call.DoPropose? && Propose(s, call.input).Ok? ==>
                  s.provisional.None? && s.record.draft(s.view, call.input).Ok?
                  && t.provisional == Some(s.record.draft(s.view, call.input).value))
            && (!(call.DoPropose? && Propose(s, call.input).Ok?) ==> t.provisional == s.provisional)
            && (call.DoRevise? && Revise(s, call.revised, call.rationale).Ok? ==>
                  s.state == Revealed && s.record.draft(s.view, call.revised).Ok?
                  && t.final == Some(s.record.draft(s.view, call.revised).value) && t.rationale == call.rationale && Ruled(t))
            && (!(call.DoRevise? && Revise(s, call.revised, call.rationale).Ok?) ==>
                  (Ruled(t) <==> Ruled(s)) && (Ruled(s) ==> t.final == s.final && t.rationale == s.rationale))
  {
    hide Preflight, BuildDecision, RequiredSet, REQUIRED, ExplicitText;
  }

  /** The final ruling is recorded. */
  predicate Ruled<Input>(s: Session<Input>)
  {
    s.state == PostRevealRecorded || s.state == Finalized
  }

  /** The provisional draft is the one that was proposed, the final draft and its rationale those of the accepted
      revision. */
  lemma {:induction false} DraftsExactly<Input>(record: Record<Input>, calls: seq<Call<Input>>, d: Draft, rationale: bytes)
    requires NewSession(record).Ok?
    ensures var start := NewSession(record).value;
            var s := Run(start, calls);
            && (s.provisional == Some(d) <==> exists k: nat :: k < |calls| && ProposedAt(start, calls, k, d))
            && (Ruled(s) && s.final == Some(d) && s.rationale == rationale <==>
                  exists k: nat :: k < |calls| && RevisedAt(start, calls, k, d, rationale))
  {
    hide Step, Propose, Revise, Run, Before, Sound, NewSession;
    var start := NewSession(record).value;
    ReachableIsSound(record, []);
    FreshSession(record);
    if calls == [] {
      NothingRun(start);
    } else {
      var last := |calls| - 1;
      var before, call := calls[..last], calls[last];
      assert calls == before + [call];
      DraftsExactly(record, before, d, rationale);
      ReachableIsSound(record, before);
      RunSnoc(start, before, call);
      WholeBefore(start, before);
      StepDrafts(Run(start, before), call);
      SoundKeeps(Run(start, before));
      ViewKept(start, before);
      forall k: nat | k < last
        ensures ProposedAt(start, calls, k, d) == ProposedAt(start, before, k, d)
        ensures RevisedAt(start, calls, k, d, rationale) == RevisedAt(start, before, k, d, rationale)
      {
        assert calls[k] == before[k];
      }
      DraftsNext(start, before, call, d, rationale);
    }
  }

  lemma FreshSession<Input>(record: Record<Input>)
    requires NewSession(record).Ok?
    ensures var start := NewSession(record).value;
            start.record == record && record.blind == Some(start.view) && start.provisional.None? && !Ruled(start)
  {
  }

  lemma SoundKeeps<Input>(s: Session<Input>)
    requires Sound(s)
    ensures s.state == Revealed ==> !Ruled(s)
  {
  }

  lemma {:induction false} ViewKept<Input>(start: Session<Input>, calls: seq<Call<Input>>)
    ensures Run(start, calls).record == start.record && Run(start, calls).view == start.view
  {
    hide Step;
    if calls != [] {
      ViewKept(start, calls[..|calls| - 1]);
      StepChanges(Run(start, calls[..|calls| - 1]), calls[|calls| - 1]);
    }
  }

  /** The last call is the proposal or the revision, or changes neither. */
  lemma DraftsNext<Input>(start: Session<Input>, before: seq<Call<Input>>, call: Call<Input>, d: Draft, rationale: bytes)
    requires Run(start, before).record == start.record && Run(start, before).view == start.view
    requires Before(start, before + [call], |before|) == Run(start, before)
    ensures var s := Run(start, before);
            && (ProposedAt(start, before + [call], |before|, d) <==>
                  call.DoPropose? && Propose(s, call.input).Ok? && s.record.draft(s.view, call.input) == Ok(d))
            && (RevisedAt(start, before + [call], |before|, d, rationale) <==>
                  call.DoRevise? && Revise(s, call.revised, call.rationale).Ok? && s.record.draft(s.view, call.revised) == Ok(d)
                  && call.rationale == rationale)
  {
    hide Propose, Revise, Run, Before;
    assert (before + [call])[|before|] == call;
  }
}
