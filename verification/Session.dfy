/** The decision session and the record builder (internal/choice/session.go, decision.go). */
module Session {
  import opened Bytes
  import opened Sorting
  import opened Domain
  import opened Utf8
  import CanonLimits

  datatype State = BlindOpen | ProvisionalRecorded | Revealed | PostRevealRecorded | Finalized

  datatype Surface =
    | OriginalWitness | MinimizedWitness | ReductionDerivation | ProjectionOperations | NonassertedFields
    | Provenance | OtherSurface(text: bytes)

  const REQUIRED: seq<Surface> :=
    [OriginalWitness, MinimizedWitness, ReductionDerivation, ProjectionOperations, NonassertedFields, Provenance]

  datatype SessionError =
    | ViewRefused | InvalidState | UnknownSurface | SurfaceNotVisited | RationaleRequired | UnnecessaryRationale
    | InvalidAttribution | LimitExceeded | DraftRefused | RevealRefused | InvalidReceipts | WireMismatch

  /** A checked ruling draft: its digest and its exact bytes. */
  datatype Draft = Draft(digest: Digest, exact: bytes)

  /** What varies in a decision record of one choicepoint. */
  datatype Body = Body(
    provisional: Option<Draft>, final: Draft, rationale: bytes, pre: seq<Surface>, post: seq<Surface>,
    actor: bytes, annotation: bytes, receipts: seq<bytes>)

  /** The exact bytes of a blind view. */
  type View = bytes

  /** The choicepoint: `blind` is the blind view that is built from it, if one can be, `draft` checks and
      normalises a draft input, `revealable` says whether the reveal can be built, `encode` gives the length
      of a record's canonical bytes, if it has any. */
  datatype Record<!Input> = Record(
    portable: bool, blind: Option<View>, draft: (View, Input) -> Result<Draft, SessionError>, revealable: View -> bool,
    encode: Body -> Option<nat>)

  datatype Session<!Input> = Session(
    record: Record<Input>, view: View, state: State, visits: set<Surface>, pre: set<Surface>,
    provisional: Option<Draft>, final: Option<Draft>, revealed: bool, rationale: bytes)

  const MAX_LATE_BYTES: nat := 0x4_0000
  const MAX_BASE_BYTES: nat := CanonLimits.MAX_INPUT_BYTES - MAX_LATE_BYTES
  const MAX_ACTOR_BYTES := 512
  const MAX_ANNOTATION_BYTES := 0x8000
  const MAX_RATIONALE_BYTES := 0x2000

  // --------------------------------------------------------------- text checks

  /** `unicode.IsSpace`. */
  predicate IsSpace(r: int)
  {
    || 9 <= r <= 13 || r == 0x20 || r == 0x85 || r == 0xA0 || r == 0x1680 || 0x2000 <= r <= 0x200A
    || r == 0x2028 || r == 0x2029 || r == 0x202F || r == 0x205F || r == 0x3000
  }

  /** `unicode.IsControl`. */
  predicate IsControl(r: int)
  {
    0 <= r < 0x20 || 0x7F <= r < 0xA0
  }

  /** `strings.TrimSpace` leaves nothing. */
  predicate BlankFrom(s: bytes, i: nat)
    requires i <= |s|
    decreases |s| - i
  {
    i == |s| || (IsSpace(DecodeRune(s, i).value) && BlankFrom(s, i + DecodeRune(s, i).size))
  }

  predicate ControlFrom(s: bytes, i: nat)
    requires i <= |s|
    decreases |s| - i
  {
    i < |s| && (IsControl(DecodeRune(s, i).value) || ControlFrom(s, i + DecodeRune(s, i).size))
  }

  /** A bounded explicit text. */
  predicate ExplicitText(s: bytes, limit: nat)
  {
    s != [] && |s| <= limit && ValidUtf8(s) && !BlankFrom(s, 0) && !ControlFrom(s, 0)
  }

  predicate GoodAttribution(actor: bytes, annotation: bytes)
  {
    && ExplicitText(actor, MAX_ACTOR_BYTES)
    && |annotation| <= MAX_ANNOTATION_BYTES && ValidUtf8(annotation) && 0 !in annotation
  }

  // ------------------------------------------------------------- visit lists

  /** The members of `chosen` in the order of `all`. */
  function Pick(all: seq<Surface>, chosen: set<Surface>): seq<Surface>
  {
    if all == [] then [] else (if all[0] in chosen then [all[0]] else []) + Pick(all[1..], chosen)
  }

  function SurfaceSet(all: seq<Surface>): set<Surface>
  {
    set s | s in all
  }

  predicate AllDistinct(all: seq<Surface>)
  {
    forall i, j :: 0 <= i < j < |all| ==> all[i] != all[j]
  }

  datatype Visited = Visited(pre: seq<Surface>, post: seq<Surface>)

  lemma PickNext(all: seq<Surface>, i: nat, chosen: set<Surface>, done: seq<Surface>)
    requires i < |all|
    ensures done + Pick(all[i..], chosen) == (if all[i] in chosen then done + [all[i]] else done) + Pick(all[i + 1..], chosen)
  {
    assert all[i..][1..] == all[i + 1..];
    if all[i] in chosen {
      ConcatAssoc(done, [all[i]], Pick(all[i + 1..], chosen));
    }
  }

  lemma PickNothing(chosen: set<Surface>, done: seq<Surface>)
    ensures done + Pick([], chosen) == done
  {
  }

  /** The loop of `buildDecisionRecord` that lists the visits before and after the reveal. */
  method PartitionVisits(all: seq<Surface>, pre: set<Surface>) returns (v: Visited)
    ensures v == Visited(Pick(all, pre), Pick(all, SurfaceSet(all) - pre))
  {
    hide Pick;
    v := Visited([], []);
    assert all[0..] == all;
    ghost var after := SurfaceSet(all) - pre;
    for i := 0 to |all|
      invariant v.pre + Pick(all[i..], pre) == Pick(all, pre)
      invariant v.post + Pick(all[i..], after) == Pick(all, after)
    {
      assert all[i] in SurfaceSet(all);
      PickNext(all, i, pre, v.pre);
      PickNext(all, i, after, v.post);
      if all[i] in pre {
        v := v.(pre := v.pre + [all[i]]);
      } else {
        v := v.(post := v.post + [all[i]]);
      }
    }
    assert all[|all|..] == [];
    PickNothing(pre, v.pre);
    PickNothing(after, v.post);
  }

  /** The merge of `ParseDecisionRecord`: which surfaces were visited before the reveal. */
  function Merge(all: seq<Surface>, pre: seq<Surface>, post: seq<Surface>): Option<set<Surface>>
  {
    if all == [] then (if pre == [] && post == [] then Some({}) else None)
    else if pre != [] && pre[0] == all[0] then
      var rest := Merge(all[1..], pre[1..], post);
      if rest.None? then None else Some(rest.value + {all[0]})
    else if post != [] && post[0] == all[0] then Merge(all[1..], pre, post[1..])
    else None
  }

  method RebuildPartition(all: seq<Surface>, pre: seq<Surface>, post: seq<Surface>) returns (visits: Option<set<Surface>>)
    ensures visits == match Merge(all, pre, post) case None => None case Some(v) => if Provenance in v then None else Some(v)
  {
    var before: set<Surface> := {};
    var i, j := 0, 0;
    NothingJoined(Merge(all, pre, post));
    for k := 0 to |all|
      invariant i <= |pre| && j <= |post|
      invariant Merge(all, pre, post) == Joined(before, Merge(all[k..], pre[i..], post[j..]))
    {
      var surface := all[k];
      assert all[k..][1..] == all[k + 1..] && all[k..][0] == surface;
      if i < |pre| && pre[i] == surface {
        assert pre[i..][0] == surface && pre[i..][1..] == pre[i + 1..];
        JoinOne(before, surface, Merge(all[k + 1..], pre[i + 1..], post[j..]));
        before := before + {surface};
        i := i + 1;
      } else {
        assert i < |pre| ==> pre[i..][0] != surface;
        if j >= |post| || post[j] != surface {
          return None;
        }
        assert post[j..][0] == surface && post[j..][1..] == post[j + 1..];
        j := j + 1;
      }
    }
    assert all[|all|..] == [];
    if i != |pre| || j != |post| {
      return None;
    }
    assert pre[i..] == [] && post[j..] == [];
    if Provenance in before {
      return None;
    }
    return Some(before);
  }

  lemma NothingJoined(rest: Option<set<Surface>>)
    ensures Joined({}, rest) == rest
  {
    if rest.Some? {
      assert {} + rest.value == rest.value;
    }
  }

  lemma JoinOne(before: set<Surface>, x: Surface, rest: Option<set<Surface>>)
    ensures Joined(before, if rest.None? then None else Some(rest.value + {x})) == Joined(before + {x}, rest)
  {
    if rest.Some? {
      assert before + (rest.value + {x}) == before + {x} + rest.value;
    }
  }

  function Joined(before: set<Surface>, rest: Option<set<Surface>>): Option<set<Surface>>
  {
    if rest.None? then None else Some(before + rest.value)
  }

  lemma {:induction false} PickIsOrdered(all: seq<Surface>, chosen: set<Surface>)
    ensures forall s :: s in Pick(all, chosen) <==> s in all && s in chosen
  {
    if all != [] {
      PickIsOrdered(all[1..], chosen);
      assert all == [all[0]] + all[1..];
    }
  }

  lemma PickIgnores(all: seq<Surface>, a: set<Surface>, b: set<Surface>)
    requires forall s <- all :: s in a <==> s in b
    ensures Pick(all, a) == Pick(all, b)
  {
  }

  /** The lists of a record determine the visits, and only the two canonical lists of some visit set
      are accepted. */
  lemma {:induction false} MergeExactly(all: seq<Surface>, pre: seq<Surface>, post: seq<Surface>, p: set<Surface>)
    requires AllDistinct(all) && p <= SurfaceSet(all)
    ensures Merge(all, pre, post) == Some(p) <==> pre == Pick(all, p) && post == Pick(all, SurfaceSet(all) - p)
  {
    if all == [] {
      assert SurfaceSet(all) == {} && p == {};
    } else {
      var x, rest := all[0], all[1..];
      assert x !in rest;
      assert SurfaceSet(all) == SurfaceSet(rest) + {x};
      PickIsOrdered(rest, p);
      PickIsOrdered(rest, SurfaceSet(all) - p);
      if pre != [] && pre[0] == x {
        assert x in pre && pre == [x] + pre[1..];
        MergeExactly(rest, pre[1..], post, p - {x});
        PickIgnores(rest, p, p - {x});
        PickIgnores(rest, SurfaceSet(all) - p, SurfaceSet(rest) - (p - {x}));
        MergeWithin(rest, pre[1..], post);
        WithAndWithout(Merge(rest, pre[1..], post), x, p);
      } else if post != [] && post[0] == x {
        MergeWithin(rest, pre, post[1..]);
        if x !in p {
          MergeExactly(rest, pre, post[1..], p);
          PickIgnores(rest, SurfaceSet(all) - p, SurfaceSet(rest) - p);
          assert post == [x] + post[1..];
        }
      }
    }
  }

  lemma WithAndWithout(rest: Option<set<Surface>>, x: Surface, p: set<Surface>)
    requires rest.Some? ==> x !in rest.value
    ensures rest.Some? && rest.value + {x} == p <==> x in p && rest == Some(p - {x})
  {
  }

  lemma {:induction false} MergeWithin(all: seq<Surface>, pre: seq<Surface>, post: seq<Surface>)
    ensures Merge(all, pre, post).Some? ==> Merge(all, pre, post).value <= SurfaceSet(all)
  {
    if all != [] {
      assert all == [all[0]] + all[1..];
      if pre != [] && pre[0] == all[0] {
        MergeWithin(all[1..], pre[1..], post);
      } else if post != [] && post[0] == all[0] {
        MergeWithin(all[1..], pre, post[1..]);
      }
    }
  }

  // ------------------------------------------------------------- the session

  function RequiredSet(): set<Surface>
  {
    SurfaceSet(REQUIRED)
  }

  function BlindSet(): set<Surface>
  {
    RequiredSet() - {Provenance}
  }

  function NewSession<Input>(record: Record<Input>): Result<Session<Input>, SessionError>
  {
    if record.blind.None? then Err(ViewRefused)
    else Ok(Session(record, record.blind.value, BlindOpen, {}, {}, None, None, false, []))
  }

  function Visit<Input>(s: Session<Input>, surface: Surface): Result<Session<Input>, SessionError>
  {
    if surface !in REQUIRED then Err(UnknownSurface)
    else if s.state == Finalized then Err(InvalidState)
    else if surface == Provenance && !s.revealed then Err(InvalidState)
    else Ok(s.(visits := s.visits + {surface}, pre := if s.revealed then s.pre else s.pre + {surface}))
  }

  function Propose<Input>(s: Session<Input>, input: Input): Result<Session<Input>, SessionError>
  {
    if s.state != BlindOpen || s.revealed then Err(InvalidState)
    else if !(BlindSet() <= s.pre) then Err(SurfaceNotVisited)
    else
      var draft := s.record.draft(s.view, input);
      if draft.Err? then Err(draft.error)
      else
        var result := s.(provisional := Some(draft.value), final := Some(draft.value), state := ProvisionalRecorded);
        var refusal := Preflight(result);
        if refusal.Some? then Err(refusal.value) else Ok(result)
  }

  function Reveal<Input>(s: Session<Input>): Result<Session<Input>, SessionError>
  {
    if s.state != BlindOpen && s.state != ProvisionalRecorded then Err(InvalidState)
    else if !s.record.revealable(s.view) then Err(RevealRefused)
    else Ok(s.(revealed := true, state := Revealed))
  }

  predicate Changed<Input>(s: Session<Input>, draft: Draft)
  {
    s.provisional.Some? && s.provisional.value.digest != draft.digest
  }

  function Revise<Input>(s: Session<Input>, input: Input, rationale: bytes): Result<Session<Input>, SessionError>
  {
    if s.state != Revealed || !s.revealed then Err(InvalidState)
    else
      var draft := s.record.draft(s.view, input);
      if draft.Err? then Err(draft.error)
      else if Changed(s, draft.value) && !ExplicitText(rationale, MAX_RATIONALE_BYTES) then Err(RationaleRequired)
      else if !Changed(s, draft.value) && rationale != [] then Err(UnnecessaryRationale)
      else
        var result := s.(final := Some(draft.value), rationale := rationale, state := PostRevealRecorded);
        var refusal := Preflight(result);
        if refusal.Some? then Err(refusal.value) else Ok(result)
  }

  /** `preflightPortableDecisionBudget`: the prospective body with minimal attribution has to fit. */
  function Preflight<Input>(s: Session<Input>): Option<SessionError>
  {
    if !s.record.portable || s.final.None? then None
    else
      var prospective := s.(state := PostRevealRecorded, revealed := true, visits := s.visits + RequiredSet());
      var built := BuildBase(prospective, [0x78], [], []);
      if built.Err? then Some(built.error) else if built.value.length > MAX_BASE_BYTES then Some(LimitExceeded) else None
  }

  datatype Decision = Decision(body: Body, length: nat)

  /** The rechecks that `buildDecisionRecord` makes on the session. */
  function SessionRefusal<Input>(s: Session<Input>): Option<SessionError>
  {
    if s.state != PostRevealRecorded || !s.revealed || s.final.None? || s.record.blind != Some(s.view) then Some(InvalidState)
    else if !(RequiredSet() <= s.visits) then Some(SurfaceNotVisited)
    else if Provenance in s.pre || !(s.pre <= s.visits) then Some(InvalidState)
    else if s.provisional.Some? && !(BlindSet() <= s.pre) then Some(SurfaceNotVisited)
    else if Changed(s, s.final.value) && !ExplicitText(s.rationale, MAX_RATIONALE_BYTES) then Some(RationaleRequired)
    else if !Changed(s, s.final.value) && s.rationale != [] then Some(UnnecessaryRationale)
    else None
  }

  function NormalReceipts(receipts: seq<bytes>): Option<seq<bytes>>
  {
    var sorted := SortBy(receipts, Itself);
    if |receipts| > CanonLimits.MAX_CONTAINER_MEMBERS || exists i | 0 < i < |sorted| :: sorted[i] == sorted[i - 1] then None
    else Some(sorted)
  }

  function BodyOf<Input>(s: Session<Input>, actor: bytes, annotation: bytes, receipts: seq<bytes>): Body
    requires s.final.Some?
  {
    Body(s.provisional, s.final.value, s.rationale, Pick(REQUIRED, s.pre), Pick(REQUIRED, RequiredSet() - s.pre),
         actor, annotation, receipts)
  }

  /** `buildDecisionRecord` without the portable budget. Attribution is checked after the visits, before
      the other session facts. */
  function BuildBase<Input>(s: Session<Input>, actor: bytes, annotation: bytes, receipts: seq<bytes>): Result<Decision, SessionError>
  {
    if s.state != PostRevealRecorded || !s.revealed || s.final.None? || s.record.blind != Some(s.view) then Err(InvalidState)
    else if !(RequiredSet() <= s.visits) then Err(SurfaceNotVisited)
    else if !GoodAttribution(actor, annotation) then Err(InvalidAttribution)
    else if SessionRefusal(s).Some? then Err(SessionRefusal(s).value)
    else if !s.record.revealable(s.view) then Err(RevealRefused)
    else
      var normal := NormalReceipts(receipts);
      if normal.None? then Err(InvalidReceipts)
      else
        var body := BodyOf(s, actor, annotation, normal.value);
        var length := s.record.encode(body);
        if length.None? || length.value > CanonLimits.MAX_INPUT_BYTES then Err(LimitExceeded)
        else Ok(Decision(body, length.value))
  }

  /** `newDecisionRecord`: a portable record also keeps its base and its late bytes apart. */
  function BuildDecision<Input>(s: Session<Input>, actor: bytes, annotation: bytes, receipts: seq<bytes>)
    : Result<Decision, SessionError>
  {
    var built := BuildBase(s, actor, annotation, receipts);
    if built.Err? || !s.record.portable then built
    else
      var base := BuildBase(s, [0x78], [], []);
      if base.Err? || base.value.length > MAX_BASE_BYTES then Err(LimitExceeded)
      else
        var late := built.value.length - base.value.length;
        if late < 0 || late > MAX_LATE_BYTES then Err(LimitExceeded) else built
  }

  datatype Final<!Input> = Final(session: Session<Input>, decision: Decision)

  function Finalize<Input>(s: Session<Input>, actor: bytes, annotation: bytes, receipts: seq<bytes>)
    : Result<Final<Input>, SessionError>
  {
    if s.state != PostRevealRecorded || !s.revealed || s.final.None? then Err(InvalidState)
    else if !(RequiredSet() <= s.visits) then Err(SurfaceNotVisited)
    else
      var decision := BuildDecision(s, actor, annotation, receipts);
      if decision.Err? then Err(decision.error) else Ok(Final(s.(state := Finalized), decision.value))
  }

  // ------------------------------------------------------------ every reachable session

  /** A call on a session; one that is refused leaves the session as it was. */
  datatype Call<!Input> =
    | DoVisit(surface: Surface)
    | DoPropose(input: Input)
    | DoReveal
    | DoRevise(revised: Input, rationale: bytes)
    | DoFinalize(actor: bytes, annotation: bytes, receipts: seq<bytes>)

  function Step<Input>(s: Session<Input>, call: Call<Input>): Session<Input>
  {
    match call
    case DoVisit(surface) => var r := Visit(s, surface); if r.Ok? then r.value else s
    case DoPropose(input) => var r := Propose(s, input); if r.Ok? then r.value else s
    case DoReveal => var r := Reveal(s); if r.Ok? then r.value else s
    case DoRevise(input, rationale) => var r := Revise(s, input, rationale); if r.Ok? then r.value else s
    case DoFinalize(actor, annotation, receipts) =>
      var r := Finalize(s, actor, annotation, receipts); if r.Ok? then r.value.session else s
  }

  function Run<Input>(s: Session<Input>, calls: seq<Call<Input>>): Session<Input>
  {
    if calls == [] then s else Step(Run(s, calls[..|calls| - 1]), calls[|calls| - 1])
  }

  /** What holds of every session. */
  predicate Sound<Input>(s: Session<Input>)
  {
    && s.record.blind == Some(s.view)
    && s.pre <= s.visits <= RequiredSet() && Provenance !in s.pre
    && (!s.revealed ==> s.visits == s.pre)
    && (s.provisional.Some? ==> BlindSet() <= s.pre)
    && (s.revealed <==> s.state != BlindOpen && s.state != ProvisionalRecorded)
    && (s.state == BlindOpen ==> s.provisional.None?)
    && (s.state == ProvisionalRecorded ==> s.provisional.Some?)
    && (s.state == BlindOpen || s.state == ProvisionalRecorded || s.state == Revealed ==>
          s.final == s.provisional && s.rationale == [])
    && (s.state == PostRevealRecorded || s.state == Finalized ==>
          && s.final.Some?
          && (s.rationale != [] <==> Changed(s, s.final.value))
          && (s.rationale != [] ==> ExplicitText(s.rationale, MAX_RATIONALE_BYTES)))
    && (s.state == Finalized ==> RequiredSet() <= s.visits)
  }

  lemma VisitKeepsSound<Input>(s: Session<Input>, surface: Surface)
    requires Sound(s) && Visit(s, surface).Ok?
    ensures Sound(Visit(s, surface).value)
  {
    hide RequiredSet, ExplicitText;
    RequiredMembers();
  }

  lemma ProposeKeepsSound<Input>(s: Session<Input>, input: Input)
    requires Sound(s) && Propose(s, input).Ok?
    ensures Sound(Propose(s, input).value)
  {
    hide RequiredSet, ExplicitText, Preflight;
  }

  lemma RevealKeepsSound<Input>(s: Session<Input>)
    requires Sound(s) && Reveal(s).Ok?
    ensures Sound(Reveal(s).value)
  {
    hide RequiredSet, ExplicitText;
  }

  lemma ReviseKeepsSound<Input>(s: Session<Input>, input: Input, rationale: bytes)
    requires Sound(s) && Revise(s, input, rationale).Ok?
    ensures Sound(Revise(s, input, rationale).value)
  {
    hide RequiredSet, Preflight;
  }

  lemma FinalizeKeepsSound<Input>(s: Session<Input>, actor: bytes, annotation: bytes, receipts: seq<bytes>)
    requires Sound(s) && Finalize(s, actor, annotation, receipts).Ok?
    ensures Sound(Finalize(s, actor, annotation, receipts).value.session)
  {
    hide RequiredSet, ExplicitText, BuildDecision;
  }

  lemma StepKeepsSound<Input>(s: Session<Input>, call: Call<Input>)
    requires Sound(s)
    ensures Sound(Step(s, call)) && Step(s, call).record == s.record
  {
    hide Sound, Preflight, BuildDecision;
    match call
    case DoVisit(surface) => if Visit(s, surface).Ok? { VisitKeepsSound(s, surface); }
    case DoPropose(input) => if Propose(s, input).Ok? { ProposeKeepsSound(s, input); }
    case DoReveal => if Reveal(s).Ok? { RevealKeepsSound(s); }
    case DoRevise(input, rationale) => if Revise(s, input, rationale).Ok? { ReviseKeepsSound(s, input, rationale); }
    case DoFinalize(actor, annotation, receipts) =>
      if Finalize(s, actor, annotation, receipts).Ok? { FinalizeKeepsSound(s, actor, annotation, receipts); }
  }

  lemma RequiredMembers()
    ensures forall x :: x in REQUIRED <==> x in RequiredSet()
  {
  }

  /** Every session reachable from `NewSession`, by any calls whatever, is sound: provenance is never a
      visit before the reveal, those visits are among all visits, a provisional ruling means that all
      other surfaces were visited before the reveal, and a rationale is there exactly when the final
      draft differs from the provisional one. */
  lemma {:induction false} ReachableIsSound<Input>(record: Record<Input>, calls: seq<Call<Input>>)
    requires NewSession(record).Ok?
    ensures Sound(Run(NewSession(record).value, calls)) && Run(NewSession(record).value, calls).record == record
  {
    hide Step, Sound, NewSession;
    if calls == [] {
      NewIsSound(record);
    } else {
      ReachableIsSound(record, calls[..|calls| - 1]);
      StepKeepsSound(Run(NewSession(record).value, calls[..|calls| - 1]), calls[|calls| - 1]);
    }
  }

  lemma NewIsSound<Input>(record: Record<Input>)
    requires NewSession(record).Ok?
    ensures Sound(NewSession(record).value) && NewSession(record).value.record == record
  {
  }

  /** In a sound session whose surfaces are all visited, no recheck of the record builder refuses. */
  lemma RechecksNeverRefuse<Input>(s: Session<Input>)
    requires Sound(s) && s.state == PostRevealRecorded && RequiredSet() <= s.visits
    ensures SessionRefusal(s) == None
  {
    hide RequiredSet, ExplicitText;
  }

  /** So `Finalize` is decided by its arguments, the reveal and the sizes alone. */
  lemma FinalizeExactly<Input>(s: Session<Input>, actor: bytes, annotation: bytes, receipts: seq<bytes>)
    requires Sound(s)
    ensures Finalize(s, actor, annotation, receipts).Ok? <==>
      && s.state == PostRevealRecorded && RequiredSet() <= s.visits && GoodAttribution(actor, annotation)
      && s.record.revealable(s.view) && NormalReceipts(receipts).Some?
      && s.final.Some?
      && (var length := s.record.encode(BodyOf(s, actor, annotation, NormalReceipts(receipts).value));
          && length.Some? && length.value <= CanonLimits.MAX_INPUT_BYTES
          && (s.record.portable ==>
                var base := s.record.encode(BodyOf(s, [0x78], [], []));
                base.Some? && base.value <= MAX_BASE_BYTES && 0 <= length.value - base.value <= MAX_LATE_BYTES))
  {
    hide RequiredSet, ExplicitText, NormalReceipts, GoodAttribution, Pick;
    MinimalAttribution();
    if s.state == PostRevealRecorded && RequiredSet() <= s.visits {
      RechecksNeverRefuse(s);
    }
  }

  /** What a finalised decision records: the drafts and the rationale of the session, the attribution as given,
      every receipt in its multiplicity and in order, and each required surface once, among the early visits
      exactly when it was visited before the reveal. */
  lemma FinalizedBody<Input>(s: Session<Input>, actor: bytes, annotation: bytes, receipts: seq<bytes>)
    requires Finalize(s, actor, annotation, receipts).Ok?
    ensures var final := Finalize(s, actor, annotation, receipts).value;
            var body := final.decision.body;
            && final.session == s.(state := Finalized) && s.final.Some?
            && body.provisional == s.provisional && body.final == s.final.value && body.rationale == s.rationale
            && body.actor == actor && body.annotation == annotation
            && multiset(body.receipts) == multiset(receipts) && StrictlySorted(body.receipts, Itself)
            && (forall x :: x in body.pre <==> x in REQUIRED && x in s.pre)
            && (forall x :: x in body.post <==> x in REQUIRED && x !in s.pre)
            && s.record.encode(body) == Some(final.decision.length)
  {
    hide RequiredSet, ExplicitText, NormalReceipts, GoodAttribution, Pick, SessionRefusal;
    ReceiptsKept(receipts);
    RequiredMembers();
    PickIsOrdered(REQUIRED, s.pre);
    PickIsOrdered(REQUIRED, RequiredSet() - s.pre);
  }

  lemma ReceiptsKept(receipts: seq<bytes>)
    ensures NormalReceipts(receipts).Some? ==>
      multiset(NormalReceipts(receipts).value) == multiset(receipts) && StrictlySorted(NormalReceipts(receipts).value, Itself)
  {
    hide SortBy, Less;
    SortByCorrect(receipts, Itself);
    if NormalReceipts(receipts).Some? {
      NeighboursStrict(SortBy(receipts, Itself));
    }
  }

  lemma NeighboursStrict(sorted: seq<bytes>)
    requires Sorted(sorted, Itself) && forall i :: 0 < i < |sorted| ==> sorted[i] != sorted[i - 1]
    ensures StrictlySorted(sorted, Itself)
  {
    forall i, j | 0 <= i < j < |sorted| ensures Less(Itself(sorted[i]), Itself(sorted[j])) {
      NeighboursLess(sorted, i, j);
    }
  }

  lemma {:induction false} NeighboursLess(sorted: seq<bytes>, i: nat, j: nat)
    requires i < j < |sorted| && Sorted(sorted, Itself) && forall k :: 0 < k < |sorted| ==> sorted[k] != sorted[k - 1]
    ensures Less(sorted[i], sorted[j])
    decreases j - i
  {
    hide Less;
    LessTotal(sorted[j - 1], sorted[j]);
    assert !Less(Itself(sorted[j]), Itself(sorted[j - 1]));
    if i < j - 1 {
      NeighboursLess(sorted, i, j - 1);
      LessTransitive(sorted[i], sorted[j - 1], sorted[j]);
    }
  }

  // -------------------------------------------------- an accepted proposal can be completed

  /** A run of visits, each of which has to be accepted. */
  function VisitAll<Input>(s: Session<Input>, surfaces: seq<Surface>): Result<Session<Input>, SessionError>
  {
    if surfaces == [] then Ok(s)
    else
      var before := VisitAll(s, surfaces[..|surfaces| - 1]);
      if before.Err? then before else Visit(before.value, surfaces[|surfaces| - 1])
  }

  /** What visits leave alone. Once all blind surfaces are visited, the visits before the reveal are settled. */
  lemma {:induction false} VisitsKeep<Input>(s: Session<Input>, surfaces: seq<Surface>)
    requires Sound(s) && BlindSet() <= s.pre && VisitAll(s, surfaces).Ok?
    ensures var t := VisitAll(s, surfaces).value;
            && Sound(t) && t.pre == s.pre && s.visits <= t.visits
            && t == s.(visits := t.visits)
  {
    hide Sound, Visit;
    if surfaces != [] {
      var before := surfaces[..|surfaces| - 1];
      VisitsKeep(s, before);
      VisitKeeps(VisitAll(s, before).value, surfaces[|surfaces| - 1]);
    }
  }

  lemma VisitKeeps<Input>(s: Session<Input>, surface: Surface)
    requires Sound(s) && BlindSet() <= s.pre && Visit(s, surface).Ok?
    ensures var t := Visit(s, surface).value;
            Sound(t) && t.pre == s.pre && s.visits <= t.visits && t == s.(visits := t.visits)
  {
    hide ExplicitText, RequiredSet;
    VisitKeepsSound(s, surface);
    RequiredMembers();
    if !s.revealed {
      assert surface in BlindSet();
      assert s.pre + {surface} == s.pre;
    }
  }

  lemma MinimalAttribution()
    ensures GoodAttribution([0x78], []) && NormalReceipts([]) == Some([])
  {
    assert DecodeRune([0x78], 0).value == 0x78;
  }

  /** What the preflight of a portable proposal established. */
  lemma PreflightMeans<Input>(s: Session<Input>)
    requires s.record.portable && s.final.Some? && Preflight(s).None?
    ensures s.record.revealable(s.view)
    ensures var length := s.record.encode(BodyOf(s, [0x78], [], []));
            length.Some? && length.value <= MAX_BASE_BYTES
  {
    hide RequiredSet, ExplicitText, GoodAttribution, NormalReceipts, SessionRefusal, Pick;
    MinimalAttribution();
  }

  /** The same body passes again, in any sound session with the same drafts, rationale and early visits. */
  lemma SameBodyPasses<Input>(s: Session<Input>, t: Session<Input>)
    requires Sound(t) && t.state == PostRevealRecorded && t.record == s.record && t.view == s.view && t.pre == s.pre
    requires s.final.Some? && t.final == s.final && t.provisional == s.provisional && t.rationale == s.rationale
    requires s.record.revealable(s.view)
    requires var length := s.record.encode(BodyOf(s, [0x78], [], [])); length.Some? && length.value <= MAX_BASE_BYTES
    ensures Preflight(t) == None
    ensures RequiredSet() <= t.visits ==> Finalize(t, [0x78], [], []).Ok?
  {
    hide RequiredSet, ExplicitText, GoodAttribution, NormalReceipts, Pick;
    MinimalAttribution();
    var full := t.(visits := t.visits + RequiredSet());
    assert SessionRefusal(full) == None;
    assert t.visits >= RequiredSet() ==> full == t by {
      if t.visits >= RequiredSet() {
        assert full.visits == t.visits;
      }
    }
  }

  /** Every accepted portable proposal can be completed: after any further legal visits the reveal is
      accepted; after any further ones the unchanged draft is; and once everything is visited, so is
      `Finalize` with the minimal attribution. */
  lemma ProposalCompletes<Input>(s: Session<Input>, input: Input, early: seq<Surface>, late: seq<Surface>, last: seq<Surface>)
    requires Sound(s) && s.record.portable && Propose(s, input).Ok?
    requires VisitAll(Propose(s, input).value, early).Ok?
    ensures var s1 := VisitAll(Propose(s, input).value, early).value;
            && Reveal(s1).Ok?
            && (VisitAll(Reveal(s1).value, late).Ok? ==>
                  var s2 := VisitAll(Reveal(s1).value, late).value;
                  && Revise(s2, input, []).Ok?
                  && (var s3 := VisitAll(Revise(s2, input, []).value, last);
                      s3.Ok? && RequiredSet() <= s3.value.visits ==> Finalize(s3.value, [0x78], [], []).Ok?))
  {
    hide Sound, VisitAll, Preflight, Finalize, RequiredSet, Pick;
    var proposed := Propose(s, input).value;
    ProposeKeepsSound(s, input);
    PreflightMeans(proposed);
    ProposedState(s, input);
    VisitsKeep(proposed, early);
    var s1 := VisitAll(proposed, early).value;
    RevealKeepsSound(s1);
    var revealed := Reveal(s1).value;
    if VisitAll(revealed, late).Ok? {
      VisitsKeep(revealed, late);
      var s2 := VisitAll(revealed, late).value;
      var prospective := s2.(state := PostRevealRecorded);
      UnchangedIsSound(s2);
      SameBodyPasses(proposed, prospective);
      assert Revise(s2, input, []) == Ok(prospective);
      if VisitAll(prospective, last).Ok? {
        VisitsKeep(prospective, last);
        SameBodyPasses(proposed, VisitAll(prospective, last).value);
      }
    }
  }

  lemma ProposedState<Input>(s: Session<Input>, input: Input)
    requires Sound(s) && Propose(s, input).Ok?
    ensures var t := Propose(s, input).value;
            && BlindSet() <= t.pre && t.state == ProvisionalRecorded && t.rationale == [] && t.final == t.provisional
            && s.record.draft(s.view, input) == Ok(t.final.value) && t.final.Some? && t.record == s.record && t.view == s.view
            && !t.revealed
  {
    hide Preflight, RequiredSet;
  }

  /** Affirming the provisional draft unchanged keeps a revealed session sound. */
  lemma UnchangedIsSound<Input>(s: Session<Input>)
    requires Sound(s) && s.state == Revealed && s.final.Some?
    ensures Sound(s.(state := PostRevealRecorded))
  {
    hide RequiredSet, ExplicitText;
  }

  // --------------------------------------------------------- the intended path

  /** All surfaces but the provenance, in canonical order. */
  function BlindSurfaces(): seq<Surface>
  {
    [OriginalWitness, MinimizedWitness, ReductionDerivation, ProjectionOperations, NonassertedFields]
  }

  /** The body of an unchanged, blind-first ruling with minimal attribution. */
  function PlainBody(draft: Draft): Body
  {
    Body(Some(draft), draft, [], BlindSurfaces(), [Provenance], [0x78], [], [])
  }

  /** One more early visit. */
  lemma BlindVisit<Input>(s: Session<Input>, before: set<Surface>, x: Surface)
    requires s.state == BlindOpen && !s.revealed && x in REQUIRED && x != Provenance
    ensures Visit(s.(visits := s.visits + before, pre := s.pre + before), x)
         == Ok(s.(visits := s.visits + (before + {x}), pre := s.pre + (before + {x})))
  {
    hide REQUIRED;
    assert s.visits + before + {x} == s.visits + (before + {x});
    assert s.pre + before + {x} == s.pre + (before + {x});
  }

  /** Visits of a blind session are recorded as early ones. */
  lemma {:induction false} BlindVisits<Input>(s: Session<Input>, surfaces: seq<Surface>)
    requires s.state == BlindOpen && !s.revealed && forall x <- surfaces :: x in REQUIRED && x != Provenance
    ensures VisitAll(s, surfaces)
         == Ok(s.(visits := s.visits + SurfaceSet(surfaces), pre := s.pre + SurfaceSet(surfaces)))
  {
    hide Visit, REQUIRED;
    if surfaces == [] {
      assert s.visits + SurfaceSet(surfaces) == s.visits && s.pre + SurfaceSet(surfaces) == s.pre;
    } else {
      var last := |surfaces| - 1;
      var before, x := surfaces[..last], surfaces[last];
      assert surfaces == before + [x];
      BlindVisits(s, before);
      assert SurfaceSet(surfaces) == SurfaceSet(before) + {x};
      BlindVisit(s, SurfaceSet(before), x);
    }
  }

  lemma PickStep(x: Surface, rest: seq<Surface>, chosen: set<Surface>)
    ensures Pick([x] + rest, chosen) == (if x in chosen then [x] else []) + Pick(rest, chosen)
  {
    assert ([x] + rest)[1..] == rest;
  }

  lemma {:induction false} PickConcat(a: seq<Surface>, b: seq<Surface>, chosen: set<Surface>)
    ensures Pick(a + b, chosen) == Pick(a, chosen) + Pick(b, chosen)
  {
    if a == [] {
      assert a + b == b;
      PickNothing(chosen, []);
      assert Pick(a, chosen) == [];
    } else {
      hide Pick;
      var x, rest := a[0], a[1..];
      assert a == [x] + rest && a + b == [x] + (rest + b);
      PickStep(x, rest, chosen);
      PickStep(x, rest + b, chosen);
      PickConcat(rest, b, chosen);
      ConcatAssoc(if x in chosen then [x] else [], Pick(rest, chosen), Pick(b, chosen));
    }
  }

  lemma {:induction false} PickAllOrNone(all: seq<Surface>, chosen: set<Surface>)
    ensures (forall s <- all :: s in chosen) ==> Pick(all, chosen) == all
    ensures (forall s <- all :: s !in chosen) ==> Pick(all, chosen) == []
  {
    if all != [] {
      PickAllOrNone(all[1..], chosen);
      assert all == [all[0]] + all[1..];
    }
  }

  lemma PickRequired(chosen: set<Surface>)
    ensures Provenance !in chosen && (forall s <- BlindSurfaces() :: s in chosen) ==> Pick(REQUIRED, chosen) == BlindSurfaces()
    ensures Provenance in chosen && (forall s <- BlindSurfaces() :: s !in chosen) ==> Pick(REQUIRED, chosen) == [Provenance]
  {
    assert REQUIRED == BlindSurfaces() + [Provenance];
    hide Pick, BlindSurfaces, REQUIRED;
    PickConcat(BlindSurfaces(), [Provenance], chosen);
    PickAllOrNone(BlindSurfaces(), chosen);
    PickAllOrNone([Provenance], chosen);
  }

  lemma BlindPartition()
    ensures SurfaceSet(BlindSurfaces()) == BlindSet() && Provenance in RequiredSet()
    ensures Pick(REQUIRED, BlindSet()) == BlindSurfaces()
    ensures Pick(REQUIRED, RequiredSet() - BlindSet()) == [Provenance]
    ensures forall x <- BlindSurfaces() :: x in REQUIRED && x != Provenance
  {
    hide Pick;
    assert REQUIRED == BlindSurfaces() + [Provenance];
    RequiredMembers();
    PickRequired(BlindSet());
    PickRequired(RequiredSet() - BlindSet());
  }

  /** A new session takes the intended path to its end, in either mode, when the draft is accepted, the
      reveal can be built and the plain body fits the base budget: five visits, proposal, reveal, unchanged
      revision, provenance, finalisation. The decision is that plain body. */
  lemma OrderlySessionFinalizes<Input>(record: Record<Input>, input: Input, draft: Draft)
    requires NewSession(record).Ok? && record.draft(record.blind.value, input) == Ok(draft) && record.revealable(record.blind.value)
    requires var length := record.encode(PlainBody(draft)); length.Some? && length.value <= MAX_BASE_BYTES
    ensures var ready := VisitAll(NewSession(record).value, BlindSurfaces());
            && ready.Ok? && Propose(ready.value, input).Ok?
            && (var proposed := Propose(ready.value, input).value;
                && Reveal(proposed).Ok? && Revise(Reveal(proposed).value, input, []).Ok?
                && (var revised := Revise(Reveal(proposed).value, input, []).value;
                    && Visit(revised, Provenance).Ok?
                    && (var final := Finalize(Visit(revised, Provenance).value, [0x78], [], []);
                        final.Ok? && final.value.session.state == Finalized && final.value.decision.body == PlainBody(draft))))
  {
    hide RequiredSet, GoodAttribution, NormalReceipts, Pick, VisitAll, BlindSurfaces;
    MinimalAttribution();
    BlindPartition();
    BlindVisits(NewSession(record).value, BlindSurfaces());
    var ready := VisitAll(NewSession(record).value, BlindSurfaces()).value;
    assert ready.pre == BlindSet() && ready.visits == BlindSet();
  }
}
