/** Rulings: a selection of confirmed outcomes becomes an exact predicate on complete tuples
    (internal/choice/validation.go). */
module Ruling {
  import opened Bytes
  import opened Sorting
  import opened Domain
  import opened PortableValue
  import opened ChoiceKeys
  import opened FieldRegistry
  import Utf8

  type Tuple = seq<FieldValue>

  datatype Outcome = Outcome(id: bytes, candidate: Candidate, fingerprint: Digest, tuple: Tuple)

  datatype Ref = Ref(id: bytes, candidate: Candidate, fingerprint: Digest, universe: bytes)

  datatype ConfirmedSet = ConfirmedSet(registry: Registry, ordered: seq<Outcome>, byId: map<bytes, Outcome>, seal: bytes)

  function OutcomeId(o: Outcome): bytes { o.id }

  /** A sealed universe as its constructor leaves it. */
  ghost predicate SoundSet(s: ConfirmedSet)
  {
    && SoundRegistry(s.registry) && s.ordered != [] && DistinctKeys(s.ordered, OutcomeId)
    && (forall o <- s.ordered :: o.id != [] && o.id in s.byId && s.byId[o.id] == o)
    && (forall id <- s.byId :: s.byId[id] in s.ordered && s.byId[id].id == id)
    && (forall o <- s.ordered :: CompleteTuple(s.registry, o.tuple).Ok?)
  }

  function RefOf(s: ConfirmedSet, o: Outcome): Ref
  {
    Ref(o.id, o.candidate, o.fingerprint, s.seal)
  }

  // -------------------------------------------------------------- the partition

  function RefRefusal(s: ConfirmedSet, refs: seq<Ref>, i: nat): Option<Code>
    requires i <= |refs|
    decreases |refs| - i
  {
    if i == |refs| then None
    else if refs[i].id !in s.byId || refs[i].id == [] || refs[i] != RefOf(s, s.byId[refs[i].id]).(id := refs[i].id)
    then Some(UnconfirmedSelection)
    else if exists r <- refs[..i] :: r.id == refs[i].id then Some(DuplicateObservedSelection)
    else RefRefusal(s, refs, i + 1)
  }

  function Ids(refs: seq<Ref>): set<bytes>
  {
    set r <- refs :: r.id
  }

  /** The outcomes whose membership in `ids` is `side`, in universe order. */
  function Side(all: seq<Outcome>, ids: set<bytes>, side: bool): (s: seq<Outcome>)
    ensures forall o :: o in s <==> o in all && ((o.id in ids) == side)
  {
    if all == [] then []
    else
      var last := |all| - 1;
      Side(all[..last], ids, side) + if (all[last].id in ids) == side then [all[last]] else []
  }

  datatype Partition = Partition(allowed: seq<Outcome>, disallowed: seq<Outcome>)

  function PartitionOf(s: ConfirmedSet, refs: seq<Ref>): Result<Partition, Code>
  {
    if |refs| > |s.ordered| then Err(InputLimitExceeded)
    else if RefRefusal(s, refs, 0).Some? then Err(RefRefusal(s, refs, 0).value)
    else Ok(Partition(Side(s.ordered, Ids(refs), true), Side(s.ordered, Ids(refs), false)))
  }

  method PartitionOutcomes(s: ConfirmedSet, refs: seq<Ref>) returns (result: Result<Partition, Code>)
    ensures result == PartitionOf(s, refs)
  {
    hide Side;
    if |refs| > |s.ordered| {
      return Err(InputLimitExceeded);
    }
    var ids: set<bytes> := {};
    for i := 0 to |refs|
      invariant RefRefusal(s, refs, 0) == RefRefusal(s, refs, i) && ids == Ids(refs[..i])
    {
      assert refs[..i + 1] == refs[..i] + [refs[i]];
      var r := refs[i];
      if r.id !in s.byId || r.id == [] || r.universe != s.seal
         || r.candidate != s.byId[r.id].candidate || r.fingerprint != s.byId[r.id].fingerprint {
        return Err(UnconfirmedSelection);
      }
      if r.id in ids {
        return Err(DuplicateObservedSelection);
      }
      ids := ids + {r.id};
    }
    assert refs[..|refs|] == refs;
    var partition := SplitOutcomes(s.ordered, ids);
    return Ok(partition);
  }

  method SplitOutcomes(all: seq<Outcome>, ids: set<bytes>) returns (p: Partition)
    ensures p == Partition(Side(all, ids, true), Side(all, ids, false))
  {
    p := Partition([], []);
    for i := 0 to |all|
      invariant p == Partition(Side(all[..i], ids, true), Side(all[..i], ids, false))
    {
      assert all[..i + 1][..i] == all[..i];
      if all[i].id in ids {
        p := p.(allowed := p.allowed + [all[i]]);
      } else {
        p := p.(disallowed := p.disallowed + [all[i]]);
      }
    }
    assert all[..|all|] == all;
  }

  /** The two sides hold every outcome once. */
  lemma {:induction false} SidesPartition(all: seq<Outcome>, ids: set<bytes>)
    ensures multiset(Side(all, ids, true)) + multiset(Side(all, ids, false)) == multiset(all)
  {
    hide Side;
    if all == [] {
      NoSide(ids);
    } else {
      var last := |all| - 1;
      SidesPartition(all[..last], ids);
      assert all == all[..last] + [all[last]];
      SideSnoc(all[..last], all[last], ids, true);
      SideSnoc(all[..last], all[last], ids, false);
    }
  }

  lemma NoSide(ids: set<bytes>)
    ensures Side([], ids, true) == [] && Side([], ids, false) == []
  {
  }

  lemma SideSnoc(all: seq<Outcome>, x: Outcome, ids: set<bytes>, side: bool)
    ensures Side(all + [x], ids, side) == Side(all, ids, side) + if (x.id in ids) == side then [x] else []
  {
    assert (all + [x])[..|all|] == all;
  }

  // ------------------------------------------------------------ the projection

  /** The validated tuple of an outcome. */
  function FieldsOf(r: Registry, o: Outcome): map<bytes, Exact>
    requires CompleteTuple(r, o.tuple).Ok?
  {
    CompleteTuple(r, o.tuple).value
  }

  /** The projections of the outcomes, each key once, in order of first appearance. */
  function Projections(r: Registry, selected: seq<bytes>, outcomes: seq<Outcome>): Result<seq<Tuple>, Code>
  {
    if outcomes == [] then Ok([])
    else
      var last := |outcomes| - 1;
      var before := Projections(r, selected, outcomes[..last]);
      if before.Err? then before else ProjectOne(r, selected, outcomes[last], before.value)
  }

  function ProjectOne(r: Registry, selected: seq<bytes>, o: Outcome, before: seq<Tuple>): Result<seq<Tuple>, Code>
  {
    var fields := CompleteTuple(r, o.tuple);
    if fields.Err? then Err(fields.error)
    else if exists f <- selected :: f !in fields.value then Err(IncompleteTuple)
    else
      var tuple := Project(selected, fields.value);
      if exists t <- before :: TupleKey(t) == TupleKey(tuple) then Ok(before) else Ok(before + [tuple])
  }

  function Keys(tuples: seq<Tuple>): set<bytes>
  {
    set t <- tuples :: TupleKey(t)
  }

  lemma NoKeys()
    ensures Keys([]) == {}
  {
  }

  method ProjectNext(r: Registry, selected: seq<bytes>, o: Outcome, tuples: seq<Tuple>, keys: set<bytes>)
    returns (result: Result<seq<Tuple>, Code>, more: set<bytes>)
    requires keys == Keys(tuples)
    ensures result == ProjectOne(r, selected, o, tuples)
    ensures result.Ok? ==> more == Keys(result.value)
  {
    hide CompleteTuple, TupleKey;
    more := keys;
    var fields := ValidateCompleteTuple(r, o.tuple);
    if fields.Err? {
      return Err(fields.error), more;
    }
    if exists f <- selected :: f !in fields.value {
      return Err(IncompleteTuple), more;
    }
    var tuple := Project(selected, fields.value);
    var key := TupleIdentityKey(tuple);
    if key in keys {
      return Ok(tuples), more;
    }
    return Ok(tuples + [tuple]), keys + {key};
  }

  /** `projectConfirmed`: the loop with its set of keys; the caller sorts by key. */
  method ProjectConfirmed(r: Registry, selected: seq<bytes>, outcomes: seq<Outcome>)
    returns (result: Result<seq<Tuple>, Code>, keys: set<bytes>)
    ensures result == match Projections(r, selected, outcomes) case Err(e) => Err(e) case Ok(ts) => Ok(SortBy(ts, TupleKey))
    ensures result.Ok? ==> keys == Keys(Projections(r, selected, outcomes).value)
  {
    hide CompleteTuple, TupleKey, SortBy, ProjectOne, Keys;
    var tuples: seq<Tuple> := [];
    NoKeys();
    keys := {};
    for i := 0 to |outcomes|
      invariant Projections(r, selected, outcomes[..i]) == Ok(tuples)
      invariant keys == Keys(tuples)
    {
      assert outcomes[..i + 1][..i] == outcomes[..i];
      var next, nextKeys := ProjectNext(r, selected, outcomes[i], tuples, keys);
      if next.Err? {
        ProjectionStops(r, selected, outcomes, i + 1);
        return Err(next.error), keys;
      }
      tuples, keys := next.value, nextKeys;
    }
    assert outcomes[..|outcomes|] == outcomes;
    return Ok(SortBy(tuples, TupleKey)), keys;
  }

  lemma {:induction false} ProjectionStops(r: Registry, selected: seq<bytes>, outcomes: seq<Outcome>, k: nat)
    requires k <= |outcomes| && Projections(r, selected, outcomes[..k]).Err?
    ensures Projections(r, selected, outcomes) == Projections(r, selected, outcomes[..k])
  {
    hide ProjectOne;
    if k == |outcomes| {
      assert outcomes[..k] == outcomes;
    } else {
      assert outcomes[..|outcomes| - 1][..k] == outcomes[..k];
      ProjectionStops(r, selected, outcomes[..|outcomes| - 1], k);
    }
  }

  /** What a field selection sees of an outcome. */
  function View(r: Registry, selected: seq<bytes>, o: Outcome): Tuple
    requires CompleteTuple(r, o.tuple).Ok? && forall f <- selected :: f in FieldsOf(r, o)
  {
    Project(selected, FieldsOf(r, o))
  }

  ghost predicate Viewable(r: Registry, selected: seq<bytes>, outcomes: seq<Outcome>)
  {
    forall o <- outcomes :: CompleteTuple(r, o.tuple).Ok? && forall f <- selected :: f in FieldsOf(r, o)
  }

  /** The projections are exactly the views of the outcomes, each once. */
  lemma {:induction false} ProjectionsAreViews(r: Registry, selected: seq<bytes>, outcomes: seq<Outcome>)
    requires Viewable(r, selected, outcomes)
    ensures Projections(r, selected, outcomes).Ok?
    ensures forall o <- outcomes :: View(r, selected, o) in Projections(r, selected, outcomes).value
    ensures forall t <- Projections(r, selected, outcomes).value :: exists o <- outcomes :: View(r, selected, o) == t
    ensures DistinctKeys(Projections(r, selected, outcomes).value, TupleKey)
  {
    hide CompleteTuple, TupleKey;
    if outcomes != [] {
      var last := |outcomes| - 1;
      assert outcomes == outcomes[..last] + [outcomes[last]];
      ProjectionsAreViews(r, selected, outcomes[..last]);
      var before, tuple := Projections(r, selected, outcomes[..last]).value, View(r, selected, outcomes[last]);
      if t :| t in before && TupleKey(t) == TupleKey(tuple) {
        TupleKeyInjective(t, tuple);
      }
      assert Projections(r, selected, outcomes) == ProjectOne(r, selected, outcomes[last], before);
    }
  }

  /** Two outcomes look the same exactly when they agree on every selected field. */
  lemma ViewsAgree(r: Registry, selected: seq<bytes>, a: map<bytes, Exact>, b: map<bytes, Exact>)
    requires forall f <- selected :: f in a && f in b
    ensures TupleKey(Project(selected, a)) == TupleKey(Project(selected, b)) <==> forall f <- selected :: a[f] == b[f]
  {
    hide TupleKey;
    var p, q := Project(selected, a), Project(selected, b);
    TupleKeyInjective(p, q);
    if p == q {
      forall f <- selected ensures a[f] == b[f] {
        var k :| 0 <= k < |selected| && selected[k] == f;
        assert p[k] == q[k];
      }
    }
  }

  // --------------------------------------------------------------- the ruling

  datatype Action = AllowObserved | CustomExpectation | RejectAll | Defer | Refine | OtherAction(text: bytes)

  /** A sealed custom expectation: exactly the selected fields, in registry order. */
  datatype SelectedTuple = SelectedTuple(sealed: bool, universe: bytes, selectedKey: bytes, tupleKey: bytes, fields: Tuple)

  datatype Review = Review(valid: bool, universe: bytes, selectedKey: bytes, expectationKey: bytes)

  datatype RulingInput = RulingInput(
    action: Action, selected: seq<bytes>, refs: seq<Ref>, custom: Option<SelectedTuple>, review: Review)

  datatype Ruling =
    | Noncompilable(action: Action)
    | Compiled(action: Action, selected: seq<bytes>, allowedTuples: seq<Tuple>, disallowedTuples: seq<Tuple>,
               allowed: seq<Outcome>, disallowed: seq<Outcome>, allowedKeys: set<bytes>, pairs: int)

  function SelectedKey(selected: seq<bytes>): bytes
  {
    if selected == [] then [] else SelectedKey(selected[..|selected| - 1]) + LengthPrefix(selected[|selected| - 1])
  }

  function FieldIds(t: Tuple): (r: seq<bytes>)
    ensures |r| == |t| && forall k :: 0 <= k < |r| ==> r[k] == t[k].id
  {
    seq(|t|, k requires 0 <= k < |t| => t[k].id)
  }

  /** `SelectedTuple.validFor`: bound to this universe and selection, and still valid for its fields. */
  predicate ValidFor(s: ConfirmedSet, t: SelectedTuple, selected: seq<bytes>)
  {
    && t.sealed && t.universe == s.seal && t.selectedKey == SelectedKey(selected) && FieldIds(t.fields) == selected
    && (forall f <- t.fields :: f.id in s.registry.definitions && ValueRefusal(s.registry.definitions[f.id], f.value).None?)
    && PortableRefusal(s.registry, t.fields).None? && t.tupleKey == TupleKey(t.fields)
  }

  predicate Meets(t: Tuple, disallowed: seq<Tuple>)
  {
    exists d <- disallowed :: TupleKey(d) == TupleKey(t)
  }

  predicate Overlap(allowed: seq<Tuple>, disallowed: seq<Tuple>)
  {
    exists a <- allowed :: Meets(a, disallowed)
  }

  /** Projection of both sides and the all-pairs separation check. */
  function Separate(s: ConfirmedSet, action: Action, selected: seq<bytes>, p: Partition, authored: Option<Tuple>): Result<Ruling, Code>
  {
    var allowed := Projections(s.registry, selected, p.allowed);
    var disallowed := Projections(s.registry, selected, p.disallowed);
    if allowed.Err? then Err(allowed.error)
    else if disallowed.Err? then Err(disallowed.error)
    else
      var ours := if authored.Some? then [authored.value] else SortBy(allowed.value, TupleKey);
      var theirs := SortBy(disallowed.value, TupleKey);
      if Overlap(ours, theirs) then Err(if action == CustomExpectation then CustomAlreadySeen else AmbiguousScope)
      else Ok(Compiled(action, selected, ours, theirs, p.allowed, p.disallowed,
                       Keys(if authored.Some? then ours else allowed.value), |ours| * |theirs|))
  }

  function CustomRefusal(s: ConfirmedSet, input: RulingInput, selected: seq<bytes>): Option<Code>
  {
    if input.refs != [] || input.custom.None? then Some(CustomCardinality)
    else if !input.review.valid then Some(CustomUnreviewed)
    else if !ValidFor(s, input.custom.value, selected) then Some(ReviewMismatch)
    else if input.review.universe != s.seal || input.review.selectedKey != SelectedKey(selected)
         || input.review.expectationKey != input.custom.value.tupleKey then Some(ReviewMismatch)
    else None
  }

  /** `validateCompilable`. */
  function Compile(s: ConfirmedSet, input: RulingInput): Result<Ruling, Code>
  {
    if input.selected == [] then Err(EmptySelectedFields)
    else
      var selected := ResolveSelected(s.registry, input.selected);
      if selected.Err? then Err(selected.error)
      else if input.action == AllowObserved then
        if input.refs == [] then Err(EmptyObservedSelection)
        else if input.custom.Some? || input.review.valid then Err(UnexpectedCustomExpectation)
        else
          var p := PartitionOf(s, input.refs);
          if p.Err? then Err(p.error) else Separate(s, input.action, selected.value, p.value, None)
      else if CustomRefusal(s, input, selected.value).Some? then Err(CustomRefusal(s, input, selected.value).value)
      else Separate(s, input.action, selected.value, Partition([], s.ordered), Some(input.custom.value.fields))
  }

  /** `ValidateRuling`. */
  function Validate(s: ConfirmedSet, input: RulingInput): Result<Ruling, Code>
  {
    match input.action
    case OtherAction(text) =>
      if text == [] then Err(MissingAction)
      else if |text| > 64 then Err(InputLimitExceeded)
      else if !Utf8.ValidUtf8(text) then Err(InvalidUtf8Text)
      else Err(UnknownAction)
    case RejectAll | Defer | Refine =>
      if input.selected != [] || input.refs != [] || input.custom.Some? || input.review.valid then Err(NoncompilablePredicate)
      else Ok(Noncompilable(input.action))
    case _ => Compile(s, input)
  }

  /** The loop over all pairs. */
  method ComparePairs(allowed: seq<Tuple>, disallowed: seq<Tuple>) returns (overlap: bool, pairs: int)
    ensures overlap <==> Overlap(allowed, disallowed)
    ensures !overlap ==> pairs == |allowed| * |disallowed|
  {
    hide Meets;
    pairs := 0;
    for i := 0 to |allowed|
      invariant pairs == i * |disallowed|
      invariant forall k :: 0 <= k < i ==> !Meets(allowed[k], disallowed)
    {
      var met := CompareOne(allowed[i], disallowed);
      if met {
        assert allowed[i] in allowed;
        return true, pairs;
      }
      pairs := pairs + |disallowed|;
      assert (i + 1) * |disallowed| == i * |disallowed| + |disallowed|;
    }
    return false, pairs;
  }

  method CompareOne(t: Tuple, disallowed: seq<Tuple>) returns (met: bool)
    ensures met <==> Meets(t, disallowed)
  {
    hide TupleKey;
    var key := TupleIdentityKey(t);
    for j := 0 to |disallowed|
      invariant forall k :: 0 <= k < j ==> TupleKey(disallowed[k]) != key
    {
      var other := TupleIdentityKey(disallowed[j]);
      if key == other {
        assert disallowed[j] in disallowed;
        return true;
      }
    }
    return false;
  }

  method SeparateOutcomes(s: ConfirmedSet, action: Action, selected: seq<bytes>, p: Partition, authored: Option<Tuple>)
    returns (result: Result<Ruling, Code>)
    ensures result == Separate(s, action, selected, p, authored)
  {
    hide Projections, TupleKey, SortBy, Overlap;
    var allowed, keys := ProjectConfirmed(s.registry, selected, p.allowed);
    if allowed.Err? {
      return Err(allowed.error);
    }
    var ours := allowed.value;
    if authored.Some? {
      ours := [authored.value];
      var key := TupleIdentityKey(authored.value);
      keys := {key};
    }
    var disallowed, _ := ProjectConfirmed(s.registry, selected, p.disallowed);
    if disallowed.Err? {
      return Err(disallowed.error);
    }
    assert keys == Keys(if authored.Some? then ours else Projections(s.registry, selected, p.allowed).value);
    var overlap, pairs := ComparePairs(ours, disallowed.value);
    if overlap {
      return Err(if action == CustomExpectation then CustomAlreadySeen else AmbiguousScope);
    }
    return Ok(Compiled(action, selected, ours, disallowed.value, p.allowed, p.disallowed, keys, pairs));
  }

  method ValidateRuling(s: ConfirmedSet, input: RulingInput) returns (result: Result<Ruling, Code>)
    ensures result == Validate(s, input)
  {
    hide Compile;
    var action := input.action;
    if action.OtherAction? {
      if |action.text| == 0 {
        return Err(MissingAction);
      }
      if |action.text| > 64 {
        return Err(InputLimitExceeded);
      }
      var invalid := Utf8.FirstInvalidUtf8(action.text);
      if invalid >= 0 {
        return Err(InvalidUtf8Text);
      }
      return Err(UnknownAction);
    }
    if action == RejectAll || action == Defer || action == Refine {
      if |input.selected| > 0 || |input.refs| > 0 || input.custom.Some? || input.review.valid {
        return Err(NoncompilablePredicate);
      }
      return Ok(Noncompilable(action));
    }
    result := ValidateCompilable(s, input);
  }

  method ValidateCompilable(s: ConfirmedSet, input: RulingInput) returns (result: Result<Ruling, Code>)
    ensures result == Compile(s, input)
  {
    hide ResolveSelected, PartitionOf, Separate, ValidFor;
    if |input.selected| == 0 {
      return Err(EmptySelectedFields);
    }
    var selected := ResolveSelectedFields(s.registry, input.selected);
    if selected.Err? {
      return Err(selected.error);
    }
    if input.action == AllowObserved {
      if |input.refs| == 0 {
        return Err(EmptyObservedSelection);
      }
      if input.custom.Some? || input.review.valid {
        return Err(UnexpectedCustomExpectation);
      }
      var p := PartitionOutcomes(s, input.refs);
      if p.Err? {
        return Err(p.error);
      }
      result := SeparateOutcomes(s, input.action, selected.value, p.value, None);
    } else {
      var refusal := CustomRefusal(s, input, selected.value);
      if refusal.Some? {
        return Err(refusal.value);
      }
      result := SeparateOutcomes(s, input.action, selected.value, Partition([], s.ordered), Some(input.custom.value.fields));
    }
  }

  /** `Allows`: exact membership of a complete tuple. */
  function Allows(r: Registry, ruling: Ruling, tuple: Tuple): Result<bool, Code>
    requires ruling.Compiled?
  {
    var fields := CompleteTuple(r, tuple);
    if fields.Err? then Err(fields.error)
    else if exists f <- ruling.selected :: f !in fields.value then Err(IncompleteTuple)
    else Ok(TupleKey(Project(ruling.selected, fields.value)) in ruling.allowedKeys)
  }

  // --------------------------------------------------------------- properties

  /** Two confirmed outcomes agree on every selected field. */
  ghost predicate Alike(r: Registry, selected: seq<bytes>, a: Outcome, b: Outcome)
    requires CompleteTuple(r, a.tuple).Ok? && CompleteTuple(r, b.tuple).Ok?
    requires forall f <- selected :: f in FieldsOf(r, a) && f in FieldsOf(r, b)
  {
    forall f <- selected :: FieldsOf(r, a)[f] == FieldsOf(r, b)[f]
  }

  lemma UniverseViewable(s: ConfirmedSet, raw: seq<bytes>, outcomes: seq<Outcome>)
    requires SoundSet(s) && ResolveSelected(s.registry, raw).Ok? && forall o <- outcomes :: o in s.ordered
    ensures Viewable(s.registry, ResolveSelected(s.registry, raw).value, outcomes)
  {
    hide CompleteTuple, SelectionRefusal;
    forall o <- outcomes
      ensures CompleteTuple(s.registry, o.tuple).Ok?
      ensures forall f <- ResolveSelected(s.registry, raw).value :: f in FieldsOf(s.registry, o)
    {
      CompleteTupleHolds(s.registry, o.tuple);
    }
  }

  /** Two sides overlap exactly when an outcome of one looks like an outcome of the other. */
  lemma OverlapExactly(r: Registry, selected: seq<bytes>, allowed: seq<Outcome>, disallowed: seq<Outcome>)
    requires Viewable(r, selected, allowed) && Viewable(r, selected, disallowed)
    requires Projections(r, selected, allowed).Ok? && Projections(r, selected, disallowed).Ok?
    ensures Overlap(SortBy(Projections(r, selected, allowed).value, TupleKey), SortBy(Projections(r, selected, disallowed).value, TupleKey))
      <==> exists a <- allowed, d <- disallowed :: Alike(r, selected, a, d)
  {
    hide Projections, TupleKey, CompleteTuple, SortBy, Project, FieldsOf, Overlap;
    var ours, theirs := Projections(r, selected, allowed).value, Projections(r, selected, disallowed).value;
    SortedOverlap(ours, theirs);
    if a, d :| a in allowed && d in disallowed && Alike(r, selected, a, d) {
      AlikeOverlap(r, selected, allowed, disallowed, a, d);
    }
    if Overlap(ours, theirs) {
      OverlapAlike(r, selected, allowed, disallowed);
    }
  }

  lemma SortedOverlap(ours: seq<Tuple>, theirs: seq<Tuple>)
    ensures Overlap(SortBy(ours, TupleKey), SortBy(theirs, TupleKey)) <==> Overlap(ours, theirs)
  {
    hide TupleKey, SortBy;
    SortByCorrect(ours, TupleKey);
    SortByCorrect(theirs, TupleKey);
    assert forall t :: Meets(t, theirs) <==> Meets(t, SortBy(theirs, TupleKey));
  }

  lemma AlikeOverlap(r: Registry, selected: seq<bytes>, allowed: seq<Outcome>, disallowed: seq<Outcome>, a: Outcome, d: Outcome)
    requires Viewable(r, selected, allowed) && Viewable(r, selected, disallowed) && a in allowed && d in disallowed
    requires Alike(r, selected, a, d)
    ensures Projections(r, selected, allowed).Ok? && Projections(r, selected, disallowed).Ok?
    ensures Overlap(Projections(r, selected, allowed).value, Projections(r, selected, disallowed).value)
  {
    hide Projections, TupleKey, CompleteTuple, Project;
    ProjectionsAreViews(r, selected, allowed);
    ProjectionsAreViews(r, selected, disallowed);
    ViewsAgree(r, selected, FieldsOf(r, a), FieldsOf(r, d));
    assert Meets(View(r, selected, a), Projections(r, selected, disallowed).value);
  }

  lemma OverlapAlike(r: Registry, selected: seq<bytes>, allowed: seq<Outcome>, disallowed: seq<Outcome>)
    requires Viewable(r, selected, allowed) && Viewable(r, selected, disallowed)
    requires Projections(r, selected, allowed).Ok? && Projections(r, selected, disallowed).Ok?
    requires Overlap(Projections(r, selected, allowed).value, Projections(r, selected, disallowed).value)
    ensures exists a <- allowed, d <- disallowed :: Alike(r, selected, a, d)
  {
    hide Projections, TupleKey, CompleteTuple, Project;
    var ours, theirs := Projections(r, selected, allowed).value, Projections(r, selected, disallowed).value;
    ProjectionsAreViews(r, selected, allowed);
    ProjectionsAreViews(r, selected, disallowed);
    var t :| t in ours && Meets(t, theirs);
    var u :| u in theirs && TupleKey(u) == TupleKey(t);
    var a :| a in allowed && View(r, selected, a) == t;
    var d :| d in disallowed && View(r, selected, d) == u;
    ViewsAgree(r, selected, FieldsOf(r, a), FieldsOf(r, d));
    assert Alike(r, selected, a, d);
  }

  /** The refs of an ALLOW_OBSERVED ruling are good: known, of this universe, each once. */
  predicate GoodRefs(s: ConfirmedSet, refs: seq<Ref>)
  {
    refs != [] && PartitionOf(s, refs).Ok?
  }

  /** An ALLOW_OBSERVED ruling on good fields and good refs is accepted exactly when no selected and
      unselected outcome agree on all selected fields. */
  lemma AcceptedExactly(s: ConfirmedSet, input: RulingInput)
    requires SoundSet(s) && input.action == AllowObserved && input.custom.None? && !input.review.valid
    requires input.selected != [] && ResolveSelected(s.registry, input.selected).Ok? && GoodRefs(s, input.refs)
    ensures var selected, p := ResolveSelected(s.registry, input.selected).value, PartitionOf(s, input.refs).value;
            && Viewable(s.registry, selected, s.ordered)
            && (forall a <- p.allowed :: a in s.ordered) && (forall d <- p.disallowed :: d in s.ordered)
            && (Validate(s, input).Ok? <==> !exists a <- p.allowed, d <- p.disallowed :: Alike(s.registry, selected, a, d))
            && (Validate(s, input).Err? ==> Validate(s, input) == Err(AmbiguousScope))
  {
    hide ResolveSelected, CompleteTuple, RefRefusal, Separate, Alike, Viewable, FieldsOf;
    var selected, p := ResolveSelected(s.registry, input.selected).value, PartitionOf(s, input.refs).value;
    UniverseViewable(s, input.selected, s.ordered);
    UniverseViewable(s, input.selected, p.allowed);
    UniverseViewable(s, input.selected, p.disallowed);
    SeparatesExactly(s, input.action, selected, p);
  }

  lemma SeparatesExactly(s: ConfirmedSet, action: Action, selected: seq<bytes>, p: Partition)
    requires Viewable(s.registry, selected, p.allowed) && Viewable(s.registry, selected, p.disallowed)
    requires action != CustomExpectation
    ensures Separate(s, action, selected, p, None).Ok? <==>
      !exists a <- p.allowed, d <- p.disallowed :: Alike(s.registry, selected, a, d)
    ensures Separate(s, action, selected, p, None).Err? ==> Separate(s, action, selected, p, None).error == AmbiguousScope
  {
    hide Projections, Overlap, CompleteTuple, SortBy, Alike, FieldsOf;
    ProjectionsAreViews(s.registry, selected, p.allowed);
    ProjectionsAreViews(s.registry, selected, p.disallowed);
    OverlapExactly(s.registry, selected, p.allowed, p.disallowed);
  }

  /** An accepted ALLOW_OBSERVED ruling. */
  predicate Accepted(s: ConfirmedSet, input: RulingInput, v: Ruling)
  {
    Validate(s, input) == Ok(v) && v.Compiled? && v.action == AllowObserved
  }

  lemma ObservedCompiles(s: ConfirmedSet, input: RulingInput)
    requires input.action == AllowObserved && Validate(s, input).Ok?
    ensures Accepted(s, input, Validate(s, input).value)
  {
    hide ResolveSelected, PartitionOf, Projections, Overlap, SortBy, Keys;
  }

  /** What an accepted ruling keeps. */
  lemma AcceptedParts(s: ConfirmedSet, input: RulingInput, v: Ruling)
    requires Accepted(s, input, v)
    ensures input.action == AllowObserved && input.custom.None? && !input.review.valid && input.selected != []
    ensures ResolveSelected(s.registry, input.selected) == Ok(v.selected)
    ensures GoodRefs(s, input.refs) && PartitionOf(s, input.refs) == Ok(Partition(v.allowed, v.disallowed))
    ensures Projections(s.registry, v.selected, v.allowed).Ok?
    ensures v.allowedKeys == Keys(Projections(s.registry, v.selected, v.allowed).value)
  {
    hide ResolveSelected, PartitionOf, Projections, Overlap, SortBy, Keys;
  }

  /** The outcome shows the values of `m` in the selected fields. */
  ghost predicate Shows(r: Registry, selected: seq<bytes>, o: Outcome, m: map<bytes, Exact>)
  {
    && CompleteTuple(r, o.tuple).Ok?
    && forall f <- selected :: f in FieldsOf(r, o) && f in m && FieldsOf(r, o)[f] == m[f]
  }

  lemma KeysHold(r: Registry, selected: seq<bytes>, outcomes: seq<Outcome>, m: map<bytes, Exact>)
    requires Viewable(r, selected, outcomes) && forall f <- selected :: f in m
    ensures Projections(r, selected, outcomes).Ok?
    ensures TupleKey(Project(selected, m)) in Keys(Projections(r, selected, outcomes).value)
            <==> exists o <- outcomes :: Shows(r, selected, o, m)
  {
    hide Projections, CompleteTuple, TupleKey, Project;
    ProjectionsAreViews(r, selected, outcomes);
    forall o <- outcomes
      ensures TupleKey(View(r, selected, o)) == TupleKey(Project(selected, m)) <==> Shows(r, selected, o, m)
    {
      ViewsAgree(r, selected, FieldsOf(r, o), m);
    }
  }

  /** The compiled predicate holds of a complete tuple exactly when the tuple agrees with a selected
      outcome on every selected field. */
  lemma AllowsByFields(s: ConfirmedSet, input: RulingInput, v: Ruling, tuple: Tuple, m: map<bytes, Exact>)
    requires SoundSet(s) && Accepted(s, input, v) && CompleteTuple(s.registry, tuple) == Ok(m)
    ensures Allows(s.registry, v, tuple).Ok?
    ensures Allows(s.registry, v, tuple).value <==> exists a <- v.allowed :: Shows(s.registry, v.selected, a, m)
  {
    hide SoundSet, ResolveSelected, PartitionOf, Projections, CompleteTuple, TupleKey, Validate, Project, Viewable, Keys, Shows;
    AcceptedParts(s, input, v);
    SidesAreInUniverse(s, input.refs);
    UniverseViewable(s, input.selected, v.allowed);
    SelectedInTuple(s, input.selected, tuple);
    KeysHold(s.registry, v.selected, v.allowed, m);
  }

  lemma SidesAreInUniverse(s: ConfirmedSet, refs: seq<Ref>)
    requires PartitionOf(s, refs).Ok?
    ensures forall o <- PartitionOf(s, refs).value.allowed :: o in s.ordered
    ensures forall o <- PartitionOf(s, refs).value.disallowed :: o in s.ordered
  {
  }

  lemma SelectedInTuple(s: ConfirmedSet, raw: seq<bytes>, tuple: Tuple)
    requires SoundSet(s) && ResolveSelected(s.registry, raw).Ok? && CompleteTuple(s.registry, tuple).Ok?
    ensures forall f <- ResolveSelected(s.registry, raw).value :: f in CompleteTuple(s.registry, tuple).value
  {
    hide CompleteTuple, SelectionRefusal;
    CompleteTupleHolds(s.registry, tuple);
  }

  /** On the confirmed universe the predicate is true of precisely the selected outcomes. */
  lemma AllowsExactly(s: ConfirmedSet, input: RulingInput, v: Ruling, o: Outcome)
    requires SoundSet(s) && Accepted(s, input, v) && o in s.ordered
    ensures Allows(s.registry, v, o.tuple).Ok?
    ensures Allows(s.registry, v, o.tuple).value <==> exists r <- input.refs :: r.id == o.id
  {
    hide SoundSet, ResolveSelected, Projections, CompleteTuple, Validate, Allows, Viewable, Shows, PartitionOf, Alike;
    AcceptedParts(s, input, v);
    UniverseViewable(s, input.selected, s.ordered);
    ViewableParts(s.registry, v.selected, s.ordered);
    SidesAreInUniverse(s, input.refs);
    OnOneSide(s, input.refs, o);
    AllowsByFields(s, input, v, o.tuple, FieldsOf(s.registry, o));
    AcceptedExactly(s, input);
    forall a <- v.allowed
      ensures Shows(s.registry, v.selected, a, FieldsOf(s.registry, o)) <==> Alike(s.registry, v.selected, a, o)
    {
      ShowsIsAlike(s.registry, v.selected, a, o);
    }
    ShowsIsAlike(s.registry, v.selected, o, o);
  }

  lemma ShowsIsAlike(r: Registry, selected: seq<bytes>, a: Outcome, o: Outcome)
    requires CompleteTuple(r, a.tuple).Ok? && CompleteTuple(r, o.tuple).Ok?
    requires forall f <- selected :: f in FieldsOf(r, a) && f in FieldsOf(r, o)
    ensures Shows(r, selected, a, FieldsOf(r, o)) <==> Alike(r, selected, a, o)
    ensures Alike(r, selected, o, o)
  {
  }

  lemma OnOneSide(s: ConfirmedSet, refs: seq<Ref>, o: Outcome)
    requires PartitionOf(s, refs).Ok? && o in s.ordered
    ensures var p := PartitionOf(s, refs).value;
            && (o in p.allowed <==> exists r <- refs :: r.id == o.id) && (o in p.allowed || o in p.disallowed)
  {
    assert o.id in Ids(refs) <==> exists r <- refs :: r.id == o.id;
  }

  lemma ViewableParts(r: Registry, selected: seq<bytes>, outcomes: seq<Outcome>)
    requires Viewable(r, selected, outcomes)
    ensures forall o <- outcomes :: CompleteTuple(r, o.tuple).Ok?
    ensures forall o <- outcomes :: forall f <- selected :: f in FieldsOf(r, o)
  {
  }

  /** The allowed and the disallowed outcomes of an accepted ruling are the universe, each once. */
  lemma RulingPartitionsUniverse(s: ConfirmedSet, input: RulingInput, v: Ruling)
    requires Accepted(s, input, v)
    ensures multiset(v.allowed) + multiset(v.disallowed) == multiset(s.ordered)
    ensures forall o <- s.ordered :: o in v.allowed <==> exists r <- input.refs :: r.id == o.id
  {
    hide ResolveSelected, Projections, Validate, Side;
    AcceptedParts(s, input, v);
    SidesPartition(s.ordered, Ids(input.refs));
    forall o <- s.ordered ensures o in v.allowed <==> exists r <- input.refs :: r.id == o.id {
      OnOneSide(s, input.refs, o);
    }
  }

  /** The order in which fields and refs are given does not change an accepted ruling. */
  lemma InputOrderIrrelevant(s: ConfirmedSet, input: RulingInput, fields: seq<bytes>, refs: seq<Ref>)
    requires SoundSet(s) && input.action == AllowObserved && Validate(s, input).Ok?
    requires multiset(fields) == multiset(input.selected) && multiset(refs) == multiset(input.refs)
    ensures Validate(s, input.(selected := fields, refs := refs)) == Validate(s, input)
  {
    hide ResolveSelected, Separate, PartitionOf;
    ObservedCompiles(s, input);
    AcceptedParts(s, input, Validate(s, input).value);
    SelectionOrderIrrelevant(s.registry, input.selected, fields);
    RefsOrderIrrelevant(s, input.refs, refs);
    assert |multiset(fields)| == |fields| && |multiset(input.selected)| == |input.selected|;
  }

  lemma {:induction false} RefsAccepted(s: ConfirmedSet, refs: seq<Ref>, i: nat)
    requires i <= |refs|
    ensures RefRefusal(s, refs, i).None? <==>
      forall k :: i <= k < |refs| ==> KnownRef(s, refs[k]) && !exists r <- refs[..k] :: r.id == refs[k].id
    decreases |refs| - i
  {
    if i < |refs| {
      RefsAccepted(s, refs, i + 1);
    }
  }

  predicate KnownRef(s: ConfirmedSet, r: Ref)
  {
    r.id in s.byId && r.id != [] && r == RefOf(s, s.byId[r.id]).(id := r.id)
  }

  function RefId(r: Ref): bytes { r.id }

  /** Refs are accepted exactly when they are known and distinct. */
  lemma RefsExactly(s: ConfirmedSet, refs: seq<Ref>)
    ensures RefRefusal(s, refs, 0).None? <==> DistinctKeys(refs, RefId) && forall r <- refs :: KnownRef(s, r)
  {
    hide KnownRef;
    RefsAccepted(s, refs, 0);
    assert forall k :: 0 <= k < |refs| ==> refs[k] in refs;
    if DistinctKeys(refs, RefId) {
      forall k | 0 <= k < |refs| ensures !exists r <- refs[..k] :: r.id == refs[k].id {
        assert forall j :: 0 <= j < k ==> RefId(refs[j]) != RefId(refs[k]);
      }
    }
    if RefRefusal(s, refs, 0).None? {
      forall i, j | 0 <= i < j < |refs| ensures RefId(refs[i]) != RefId(refs[j]) {
        assert refs[i] in refs[..j];
      }
    }
  }

  lemma RefsOrderIrrelevant(s: ConfirmedSet, refs: seq<Ref>, other: seq<Ref>)
    requires multiset(refs) == multiset(other) && PartitionOf(s, refs).Ok?
    ensures PartitionOf(s, other) == PartitionOf(s, refs) && |other| == |refs|
  {
    hide KnownRef, Side;
    RefsExactly(s, refs);
    RefsExactly(s, other);
    DistinctKeysPermute(refs, other, RefId);
    assert |multiset(refs)| == |refs| && |multiset(other)| == |other|;
    assert forall r :: r in refs <==> r in multiset(refs);
    assert forall r :: r in other <==> r in multiset(other);
    assert Ids(refs) == Ids(other);
  }

  /** Selecting more fields never makes an accepted ruling ambiguous. */
  lemma MoreFieldsStayAccepted(s: ConfirmedSet, input: RulingInput, fields: seq<bytes>)
    requires SoundSet(s) && input.action == AllowObserved && Validate(s, input).Ok?
    requires ResolveSelected(s.registry, fields).Ok? && forall f <- input.selected :: f in fields
    ensures Validate(s, input.(selected := fields)).Ok?
  {
    hide ResolveSelected, Projections, CompleteTuple, SortBy, Validate, PartitionOf, Alike;
    ObservedCompiles(s, input);
    AcceptedParts(s, input, Validate(s, input).value);
    var more := input.(selected := fields);
    assert input.selected[0] in fields;
    AcceptedExactly(s, input);
    AcceptedExactly(s, more);
    SelectionExact(s.registry, input.selected);
    SelectionExact(s.registry, fields);
    var p := PartitionOf(s, input.refs).value;
    UniverseViewable(s, input.selected, s.ordered);
    UniverseViewable(s, fields, s.ordered);
    var few, many := ResolveSelected(s.registry, input.selected).value, ResolveSelected(s.registry, fields).value;
    ViewableParts(s.registry, few, s.ordered);
    ViewableParts(s.registry, many, s.ordered);
    forall a <- p.allowed, d <- p.disallowed ensures !Alike(s.registry, many, a, d) {
      if Alike(s.registry, many, a, d) {
        AlikeOnFewer(s.registry, few, many, a, d);
      }
    }
  }

  lemma AlikeOnFewer(r: Registry, few: seq<bytes>, many: seq<bytes>, a: Outcome, d: Outcome)
    requires CompleteTuple(r, a.tuple).Ok? && CompleteTuple(r, d.tuple).Ok?
    requires forall f <- many :: f in FieldsOf(r, a) && f in FieldsOf(r, d)
    requires (forall f <- few :: f in many) && Alike(r, many, a, d)
    ensures Alike(r, few, a, d)
  {
  }

  /** A custom expectation is accepted exactly when no confirmed outcome already shows it. */
  lemma CustomExactly(s: ConfirmedSet, input: RulingInput)
    requires SoundSet(s) && input.action == CustomExpectation && input.selected != []
    requires ResolveSelected(s.registry, input.selected).Ok?
    requires CustomRefusal(s, input, ResolveSelected(s.registry, input.selected).value).None?
    ensures var selected := ResolveSelected(s.registry, input.selected).value;
            && Viewable(s.registry, selected, s.ordered)
            && (Validate(s, input).Ok? <==>
                  !exists o <- s.ordered :: View(s.registry, selected, o) == input.custom.value.fields)
            && (Validate(s, input).Err? ==> Validate(s, input) == Err(CustomAlreadySeen))
  {
    hide SoundSet, ResolveSelected, Projections, CompleteTuple, SortBy, TupleKey, Project, ValidFor, Keys, Viewable;
    var selected := ResolveSelected(s.registry, input.selected).value;
    var authored := input.custom.value.fields;
    UniverseViewable(s, input.selected, s.ordered);
    ProjectionsAreViews(s.registry, selected, s.ordered);
    NothingProjects(s.registry, selected);
    var theirs := Projections(s.registry, selected, s.ordered).value;
    SortByCorrect(theirs, TupleKey);
    assert Overlap([authored], SortBy(theirs, TupleKey)) <==> Meets(authored, SortBy(theirs, TupleKey)) by {
      assert authored in [authored];
    }
    if d :| d in SortBy(theirs, TupleKey) && TupleKey(d) == TupleKey(authored) {
      TupleKeyInjective(d, authored);
    }
  }

  lemma NothingProjects(r: Registry, selected: seq<bytes>)
    ensures Projections(r, selected, []) == Ok([])
  {
  }
}
