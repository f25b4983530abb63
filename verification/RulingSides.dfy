/** What a compiled ruling holds on its two sides, and what a custom ruling allows. */
module RulingSides {
  import opened Bytes
  import opened Sorting
  import opened Domain
  import opened PortableValue
  import opened ChoiceKeys
  import opened FieldRegistry
  import opened Ruling

  /** The tuple shows these fields, in this order. */
  ghost predicate ShowsFields(t: Tuple, selected: seq<bytes>, fields: map<bytes, Exact>)
  {
    |t| == |selected| && forall k :: 0 <= k < |t| ==> t[k].id == selected[k] && selected[k] in fields && t[k].value == fields[selected[k]]
  }

  ghost predicate ShownBy(r: Registry, selected: seq<bytes>, t: Tuple, o: Outcome)
  {
    CompleteTuple(r, o.tuple).Ok? && ShowsFields(t, selected, CompleteTuple(r, o.tuple).value)
  }

  /** The tuples are exactly what the selected fields show of the outcomes, each once, in key order. */
  ghost predicate HoldsViews(r: Registry, selected: seq<bytes>, outcomes: seq<Outcome>, tuples: seq<Tuple>)
  {
    StrictlySorted(tuples, TupleKey) && forall t :: t in tuples <==> exists o <- outcomes :: ShownBy(r, selected, t, o)
  }

  lemma OneProjection(t: Tuple, selected: seq<bytes>, fields: map<bytes, Exact>)
    requires forall f <- selected :: f in fields
    ensures ShowsFields(t, selected, fields) <==> t == Project(selected, fields)
  {
  }

  lemma SortedViews(r: Registry, selected: seq<bytes>, outcomes: seq<Outcome>)
    requires Viewable(r, selected, outcomes) && Projections(r, selected, outcomes).Ok?
    ensures HoldsViews(r, selected, outcomes, SortBy(Projections(r, selected, outcomes).value, TupleKey))
  {
    hide Projections, CompleteTuple, TupleKey, SortBy, Project, ShowsFields;
    var tuples := Projections(r, selected, outcomes).value;
    ProjectionsAreViews(r, selected, outcomes);
    SortByPermutation(tuples, tuples, TupleKey);
    SortByCorrect(tuples, TupleKey);
    forall t, o | o in outcomes ensures ShownBy(r, selected, t, o) <==> View(r, selected, o) == t {
      OneProjection(t, selected, FieldsOf(r, o));
    }
  }

  /** What an accepted custom ruling keeps. */
  lemma CustomParts(s: ConfirmedSet, input: RulingInput, v: Ruling)
    requires Validate(s, input) == Ok(v) && input.action == CustomExpectation
    ensures v.Compiled? && v.action == CustomExpectation && input.custom.Some?
    ensures input.selected != [] && ResolveSelected(s.registry, input.selected) == Ok(v.selected)
    ensures ValidFor(s, input.custom.value, v.selected)
    ensures v.allowed == [] && v.disallowed == s.ordered
    ensures v.allowedTuples == [input.custom.value.fields] && v.allowedKeys == Keys([input.custom.value.fields])
    ensures Projections(s.registry, v.selected, s.ordered).Ok?
    ensures v.disallowedTuples == SortBy(Projections(s.registry, v.selected, s.ordered).value, TupleKey)
    ensures !Overlap(v.allowedTuples, v.disallowedTuples) && v.pairs == |v.disallowedTuples|
  {
    hide ResolveSelected, Projections, Overlap, SortBy, Keys, ValidFor;
    NothingProjects(s.registry, ResolveSelected(s.registry, input.selected).value);
  }

  /** The compiled tuples of both actions: on the observed sides exactly what the selected fields show of
      the outcomes, each once; for a custom expectation the authored tuple alone. */
  lemma SidesHold(s: ConfirmedSet, input: RulingInput, v: Ruling)
    requires SoundSet(s) && Validate(s, input) == Ok(v) && v.Compiled?
    ensures HoldsViews(s.registry, v.selected, v.disallowed, v.disallowedTuples)
    ensures input.action == AllowObserved ==> HoldsViews(s.registry, v.selected, v.allowed, v.allowedTuples)
    ensures input.action == CustomExpectation ==>
      input.custom.Some? && v.allowedTuples == [input.custom.value.fields] && v.allowed == [] && v.disallowed == s.ordered
    ensures input.action == AllowObserved || input.action == CustomExpectation
    ensures v.pairs == |v.allowedTuples| * |v.disallowedTuples|
  {
    hide SoundSet, ResolveSelected, CompleteTuple, HoldsViews, Viewable, PartitionOf, Projections, SortBy, TupleKey, Overlap, Keys, ValidFor;
    if input.action == AllowObserved {
      ObservedSides(s, input, v);
    } else {
      CustomParts(s, input, v);
      UniverseViewable(s, input.selected, s.ordered);
      SortedViews(s.registry, v.selected, s.ordered);
    }
  }

  lemma ObservedSides(s: ConfirmedSet, input: RulingInput, v: Ruling)
    requires SoundSet(s) && Validate(s, input) == Ok(v) && input.action == AllowObserved
    ensures v.Compiled? && HoldsViews(s.registry, v.selected, v.disallowed, v.disallowedTuples)
    ensures HoldsViews(s.registry, v.selected, v.allowed, v.allowedTuples) && v.pairs == |v.allowedTuples| * |v.disallowedTuples|
  {
    hide SoundSet, ResolveSelected, CompleteTuple, HoldsViews, Viewable, PartitionOf, Projections, SortBy, TupleKey, Validate, Keys;
    ObservedCompiles(s, input);
    AcceptedParts(s, input, v);
    ObservedTuples(s, input, v);
    SidesAreInUniverse(s, input.refs);
    UniverseViewable(s, input.selected, v.allowed);
    UniverseViewable(s, input.selected, v.disallowed);
    SortedViews(s.registry, v.selected, v.allowed);
    SortedViews(s.registry, v.selected, v.disallowed);
  }

  lemma ObservedTuples(s: ConfirmedSet, input: RulingInput, v: Ruling)
    requires Accepted(s, input, v)
    ensures Projections(s.registry, v.selected, v.allowed).Ok? && Projections(s.registry, v.selected, v.disallowed).Ok?
    ensures v.allowedTuples == SortBy(Projections(s.registry, v.selected, v.allowed).value, TupleKey)
    ensures v.disallowedTuples == SortBy(Projections(s.registry, v.selected, v.disallowed).value, TupleKey)
    ensures v.pairs == |v.allowedTuples| * |v.disallowedTuples|
  {
    hide ResolveSelected, PartitionOf, Projections, Overlap, SortBy, Keys;
  }

  /** The predicate of an accepted custom ruling holds of a complete tuple exactly when the tuple has the
      authored value in every authored field. */
  lemma CustomAllows(s: ConfirmedSet, input: RulingInput, v: Ruling, tuple: Tuple, m: map<bytes, Exact>)
    requires SoundSet(s) && Validate(s, input) == Ok(v) && input.action == CustomExpectation
    requires CompleteTuple(s.registry, tuple) == Ok(m)
    ensures input.custom.Some? && v.Compiled? && Allows(s.registry, v, tuple).Ok?
    ensures Allows(s.registry, v, tuple).value <==> forall f <- input.custom.value.fields :: f.id in m && m[f.id] == f.value
  {
    hide SoundSet, ResolveSelected, CompleteTuple, TupleKey, Validate, Project, Projections, SortBy, Overlap, Allows, ShowsFields, Keys,
      ValidFor;
    CustomParts(s, input, v);
    SelectedInTuple(s, input.selected, tuple);
    AllowsIs(s.registry, v, tuple, m);
    var authored := input.custom.value.fields;
    TupleKeyInjective(Project(v.selected, m), authored);
    OneKey(authored);
    OneProjection(authored, v.selected, m);
    AuthoredFields(s, input.custom.value, v.selected, m);
  }

  lemma AllowsIs(r: Registry, v: Ruling, tuple: Tuple, m: map<bytes, Exact>)
    requires v.Compiled? && CompleteTuple(r, tuple) == Ok(m) && forall f <- v.selected :: f in m
    ensures Allows(r, v, tuple) == Ok(TupleKey(Project(v.selected, m)) in v.allowedKeys)
  {
    hide CompleteTuple, TupleKey, Project;
  }

  lemma OneKey(t: Tuple)
    ensures Keys([t]) == {TupleKey(t)}
  {
    hide TupleKey;
  }

  /** An expectation is bound to its fields, in the order of the selection. */
  lemma AuthoredFields(s: ConfirmedSet, c: SelectedTuple, selected: seq<bytes>, m: map<bytes, Exact>)
    requires ValidFor(s, c, selected) && forall f <- selected :: f in m
    ensures ShowsFields(c.fields, selected, m) <==> forall f <- c.fields :: f.id in m && m[f.id] == f.value
  {
    hide ValueRefusal, PortableRefusal, TupleKey, SelectedKey;
    var t := c.fields;
    assert forall k :: 0 <= k < |t| ==> t[k].id == FieldIds(t)[k] == selected[k] && t[k] in t;
  }

  /** So it holds of no confirmed outcome. */
  lemma CustomAllowsNoOutcome(s: ConfirmedSet, input: RulingInput, v: Ruling, o: Outcome)
    requires SoundSet(s) && Validate(s, input) == Ok(v) && input.action == CustomExpectation && o in s.ordered
    ensures v.Compiled? && Allows(s.registry, v, o.tuple) == Ok(false)
  {
    hide ResolveSelected, CompleteTuple, TupleKey, Validate, Project, Projections, SortBy, Keys, Viewable;
    CustomParts(s, input, v);
    var authored, m := input.custom.value.fields, FieldsOf(s.registry, o);
    CustomAllows(s, input, v, o.tuple, m);
    SelectedInTuple(s, input.selected, o.tuple);
    AuthoredFields(s, input.custom.value, v.selected, m);
    UniverseViewable(s, input.selected, s.ordered);
    SortedViews(s.registry, v.selected, s.ordered);
    NotAmong(authored, v.disallowedTuples);
    assert !ShownBy(s.registry, v.selected, authored, o);
  }

  lemma NotAmong(t: Tuple, others: seq<Tuple>)
    requires !Overlap([t], others)
    ensures t !in others
  {
    hide TupleKey;
    assert t in [t] && !Meets(t, others);
  }
}
