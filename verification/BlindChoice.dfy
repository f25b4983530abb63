/** From the aliases a person chooses to the predicate that is compiled: the support behind an alias
    plays no part in it. */
module BlindChoice {
  import opened Bytes
  import opened Sorting
  import opened Domain
  import opened PortableValue
  import opened ChoiceKeys
  import opened FieldRegistry
  import opened Ruling
  import opened Blind

  /** A universe, its presented groups, and chosen aliases with the refs they resolve to. */
  ghost predicate Resolved(s: ConfirmedSet, choicepoint: Digest, h: Hashes, groups: seq<Group>, aliases: map<bytes, seq<Ref>>,
                           chosen: seq<bytes>, refs: seq<Ref>)
  {
    && SoundSet(s) && Presents(s, choicepoint, h, groups) && Aliased(groups, aliases)
    && GoodAliases(aliases, chosen) && StrictlySorted(refs, RefKey) && Collected(aliases, chosen, refs)
  }

  /** Every resolved ref is the ref of an outcome behind a chosen alias. */
  lemma RefIsOutcome(s: ConfirmedSet, choicepoint: Digest, h: Hashes, groups: seq<Group>, aliases: map<bytes, seq<Ref>>,
                     chosen: seq<bytes>, refs: seq<Ref>, r: Ref) returns (o: Outcome)
    requires Resolved(s, choicepoint, h, groups, aliases, chosen, refs) && r in refs
    ensures o in s.ordered && RefOf(s, o) == r && KnownRef(s, r)
  {
    hide Presents, Aliased;
    var a :| a in chosen && a in aliases && r in aliases[a];
    o := BehindAlias(s, choicepoint, h, groups, aliases, a, r);
  }

  lemma {:induction false} IdsCounted(refs: seq<Ref>)
    requires DistinctKeys(refs, RefId)
    ensures |Ids(refs)| == |refs|
  {
    if refs != [] {
      var last := |refs| - 1;
      IdsCounted(refs[..last]);
      assert refs == refs[..last] + [refs[last]];
      assert Ids(refs) == Ids(refs[..last]) + {refs[last].id};
      assert forall i :: 0 <= i < last ==> RefId(refs[i]) != RefId(refs[last]);
    }
  }

  lemma {:induction false} FewIds(ids: set<bytes>, outcomes: seq<Outcome>)
    requires forall id <- ids :: exists o <- outcomes :: o.id == id
    ensures |ids| <= |outcomes|
  {
    if outcomes == [] {
      assert ids == {};
    } else {
      var last := |outcomes| - 1;
      assert outcomes == outcomes[..last] + [outcomes[last]];
      FewIds(ids - {outcomes[last].id}, outcomes[..last]);
      assert |ids| <= |ids - {outcomes[last].id}| + 1;
    }
  }

  /** Resolved refs are always accepted, and there are some exactly when an alias was chosen. */
  lemma ResolvedIsAccepted(s: ConfirmedSet, choicepoint: Digest, h: Hashes, groups: seq<Group>, aliases: map<bytes, seq<Ref>>,
                           chosen: seq<bytes>, refs: seq<Ref>)
    requires Resolved(s, choicepoint, h, groups, aliases, chosen, refs)
    ensures PartitionOf(s, refs).Ok? && (refs != [] <==> chosen != [])
  {
    hide SoundSet, Presents, Collected, Aliased, KnownRef;
    StrictIsDistinct(refs, RefKey);
    assert DistinctKeys(refs, RefId) by { SameKeys(refs); }
    forall r <- refs ensures KnownRef(s, r) && exists o <- s.ordered :: o.id == r.id {
      var o := RefIsOutcome(s, choicepoint, h, groups, aliases, chosen, refs, r);
    }
    RefsExactly(s, refs);
    IdsCounted(refs);
    FewIds(Ids(refs), s.ordered);
    SomeRefs(groups, aliases, chosen, refs);
  }

  lemma SameKeys(refs: seq<Ref>)
    ensures DistinctKeys(refs, RefKey) <==> DistinctKeys(refs, RefId)
  {
    assert forall r :: RefKey(r) == RefId(r);
  }

  lemma SomeRefs(groups: seq<Group>, aliases: map<bytes, seq<Ref>>, chosen: seq<bytes>, refs: seq<Ref>)
    requires Aliased(groups, aliases) && GoodAliases(aliases, chosen) && Collected(aliases, chosen, refs)
    ensures refs != [] <==> chosen != []
  {
    if chosen != [] {
      var a := chosen[0];
      assert a in chosen && a in aliases;
      var g :| g in groups && g.alias == a;
      assert g.refs[0] in aliases[a];
      assert HasId(refs, g.refs[0].id);
    }
    if refs != [] {
      assert refs[0] in refs;
    }
  }

  /** The outcomes of the chosen fingerprints are on the allowed side, all others on the other. */
  lemma SideOfAlias(s: ConfirmedSet, choicepoint: Digest, h: Hashes, groups: seq<Group>, aliases: map<bytes, seq<Ref>>,
                    chosen: seq<bytes>, refs: seq<Ref>, o: Outcome)
    requires Resolved(s, choicepoint, h, groups, aliases, chosen, refs) && PartitionOf(s, refs).Ok? && o in s.ordered
    ensures var p := PartitionOf(s, refs).value;
            && (o in p.allowed <==> h.alias(choicepoint, o.fingerprint) in chosen)
            && (o in p.disallowed <==> h.alias(choicepoint, o.fingerprint) !in chosen)
    ensures (exists r <- refs :: r.id == o.id) <==> h.alias(choicepoint, o.fingerprint) in chosen
  {
    hide SoundSet, Presents, Aliased, Collected;
    ResolvesExactly(s, choicepoint, h, groups, aliases, chosen, refs, o);
    if r :| r in refs && r.id == o.id {
      var p := RefIsOutcome(s, choicepoint, h, groups, aliases, chosen, refs, r);
      SameId(s, o, p);
    }
    assert o.id in Ids(refs) <==> exists r <- refs :: r.id == o.id;
  }

  /** What an outcome shows is found again in the other universe, under the same alias. */
  lemma Counterpart(s: ConfirmedSet, t: ConfirmedSet, o: Outcome) returns (p: Outcome)
    requires SameMeaning(s, t) && o in s.ordered
    ensures p in t.ordered && p.fingerprint == o.fingerprint && p.tuple == o.tuple
  {
    assert o.fingerprint in Prints(t.ordered);
    p :| p in t.ordered && p.fingerprint == o.fingerprint;
  }

  /** An ALLOW_OBSERVED input with these refs. */
  function Ruled(input: RulingInput, refs: seq<Ref>): RulingInput
  {
    input.(refs := refs)
  }

  lemma AcceptedThere(s: ConfirmedSet, t: ConfirmedSet, choicepoint: Digest, h: Hashes, groups: seq<Group>, others: seq<Group>,
                      aliases: map<bytes, seq<Ref>>, more: map<bytes, seq<Ref>>, chosen: seq<bytes>, refs: seq<Ref>, those: seq<Ref>,
                      input: RulingInput)
    requires SameMeaning(s, t) && s.registry == t.registry && input.action == AllowObserved
    requires Resolved(s, choicepoint, h, groups, aliases, chosen, refs)
    requires Resolved(t, choicepoint, h, others, more, chosen, those)
    requires Validate(s, Ruled(input, refs)).Ok?
    ensures Validate(t, Ruled(input, those)).Ok?
  {
    hide Resolved, SoundSet, Validate, Viewable, Alike, PartitionOf, ResolveSelected, SameMeaning;
    var here, there := Ruled(input, refs), Ruled(input, those);
    ObservedCompiles(s, here);
    AcceptedParts(s, here, Validate(s, here).value);
    ResolvedIsAccepted(s, choicepoint, h, groups, aliases, chosen, refs);
    ResolvedIsAccepted(t, choicepoint, h, others, more, chosen, those);
    ResolvedIsSound(s, choicepoint, h, groups, aliases, chosen, refs);
    ResolvedIsSound(t, choicepoint, h, others, more, chosen, those);
    AcceptedExactly(s, here);
    AcceptedExactly(t, there);
    var selected := ResolveSelected(s.registry, input.selected).value;
    var p, q := PartitionOf(s, refs).value, PartitionOf(t, those).value;
    ViewableParts(s.registry, selected, s.ordered);
    ViewableParts(s.registry, selected, t.ordered);
    if b, e :| b in q.allowed && e in q.disallowed && Alike(t.registry, selected, b, e) {
      MeaningIsSymmetric(s, t);
      var a := Counterpart(t, s, b);
      var d := Counterpart(t, s, e);
      SideOfAlias(t, choicepoint, h, others, more, chosen, those, b);
      SideOfAlias(t, choicepoint, h, others, more, chosen, those, e);
      SideOfAlias(s, choicepoint, h, groups, aliases, chosen, refs, a);
      SideOfAlias(s, choicepoint, h, groups, aliases, chosen, refs, d);
      AlikeByTuples(s.registry, selected, a, d, b, e);
    }
  }

  lemma ResolvedIsSound(s: ConfirmedSet, choicepoint: Digest, h: Hashes, groups: seq<Group>, aliases: map<bytes, seq<Ref>>,
                        chosen: seq<bytes>, refs: seq<Ref>)
    requires Resolved(s, choicepoint, h, groups, aliases, chosen, refs)
    ensures SoundSet(s)
  {
  }

  lemma AlikeByTuples(r: Registry, selected: seq<bytes>, a: Outcome, d: Outcome, b: Outcome, e: Outcome)
    requires a.tuple == b.tuple && d.tuple == e.tuple && CompleteTuple(r, a.tuple).Ok? && CompleteTuple(r, d.tuple).Ok?
    requires forall f <- selected :: f in FieldsOf(r, a) && f in FieldsOf(r, d)
    ensures CompleteTuple(r, b.tuple).Ok? && CompleteTuple(r, e.tuple).Ok?
    ensures forall f <- selected :: f in FieldsOf(r, b) && f in FieldsOf(r, e)
    ensures Alike(r, selected, a, d) <==> Alike(r, selected, b, e)
  {
    hide CompleteTuple;
  }

  /** The same choice of aliases is accepted in both universes or in neither, whatever supports them. */
  lemma SameAcceptance(s: ConfirmedSet, t: ConfirmedSet, choicepoint: Digest, h: Hashes, groups: seq<Group>, others: seq<Group>,
                       aliases: map<bytes, seq<Ref>>, more: map<bytes, seq<Ref>>, chosen: seq<bytes>, refs: seq<Ref>, those: seq<Ref>,
                       input: RulingInput)
    requires SameMeaning(s, t) && s.registry == t.registry && input.action == AllowObserved
    requires Resolved(s, choicepoint, h, groups, aliases, chosen, refs)
    requires Resolved(t, choicepoint, h, others, more, chosen, those)
    ensures Validate(s, Ruled(input, refs)).Ok? <==> Validate(t, Ruled(input, those)).Ok?
  {
    hide Resolved, Validate, SameMeaning;
    MeaningIsSymmetric(s, t);
    if Validate(s, Ruled(input, refs)).Ok? {
      AcceptedThere(s, t, choicepoint, h, groups, others, aliases, more, chosen, refs, those, input);
    }
    if Validate(t, Ruled(input, those)).Ok? {
      AcceptedThere(t, s, choicepoint, h, others, groups, more, aliases, chosen, those, refs, input);
    }
  }

  /** The compiled predicate holds of what a card shows exactly when the card's alias was chosen. */
  lemma AllowsChosenCards(s: ConfirmedSet, choicepoint: Digest, h: Hashes, groups: seq<Group>, aliases: map<bytes, seq<Ref>>,
                          chosen: seq<bytes>, refs: seq<Ref>, input: RulingInput, v: Ruling, g: Group)
    requires Resolved(s, choicepoint, h, groups, aliases, chosen, refs) && Accepted(s, Ruled(input, refs), v) && g in groups
    ensures Allows(s.registry, v, g.tuple) == Ok(g.alias in chosen)
  {
    hide SoundSet, Presents, Aliased, Collected, Accepted, Allows;
    var o := MemberOf(s, choicepoint, h, groups, g);
    AcceptedRefs(s, Ruled(input, refs), v);
    SideOfAlias(s, choicepoint, h, groups, aliases, chosen, refs, o);
    AllowsExactly(s, Ruled(input, refs), v, o);
  }

  lemma AcceptedRefs(s: ConfirmedSet, input: RulingInput, v: Ruling)
    requires Accepted(s, input, v)
    ensures v.Compiled? && PartitionOf(s, input.refs) == Ok(Partition(v.allowed, v.disallowed))
    ensures ResolveSelected(s.registry, input.selected) == Ok(v.selected)
  {
    hide Validate, PartitionOf, ResolveSelected;
    AcceptedParts(s, input, v);
  }

  lemma MemberOf(s: ConfirmedSet, choicepoint: Digest, h: Hashes, groups: seq<Group>, g: Group) returns (o: Outcome)
    requires Presents(s, choicepoint, h, groups) && g in groups
    ensures o in s.ordered && o.tuple == g.tuple && h.alias(choicepoint, o.fingerprint) == g.alias
  {
    hide FirstTuple, RefsWith;
    FirstTupleIsMember(s.ordered, g.fingerprint);
    o :| o in s.ordered && o.fingerprint == g.fingerprint && o.tuple == FirstTuple(s.ordered, g.fingerprint);
  }

  lemma ShownThere(s: ConfirmedSet, t: ConfirmedSet, choicepoint: Digest, h: Hashes, groups: seq<Group>, others: seq<Group>,
                   aliases: map<bytes, seq<Ref>>, more: map<bytes, seq<Ref>>, chosen: seq<bytes>, refs: seq<Ref>, those: seq<Ref>,
                   selected: seq<bytes>, m: map<bytes, Exact>, a: Outcome) returns (b: Outcome)
    requires SameMeaning(s, t) && s.registry == t.registry && PartitionOf(s, refs).Ok? && PartitionOf(t, those).Ok?
    requires Resolved(s, choicepoint, h, groups, aliases, chosen, refs)
    requires Resolved(t, choicepoint, h, others, more, chosen, those)
    requires a in PartitionOf(s, refs).value.allowed && Shows(s.registry, selected, a, m)
    ensures b in PartitionOf(t, those).value.allowed && Shows(t.registry, selected, b, m)
  {
    hide Resolved, SameMeaning, CompleteTuple, PartitionOf;
    SidesAreInUniverse(s, refs);
    b := Counterpart(s, t, a);
    SideOfAlias(s, choicepoint, h, groups, aliases, chosen, refs, a);
    SideOfAlias(t, choicepoint, h, others, more, chosen, those, b);
  }

  /** And the two compiled predicates are one: they agree on every tuple whatever. */
  lemma SamePredicate(s: ConfirmedSet, t: ConfirmedSet, choicepoint: Digest, h: Hashes, groups: seq<Group>, others: seq<Group>,
                      aliases: map<bytes, seq<Ref>>, more: map<bytes, seq<Ref>>, chosen: seq<bytes>, refs: seq<Ref>, those: seq<Ref>,
                      input: RulingInput, v: Ruling, w: Ruling, tuple: Tuple)
    requires SameMeaning(s, t) && s.registry == t.registry
    requires Resolved(s, choicepoint, h, groups, aliases, chosen, refs)
    requires Resolved(t, choicepoint, h, others, more, chosen, those)
    requires Accepted(s, Ruled(input, refs), v) && Accepted(t, Ruled(input, those), w)
    ensures Allows(s.registry, v, tuple) == Allows(t.registry, w, tuple)
  {
    hide Resolved, SameMeaning, Accepted, Shows, CompleteTuple, ResolveSelected, PartitionOf, TupleKey, Project;
    AcceptedRefs(s, Ruled(input, refs), v);
    AcceptedRefs(t, Ruled(input, those), w);
    var fields := CompleteTuple(s.registry, tuple);
    if fields.Ok? {
      ResolvedIsSound(s, choicepoint, h, groups, aliases, chosen, refs);
      ResolvedIsSound(t, choicepoint, h, others, more, chosen, those);
      AllowsByFields(s, Ruled(input, refs), v, tuple, fields.value);
      AllowsByFields(t, Ruled(input, those), w, tuple, fields.value);
      if a :| a in v.allowed && Shows(s.registry, v.selected, a, fields.value) {
        var b := ShownThere(s, t, choicepoint, h, groups, others, aliases, more, chosen, refs, those, v.selected, fields.value, a);
      }
      if b :| b in w.allowed && Shows(t.registry, w.selected, b, fields.value) {
        MeaningIsSymmetric(s, t);
        var a := ShownThere(t, s, choicepoint, h, others, groups, more, aliases, chosen, those, refs, w.selected, fields.value, b);
      }
    }
  }
}
