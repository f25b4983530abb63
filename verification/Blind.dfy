/** The blind presentation of confirmed outcomes: groups, cards, aliases (internal/choice/blind.go). */
module Blind {
  import opened Bytes
  import opened Sorting
  import opened Domain
  import opened PortableValue
  import opened ChoiceKeys
  import opened FieldRegistry
  import opened Ruling

  /** The two digests the presentation uses, as texts of one length. */
  datatype Hashes = Hashes(alias: (Digest, Digest) -> bytes, order: Digest -> bytes)

  ghost predicate FixedLength(h: Hashes)
  {
    forall f :: |h.order(f)| == 71
  }

  datatype Group = Group(fingerprint: Digest, tuple: Tuple, refs: seq<Ref>, alias: bytes, orderKey: bytes)

  /** Order digest first, fingerprint on ties. */
  function GroupKey(g: Group): bytes
  {
    g.orderKey + g.fingerprint
  }

  /** With digests of one length this is the lexicographic order of the pair. */
  lemma GroupKeyOrder(a: Group, b: Group)
    requires |a.orderKey| == |b.orderKey|
    ensures Less(GroupKey(a), GroupKey(b)) <==>
      Less(a.orderKey, b.orderKey) || (a.orderKey == b.orderKey && Less(a.fingerprint, b.fingerprint))
  {
    PairOrder(a.orderKey, a.fingerprint, b.orderKey, b.fingerprint);
  }

  lemma {:induction false} PairOrder(o: bytes, f: bytes, p: bytes, g: bytes)
    requires |o| == |p|
    ensures Less(o + f, p + g) <==> Less(o, p) || (o == p && Less(f, g))
  {
    if o == [] {
      assert o + f == f && p + g == g;
    } else {
      assert (o + f)[1..] == o[1..] + f && (p + g)[1..] == p[1..] + g;
      assert o == [o[0]] + o[1..] && p == [p[0]] + p[1..];
      PairOrder(o[1..], f, p[1..], g);
    }
  }

  // ---------------------------------------------------------------- grouping

  function Prints(outcomes: seq<Outcome>): set<Digest>
  {
    set o <- outcomes :: o.fingerprint
  }

  /** The tuple of the first outcome with this fingerprint. */
  function FirstTuple(outcomes: seq<Outcome>, f: Digest): Tuple
    requires f in Prints(outcomes)
  {
    if outcomes[0].fingerprint == f then outcomes[0].tuple
    else
      assert f in Prints(outcomes[1..]);
      FirstTuple(outcomes[1..], f)
  }

  /** The refs of the outcomes with this fingerprint, in universe order. */
  function RefsWith(s: ConfirmedSet, outcomes: seq<Outcome>, f: Digest): (r: seq<Ref>)
  {
    if outcomes == [] then []
    else
      var last := |outcomes| - 1;
      RefsWith(s, outcomes[..last], f) + if outcomes[last].fingerprint == f then [RefOf(s, outcomes[last])] else []
  }

  /** One fingerprint, one tuple. */
  predicate Consistent(outcomes: seq<Outcome>)
  {
    forall a <- outcomes, b <- outcomes :: a.fingerprint == b.fingerprint ==> a.tuple == b.tuple
  }

  /** The group of a fingerprint. */
  function GroupOf(s: ConfirmedSet, outcomes: seq<Outcome>, choicepoint: Digest, h: Hashes, f: Digest): Group
    requires f in Prints(outcomes)
  {
    Group(f, FirstTuple(outcomes, f), RefsWith(s, outcomes, f), h.alias(choicepoint, f), h.order(f))
  }

  /** The map of the grouping loop. */
  ghost predicate Grouped(s: ConfirmedSet, outcomes: seq<Outcome>, choicepoint: Digest, h: Hashes, m: map<Digest, Group>)
  {
    m.Keys == Prints(outcomes) && forall f <- m :: m[f] == GroupOf(s, outcomes, choicepoint, h, f)
  }

  /** The presented groups: one per fingerprint, in presentation order. */
  ghost predicate Presents(s: ConfirmedSet, choicepoint: Digest, h: Hashes, groups: seq<Group>)
  {
    && StrictlySorted(groups, GroupKey)
    && (forall g <- groups :: g.fingerprint in Prints(s.ordered)
          && g == GroupOf(s, s.ordered, choicepoint, h, g.fingerprint))
    && (forall f <- Prints(s.ordered) :: GroupOf(s, s.ordered, choicepoint, h, f) in groups)
  }

  lemma FirstTupleSnoc(outcomes: seq<Outcome>, x: Outcome, f: Digest)
    requires f in Prints(outcomes + [x])
    ensures FirstTuple(outcomes + [x], f) == if f in Prints(outcomes) then FirstTuple(outcomes, f) else x.tuple
  {
    if outcomes != [] {
      assert (outcomes + [x])[1..] == outcomes[1..] + [x];
      assert outcomes == [outcomes[0]] + outcomes[1..];
      if outcomes[0].fingerprint != f {
        FirstTupleSnoc(outcomes[1..], x, f);
      }
    }
  }

  lemma {:induction false} FirstTupleIsMember(outcomes: seq<Outcome>, f: Digest)
    requires f in Prints(outcomes)
    ensures exists o <- outcomes :: o.fingerprint == f && o.tuple == FirstTuple(outcomes, f)
  {
    assert outcomes == [outcomes[0]] + outcomes[1..];
    if outcomes[0].fingerprint != f {
      FirstTupleIsMember(outcomes[1..], f);
    }
  }

  /** One more outcome in the map. */
  lemma GroupedNext(s: ConfirmedSet, outcomes: seq<Outcome>, x: Outcome, choicepoint: Digest, h: Hashes, m: map<Digest, Group>)
    requires Grouped(s, outcomes, choicepoint, h, m)
    ensures var f := x.fingerprint;
            var g := if f in m then m[f].(refs := m[f].refs + [RefOf(s, x)])
                     else Group(f, x.tuple, [RefOf(s, x)], h.alias(choicepoint, f), h.order(f));
            Grouped(s, outcomes + [x], choicepoint, h, m[f := g])
  {
    hide FirstTuple, RefsWith;
    var all := outcomes + [x];
    assert Prints(all) == Prints(outcomes) + {x.fingerprint};
    forall f <- Prints(all)
      ensures FirstTuple(all, f) == (if f in Prints(outcomes) then FirstTuple(outcomes, f) else x.tuple)
      ensures RefsWith(s, all, f) == RefsWith(s, outcomes, f) + (if x.fingerprint == f then [RefOf(s, x)] else [])
      ensures f !in Prints(outcomes) ==> RefsWith(s, outcomes, f) == []
    {
      FirstTupleSnoc(outcomes, x, f);
      RefsSnoc(s, outcomes, x, f);
    }
  }

  lemma RefsSnoc(s: ConfirmedSet, outcomes: seq<Outcome>, x: Outcome, f: Digest)
    ensures RefsWith(s, outcomes + [x], f) == RefsWith(s, outcomes, f) + (if x.fingerprint == f then [RefOf(s, x)] else [])
    ensures f !in Prints(outcomes) ==> RefsWith(s, outcomes, f) == []
  {
    assert (outcomes + [x])[..|outcomes|] == outcomes;
    if f !in Prints(outcomes) {
      NoRefs(s, outcomes, f);
    }
  }

  lemma {:induction false} NoRefs(s: ConfirmedSet, outcomes: seq<Outcome>, f: Digest)
    requires f !in Prints(outcomes)
    ensures RefsWith(s, outcomes, f) == []
  {
    if outcomes != [] {
      var last := |outcomes| - 1;
      assert outcomes[last] in outcomes;
      NoRefs(s, outcomes[..last], f);
    }
  }

  /** `buildBlindGroups`: refuses exactly when one fingerprint shows two tuples. */
  method BuildBlindGroups(s: ConfirmedSet, choicepoint: Digest, h: Hashes) returns (groups: Option<seq<Group>>)
    requires FixedLength(h)
    ensures groups.Some? <==> Consistent(s.ordered)
    ensures groups.Some? ==> Presents(s, choicepoint, h, groups.value)
  {
    hide FirstTuple, RefsWith, TupleKey, SortBy;
    var m: map<Digest, Group> := map[];
    for i := 0 to |s.ordered|
      invariant Grouped(s, s.ordered[..i], choicepoint, h, m) && Consistent(s.ordered[..i])
    {
      var o := s.ordered[i];
      assert s.ordered[..i + 1] == s.ordered[..i] + [o];
      GroupedNext(s, s.ordered[..i], o, choicepoint, h, m);
      if o.fingerprint in m {
        FirstTupleIsMember(s.ordered[..i], o.fingerprint);
        TupleKeyInjective(m[o.fingerprint].tuple, o.tuple);
        var known := TupleIdentityKey(m[o.fingerprint].tuple);
        var shown := TupleIdentityKey(o.tuple);
        if known != shown {
          Inconsistent(s.ordered, i);
          return None;
        }
        m := m[o.fingerprint := m[o.fingerprint].(refs := m[o.fingerprint].refs + [RefOf(s, o)])];
      } else {
        m := m[o.fingerprint := Group(o.fingerprint, o.tuple, [RefOf(s, o)], h.alias(choicepoint, o.fingerprint), h.order(o.fingerprint))];
      }
    }
    assert s.ordered[..|s.ordered|] == s.ordered;
    var list := MapValues(m);
    var sorted := SortBy(list, GroupKey);
    PresentedInOrder(s, choicepoint, h, m, list);
    return Some(sorted);
  }

  lemma Inconsistent(outcomes: seq<Outcome>, i: nat)
    requires i < |outcomes| && exists o <- outcomes[..i] :: o.fingerprint == outcomes[i].fingerprint && o.tuple != outcomes[i].tuple
    ensures !Consistent(outcomes)
  {
    var o :| o in outcomes[..i] && o.fingerprint == outcomes[i].fingerprint && o.tuple != outcomes[i].tuple;
    assert o in outcomes && outcomes[i] in outcomes;
  }

  /** The values of the map in the arbitrary order of map iteration. */
  method MapValues(m: map<Digest, Group>) returns (list: seq<Group>)
    requires forall f <- m :: m[f].fingerprint == f
    ensures forall g :: g in list <==> g.fingerprint in m && m[g.fingerprint] == g
    ensures forall i, j :: 0 <= i < j < |list| ==> list[i].fingerprint != list[j].fingerprint
  {
    list := [];
    var left := m.Keys;
    while left != {}
      invariant left <= m.Keys
      invariant forall g :: g in list <==> g.fingerprint in m.Keys - left && m[g.fingerprint] == g
      invariant forall i, j :: 0 <= i < j < |list| ==> list[i].fingerprint != list[j].fingerprint
      decreases left
    {
      var f :| f in left;
      assert forall i :: 0 <= i < |list| ==> list[i] in list;
      list := list + [m[f]];
      left := left - {f};
    }
  }

  lemma PresentedInOrder(s: ConfirmedSet, choicepoint: Digest, h: Hashes, m: map<Digest, Group>, list: seq<Group>)
    requires FixedLength(h) && Grouped(s, s.ordered, choicepoint, h, m)
    requires forall g :: g in list <==> g.fingerprint in m && m[g.fingerprint] == g
    requires forall i, j :: 0 <= i < j < |list| ==> list[i].fingerprint != list[j].fingerprint
    ensures Presents(s, choicepoint, h, SortBy(list, GroupKey))
  {
    hide FirstTuple, RefsWith, SortBy;
    forall i, j | 0 <= i < j < |list| ensures GroupKey(list[i]) != GroupKey(list[j]) {
      assert list[i] in list && list[j] in list;
      assert GroupKey(list[i])[71..] == list[i].fingerprint && GroupKey(list[j])[71..] == list[j].fingerprint;
    }
    SortByPermutation(list, list, GroupKey);
    SortByCorrect(list, GroupKey);
  }

  // ------------------------------------------------------------------ cards

  datatype BlindField = BlindField(id: bytes, tag: bytes, text: bytes, boolean: bool, payload: bytes)

  datatype Card = Card(alias: bytes, fields: seq<BlindField>)

  /** `blindField`; base64 is one-to-one, so its argument stands for it. */
  function FieldFace(f: FieldValue): BlindField
  {
    match f.value
    case BooleanValue(b) => BlindField(f.id, Tag(f.value), [], b, [])
    case IntegerValueOf(x) => BlindField(f.id, Tag(f.value), x, false, [])
    case StringValueOf(x) => BlindField(f.id, Tag(f.value), x, false, [])
    case BytesValueOf(x) => BlindField(f.id, Tag(f.value), x, false, [])
    case StringList(x) => BlindField(f.id, Tag(f.value), [], false, x)
    case CanonicalJson(x) => BlindField(f.id, Tag(f.value), [], false, x)
    case _ => BlindField(f.id, Tag(f.value), [], false, [])
  }

  function FieldFaces(t: Tuple): (r: seq<BlindField>)
    ensures |r| == |t|
  {
    seq(|t|, k requires 0 <= k < |t| => FieldFace(t[k]))
  }

  function Cards(groups: seq<Group>): (r: seq<Card>)
    ensures |r| == |groups| && forall i :: 0 <= i < |r| ==> r[i] == Card(groups[i].alias, FieldFaces(groups[i].tuple))
  {
    seq(|groups|, i requires 0 <= i < |groups| => Card(groups[i].alias, FieldFaces(groups[i].tuple)))
  }

  /** A field's face shows its id, its kind and its value: different fields have different faces. */
  lemma FaceTells(f: FieldValue, g: FieldValue)
    ensures FieldFace(f) == FieldFace(g) <==> f == g
  {
    if FieldFace(f) == FieldFace(g) {
      TagTells(f.value, g.value);
      hide Tag;
    }
  }

  lemma TagLetters(v: Exact)
    ensures var t := Tag(v);
            && |t| >= 2
            && t[0] == (match v case Missing => 'M' as int case NullValue => 'N' as int case BooleanValue(_) => 'B' as int
                        case IntegerValueOf(_) => 'I' as int case StringValueOf(_) => 'S' as int case BytesValueOf(_) => 'B' as int
                        case StringList(_) => 'O' as int case CanonicalJson(_) => 'C' as int)
            && (v.BooleanValue? ==> t[1] == 'O' as int) && (v.BytesValueOf? ==> t[1] == 'Y' as int)
  {
  }

  predicate SameKind(v: Exact, w: Exact)
  {
    match v
    case Missing => w.Missing?
    case NullValue => w.NullValue?
    case BooleanValue(_) => w.BooleanValue?
    case IntegerValueOf(_) => w.IntegerValueOf?
    case StringValueOf(_) => w.StringValueOf?
    case BytesValueOf(_) => w.BytesValueOf?
    case StringList(_) => w.StringList?
    case CanonicalJson(_) => w.CanonicalJson?
  }

  lemma TagTells(v: Exact, w: Exact)
    ensures Tag(v) == Tag(w) ==> SameKind(v, w)
  {
    hide Tag;
    TagLetters(v);
    TagLetters(w);
  }

  /** Cards show the whole tuple: groups with different tuples have different cards. */
  lemma {:induction false} FacesTell(t: Tuple, u: Tuple)
    ensures FieldFaces(t) == FieldFaces(u) <==> t == u
  {
    hide FieldFace;
    if FieldFaces(t) == FieldFaces(u) {
      forall k | 0 <= k < |t| ensures t[k] == u[k] {
        assert FieldFaces(t)[k] == FieldFaces(u)[k];
        FaceTells(t[k], u[k]);
      }
    }
  }

  datatype View = View(cards: seq<Card>, aliases: map<bytes, seq<Ref>>)

  predicate Renderable(groups: seq<Group>)
  {
    && (forall g <- groups :: g.alias != [] && g.refs != [])
    && forall i, j :: 0 <= i < j < |groups| ==> groups[i].alias != groups[j].alias
  }

  /** The alias map of the groups. */
  ghost predicate Aliased(groups: seq<Group>, aliases: map<bytes, seq<Ref>>)
  {
    && Renderable(groups)
    && (forall a :: a in aliases <==> exists g <- groups :: g.alias == a)
    && (forall g <- groups :: g.alias in aliases && aliases[g.alias] == g.refs)
  }

  lemma AliasedNext(groups: seq<Group>, g: Group, aliases: map<bytes, seq<Ref>>)
    requires Aliased(groups, aliases)
    ensures g.alias != [] && g.refs != [] && g.alias !in aliases ==> Aliased(groups + [g], aliases[g.alias := g.refs])
    ensures g.alias == [] || g.refs == [] || g.alias in aliases ==> !Renderable(groups + [g])
  {
    var all := groups + [g];
    assert all[|groups|] in all;
    if g.alias in aliases {
      var x :| x in groups && x.alias == g.alias;
      var i :| 0 <= i < |groups| && groups[i] == x;
      assert all[i].alias == all[|groups|].alias;
    }
  }

  lemma NotRenderablePrefix(groups: seq<Group>, k: nat)
    requires k <= |groups| && !Renderable(groups[..k])
    ensures !Renderable(groups)
  {
    if g :| g in groups[..k] && (g.alias == [] || g.refs == []) {
      assert g in groups;
    }
  }

  /** `renderBlindGroups`. */
  method RenderBlindGroups(groups: seq<Group>) returns (view: Option<View>)
    ensures view.Some? <==> Renderable(groups)
    ensures view.Some? ==> view.value.cards == Cards(groups) && Aliased(groups, view.value.aliases)
  {
    hide Aliased, Renderable, FieldFaces;
    var cards: seq<Card> := [];
    var aliases: map<bytes, seq<Ref>> := map[];
    NothingAliased();
    for i := 0 to |groups|
      invariant cards == Cards(groups)[..i] && Aliased(groups[..i], aliases)
    {
      var g := groups[i];
      assert groups[..i + 1] == groups[..i] + [g];
      AliasedNext(groups[..i], g, aliases);
      if g.alias == [] || |g.refs| == 0 || g.alias in aliases {
        NotRenderablePrefix(groups, i + 1);
        return None;
      }
      cards := cards + [Card(g.alias, FieldFaces(g.tuple))];
      aliases := aliases[g.alias := g.refs];
    }
    assert groups[..|groups|] == groups;
    AliasedIsRenderable(groups, aliases);
    return Some(View(cards, aliases));
  }

  lemma NothingAliased()
    ensures Aliased([], map[])
  {
  }

  lemma AliasedIsRenderable(groups: seq<Group>, aliases: map<bytes, seq<Ref>>)
    requires Aliased(groups, aliases)
    ensures Renderable(groups)
  {
  }

  // --------------------------------------------------------- non-interference

  /** The two universes show the same tuple for the same fingerprints. How many candidates stand
      behind a fingerprint, which, and in what order, is left open. */
  ghost predicate SameMeaning(s: ConfirmedSet, t: ConfirmedSet)
  {
    && Prints(s.ordered) == Prints(t.ordered)
    && forall a <- s.ordered, b <- t.ordered :: a.fingerprint == b.fingerprint ==> a.tuple == b.tuple
  }

  /** What a group shows, without its support. */
  function Face(g: Group): Group
  {
    g.(refs := [])
  }

  function Faces(groups: seq<Group>): (r: seq<Group>)
    ensures |r| == |groups| && forall i :: 0 <= i < |r| ==> r[i] == Face(groups[i])
  {
    seq(|groups|, i requires 0 <= i < |groups| => Face(groups[i]))
  }

  lemma FacesSorted(groups: seq<Group>)
    requires StrictlySorted(groups, GroupKey)
    ensures StrictlySorted(Faces(groups), GroupKey)
  {
    var r := Faces(groups);
    forall i, j | 0 <= i < j < |r| ensures Less(GroupKey(r[i]), GroupKey(r[j])) {
      assert Less(GroupKey(groups[i]), GroupKey(groups[j]));
    }
  }

  lemma FacesIncluded(s: ConfirmedSet, t: ConfirmedSet, choicepoint: Digest, h: Hashes, groups: seq<Group>, others: seq<Group>, x: Group)
    requires SameMeaning(s, t) && Presents(s, choicepoint, h, groups) && Presents(t, choicepoint, h, others)
    requires x in Faces(groups)
    ensures x in Faces(others)
  {
    hide FirstTuple, RefsWith;
    var i :| 0 <= i < |groups| && Face(groups[i]) == x;
    assert groups[i] in groups;
    var f := x.fingerprint;
    FirstTupleIsMember(s.ordered, f);
    FirstTupleIsMember(t.ordered, f);
    var g := GroupOf(t, t.ordered, choicepoint, h, f);
    assert g in others;
    var j :| 0 <= j < |others| && others[j] == g;
    assert Faces(others)[j] == x;
  }

  lemma MeaningIsSymmetric(s: ConfirmedSet, t: ConfirmedSet)
    requires SameMeaning(s, t)
    ensures SameMeaning(t, s)
  {
  }

  /** Cards, aliases and their order do not depend on support counts, candidates or iteration order. */
  lemma BlindNonInterference(s: ConfirmedSet, t: ConfirmedSet, choicepoint: Digest, h: Hashes, groups: seq<Group>, others: seq<Group>)
    requires SameMeaning(s, t) && Presents(s, choicepoint, h, groups) && Presents(t, choicepoint, h, others)
    ensures Cards(groups) == Cards(others)
    ensures forall i :: 0 <= i < |groups| ==> groups[i].alias == others[i].alias && groups[i].fingerprint == others[i].fingerprint
  {
    hide Presents, SameMeaning, FieldFaces;
    forall x ensures x in Faces(groups) <==> x in Faces(others) {
      MeaningIsSymmetric(s, t);
      if x in Faces(groups) {
        FacesIncluded(s, t, choicepoint, h, groups, others, x);
      }
      if x in Faces(others) {
        FacesIncluded(t, s, choicepoint, h, others, groups, x);
      }
    }
    PresentsSorted(s, choicepoint, h, groups);
    PresentsSorted(t, choicepoint, h, others);
    FacesSorted(groups);
    FacesSorted(others);
    StrictlySortedUnique(Faces(groups), Faces(others), GroupKey);
    assert forall i :: 0 <= i < |groups| ==> Face(groups[i]) == Faces(groups)[i] == Faces(others)[i] == Face(others[i]);
  }

  lemma PresentsSorted(s: ConfirmedSet, choicepoint: Digest, h: Hashes, groups: seq<Group>)
    requires Presents(s, choicepoint, h, groups)
    ensures StrictlySorted(groups, GroupKey)
  {
  }

  // ---------------------------------------------------------- alias resolution

  function RefKey(r: Ref): bytes { r.id }

  predicate GoodAliases(aliases: map<bytes, seq<Ref>>, chosen: seq<bytes>)
  {
    NoRepeats(chosen) && forall a <- chosen :: a != [] && a in aliases
  }

  /** The first alias that is unknown, or repeats an earlier one. */
  function AliasRefusal(aliases: map<bytes, seq<Ref>>, chosen: seq<bytes>, i: nat): Option<Code>
    requires i <= |chosen|
    decreases |chosen| - i
  {
    if i == |chosen| then None
    else if chosen[i] == [] || chosen[i] !in aliases then Some(UnconfirmedSelection)
    else if chosen[i] in chosen[..i] then Some(DuplicateObservedSelection)
    else AliasRefusal(aliases, chosen, i + 1)
  }

  /** `resolveAliases`: every supporting ref of the chosen aliases, each id once, sorted by id. */
  method ResolveAliases(aliases: map<bytes, seq<Ref>>, chosen: seq<bytes>) returns (result: Result<seq<Ref>, Code>)
    ensures result.Ok? <==> GoodAliases(aliases, chosen)
    ensures result.Ok? ==> StrictlySorted(result.value, RefKey) && Collected(aliases, chosen, result.value)
    ensures result.Err? ==> AliasRefusal(aliases, chosen, 0) == Some(result.error)
  {
    var refs: seq<Ref> := [];
    var seen: set<bytes> := {};
    for i := 0 to |chosen|
      invariant NoRepeats(chosen[..i]) && seen == SetOf(chosen[..i])
      invariant forall a <- chosen[..i] :: a != [] && a in aliases
      invariant Collected(aliases, chosen[..i], refs)
      invariant AliasRefusal(aliases, chosen, 0) == AliasRefusal(aliases, chosen, i)
    {
      var alias := chosen[i];
      assert alias in chosen && chosen[..i + 1] == chosen[..i] + [alias];
      if alias == [] || alias !in aliases {
        return Err(UnconfirmedSelection);
      }
      if alias in seen {
        AliasRepeats(chosen, i);
        return Err(DuplicateObservedSelection);
      }
      seen := seen + {alias};
      var more := AddRefs(refs, aliases[alias]);
      CollectedMore(aliases, chosen[..i], alias, refs, more);
      refs := more;
    }
    assert chosen[..|chosen|] == chosen;
    SortedCollected(aliases, chosen, refs);
    return Ok(SortBy(refs, RefKey));
  }

  lemma AliasRepeats(chosen: seq<bytes>, i: nat)
    requires i < |chosen| && chosen[i] in chosen[..i]
    ensures !NoRepeats(chosen)
  {
    var k :| 0 <= k < i && chosen[..i][k] == chosen[i];
    assert chosen[k] == chosen[i];
  }

  /** The refs of the aliases, each id once. */
  ghost predicate Collected(aliases: map<bytes, seq<Ref>>, chosen: seq<bytes>, refs: seq<Ref>)
  {
    && DistinctKeys(refs, RefKey)
    && (forall r <- refs :: exists a <- chosen :: a in aliases && r in aliases[a])
    && (forall a <- chosen :: a in aliases && forall r <- aliases[a] :: HasId(refs, r.id))
  }

  predicate HasId(refs: seq<Ref>, id: bytes)
  {
    exists q <- refs :: q.id == id
  }

  lemma SortedCollected(aliases: map<bytes, seq<Ref>>, chosen: seq<bytes>, refs: seq<Ref>)
    requires Collected(aliases, chosen, refs)
    ensures Collected(aliases, chosen, SortBy(refs, RefKey)) && StrictlySorted(SortBy(refs, RefKey), RefKey)
  {
    hide SortBy;
    SortByPermutation(refs, refs, RefKey);
    SortByCorrect(refs, RefKey);
    StrictIsDistinct(SortBy(refs, RefKey), RefKey);
    assert forall id :: HasId(refs, id) ==> HasId(SortBy(refs, RefKey), id);
  }

  lemma CollectedMore(aliases: map<bytes, seq<Ref>>, chosen: seq<bytes>, alias: bytes, refs: seq<Ref>, more: seq<Ref>)
    requires Collected(aliases, chosen, refs) && alias in aliases && DistinctKeys(more, RefKey)
    requires (forall r <- refs :: r in more) && (forall r <- more :: r in refs || r in aliases[alias])
    requires forall r <- aliases[alias] :: HasId(more, r.id)
    ensures Collected(aliases, chosen + [alias], more)
  {
    forall a <- chosen + [alias], r <- aliases[a] ensures HasId(more, r.id) {
      if a in chosen {
        assert HasId(refs, r.id);
      }
    }
  }

  /** The inner loop: refs whose id is already there are skipped. */
  method AddRefs(refs: seq<Ref>, support: seq<Ref>) returns (more: seq<Ref>)
    requires DistinctKeys(refs, RefKey)
    ensures DistinctKeys(more, RefKey) && (forall r <- refs :: r in more)
    ensures forall r <- more :: r in refs || r in support
    ensures forall r <- support :: HasId(more, r.id)
  {
    more := refs;
    for j := 0 to |support|
      invariant DistinctKeys(more, RefKey) && (forall r <- refs :: r in more)
      invariant forall r <- more :: r in refs || r in support
      invariant forall k :: 0 <= k < j ==> HasId(more, support[k].id)
    {
      var r := support[j];
      ghost var before := more;
      if !HasId(more, r.id) {
        assert forall k :: 0 <= k < |more| ==> more[k] in more;
        more := more + [r];
        assert r in more;
      }
      forall k | 0 <= k < j ensures HasId(more, support[k].id) {
        assert HasId(before, support[k].id);
      }
    }
  }

  /** The refs behind the aliases of presented groups: all outcomes of the chosen fingerprints, each
      exactly once, and no other. */
  lemma ResolvesExactly(s: ConfirmedSet, choicepoint: Digest, h: Hashes, groups: seq<Group>, aliases: map<bytes, seq<Ref>>,
                        chosen: seq<bytes>, refs: seq<Ref>, o: Outcome)
    requires Collected(aliases, chosen, refs) && Presents(s, choicepoint, h, groups) && Aliased(groups, aliases)
    requires o in s.ordered && SoundSet(s)
    ensures RefOf(s, o) in refs <==> h.alias(choicepoint, o.fingerprint) in chosen
  {
    hide SoundSet, Presents, Aliased;
    SupportOf(s, choicepoint, h, groups, aliases, o);
    var alias := h.alias(choicepoint, o.fingerprint);
    if alias in chosen {
      assert HasId(refs, RefOf(s, o).id);
      var q :| q in refs && q.id == o.id;
      var a :| a in chosen && a in aliases && q in aliases[a];
      var p := BehindAlias(s, choicepoint, h, groups, aliases, a, q);
      SameId(s, o, p);
    }
    if RefOf(s, o) in refs {
      var a :| a in chosen && a in aliases && RefOf(s, o) in aliases[a];
      var p := BehindAlias(s, choicepoint, h, groups, aliases, a, RefOf(s, o));
      SameId(s, o, p);
    }
  }

  lemma SameId(s: ConfirmedSet, o: Outcome, p: Outcome)
    requires SoundSet(s) && o in s.ordered && p in s.ordered && o.id == p.id
    ensures o == p
  {
    assert s.byId[o.id] == o && s.byId[p.id] == p;
  }

  lemma SupportOf(s: ConfirmedSet, choicepoint: Digest, h: Hashes, groups: seq<Group>, aliases: map<bytes, seq<Ref>>, o: Outcome)
    requires Presents(s, choicepoint, h, groups) && Aliased(groups, aliases) && o in s.ordered
    ensures h.alias(choicepoint, o.fingerprint) in aliases
    ensures RefOf(s, o) in aliases[h.alias(choicepoint, o.fingerprint)]
  {
    hide FirstTuple, RefsWith;
    var g := GroupOf(s, s.ordered, choicepoint, h, o.fingerprint);
    assert g in groups;
    RefsOfPrint(s, s.ordered, o.fingerprint);
  }

  lemma BehindAlias(s: ConfirmedSet, choicepoint: Digest, h: Hashes, groups: seq<Group>, aliases: map<bytes, seq<Ref>>, a: bytes, r: Ref)
    returns (p: Outcome)
    requires Presents(s, choicepoint, h, groups) && Aliased(groups, aliases) && a in aliases && r in aliases[a]
    ensures p in s.ordered && RefOf(s, p) == r && h.alias(choicepoint, p.fingerprint) == a
  {
    hide FirstTuple, RefsWith;
    var x :| x in groups && x.alias == a;
    assert x == GroupOf(s, s.ordered, choicepoint, h, x.fingerprint);
    RefsOfPrint(s, s.ordered, x.fingerprint);
    p :| p in s.ordered && RefOf(s, p) == r && p.fingerprint == x.fingerprint;
  }

  lemma {:induction false} RefsOfPrint(s: ConfirmedSet, outcomes: seq<Outcome>, f: Digest)
    ensures forall o <- outcomes :: o.fingerprint == f ==> RefOf(s, o) in RefsWith(s, outcomes, f)
    ensures forall r <- RefsWith(s, outcomes, f) :: exists o <- outcomes :: RefOf(s, o) == r && o.fingerprint == f
  {
    if outcomes != [] {
      var last := |outcomes| - 1;
      assert outcomes == outcomes[..last] + [outcomes[last]];
      RefsOfPrint(s, outcomes[..last], f);
    }
  }

  // ---------------------------------------------------------- differing fields

  predicate InRegistryOrder(r: Registry, groups: seq<Group>)
  {
    forall g <- groups :: FieldIds(g.tuple) == r.ordered
  }

  /** Two groups show different values of field number `k`. */
  predicate Differs(groups: seq<Group>, k: nat)
    requires forall g <- groups :: k < |g.tuple|
  {
    exists a <- groups, b <- groups :: a.tuple[k].value != b.tuple[k].value
  }

  /** `differingFields`: on groups in registry order exactly the fields in which two groups differ; it
      refuses an empty registry or group set, and only ever tuples out of registry order. */
  method DifferingFields(r: Registry, groups: seq<Group>) returns (fields: Option<seq<bytes>>)
    ensures groups == [] || r.ordered == [] ==> fields == None
    ensures fields.None? ==> groups == [] || r.ordered == [] || !InRegistryOrder(r, groups)
    ensures fields.Some? ==> forall f <- fields.value :: f in r.ordered
    ensures fields.Some? && InRegistryOrder(r, groups) && NoRepeats(r.ordered) ==>
      forall k :: 0 <= k < |r.ordered| ==> (r.ordered[k] in fields.value <==> Differs(groups, k))
  {
    hide IdentityKey;
    if |groups| == 0 || |r.ordered| == 0 {
      return None;
    }
    var result: seq<bytes> := [];
    for k := 0 to |r.ordered|
      invariant forall f <- result :: f in r.ordered[..k]
      invariant InRegistryOrder(r, groups) && NoRepeats(r.ordered) ==>
        forall j :: 0 <= j < k ==> (r.ordered[j] in result <==> Differs(groups, j))
    {
      var differs := FieldDiffers(r, groups, k);
      if differs.None? {
        return None;
      }
      assert NoRepeats(r.ordered) ==> r.ordered[k] !in result by {
        if r.ordered[k] in result {
          AliasRepeats(r.ordered, k);
        }
      }
      if differs.value {
        result := result + [r.ordered[k]];
      }
    }
    return Some(result);
  }

  /** The tuple has field number `k` of the registry, in its place. */
  predicate InPlace(r: Registry, t: Tuple, k: nat)
    requires k < |r.ordered|
  {
    |t| == |r.ordered| && t[k].id == r.ordered[k]
  }

  method FieldDiffers(r: Registry, groups: seq<Group>, k: nat) returns (differs: Option<bool>)
    requires groups != [] && k < |r.ordered|
    ensures differs.None? ==> !InRegistryOrder(r, groups)
    ensures differs.Some? && InRegistryOrder(r, groups) ==> (differs.value <==> Differs(groups, k))
  {
    hide IdentityKey;
    OrderedInPlace(r, groups, k);
    if !InPlace(r, groups[0].tuple, k) {
      return None;
    }
    assert groups[0] in groups;
    var first := IdentityKey(groups[0].tuple[k].value);
    for i := 1 to |groups|
      invariant forall j :: 0 <= j < i ==> InPlace(r, groups[j].tuple, k) && groups[j].tuple[k].value == groups[0].tuple[k].value
    {
      assert groups[i] in groups;
      if !InPlace(r, groups[i].tuple, k) {
        return None;
      }
      IdentityKeyInjective(groups[i].tuple[k].value, groups[0].tuple[k].value);
      if IdentityKey(groups[i].tuple[k].value) != first {
        return Some(true);
      }
    }
    assert forall g <- groups :: InPlace(r, g.tuple, k) && g.tuple[k].value == groups[0].tuple[k].value;
    return Some(false);
  }

  lemma OrderedInPlace(r: Registry, groups: seq<Group>, k: nat)
    requires k < |r.ordered|
    ensures InRegistryOrder(r, groups) ==> forall g <- groups :: InPlace(r, g.tuple, k)
  {
    if InRegistryOrder(r, groups) {
      forall g <- groups ensures InPlace(r, g.tuple, k) {
        assert FieldIds(g.tuple)[k] == r.ordered[k];
      }
    }
  }
}
