/** Which complete tuples a registry accepts. */
module RegistryTuples {
  import opened Bytes
  import opened Domain
  import opened Utf8
  import opened CanonParse
  import opened PortableValue
  import opened ChoiceKeys
  import opened FieldRegistry

  predicate GoodId(r: Registry, id: bytes)
  {
    id != [] && |id| <= MAX_FIELD_ID_BYTES && ValidUtf8(id) && id in r.definitions
  }

  /** A field of the registry with a value of its type. */
  predicate GoodField(r: Registry, f: FieldValue)
  {
    && GoodId(r, f.id) && FitsDefinition(r.definitions[f.id], f.value)
    && (f.value.StringValueOf? ==> |f.value.text| <= MAX_STRING_BYTES)
  }

  predicate IdsDiffer(tuple: seq<FieldValue>)
  {
    forall i, j :: 0 <= i < j < |tuple| ==> tuple[i].id != tuple[j].id
  }

  function RetainedTotal(tuple: seq<FieldValue>): nat
  {
    if tuple == [] then 0 else RetainedTotal(tuple[..|tuple| - 1]) + ExactRetained(tuple[|tuple| - 1].value)
  }

  /** What is asked of the values in registry order. */
  predicate PortableFields(r: Registry, fields: seq<FieldValue>)
  {
    && 1 <= |fields| <= MAX_TUPLE_FIELDS && TupleFits(Values(fields)) && r.realizable(fields)
    && forall f <- fields ::
      && Valid(f.value) && (f.value.CanonicalJson? ==> |f.value.json| <= MAX_CANONICAL_JSON_BYTES)
      && (f.value.CanonicalJson? && f.id in r.definitions && r.definitions[f.id].objectOnly ==>
            ParseBytes(f.value.json).Ok? && ParseBytes(f.value.json).value.Object?)
  }

  lemma {:induction false} FirstRefusalExactly(r: Registry, fields: seq<FieldValue>, i: nat)
    requires i <= |fields|
    ensures FirstPortableRefusal(r, fields, i).None? <==> forall k :: i <= k < |fields| ==> PortableFieldRefusal(r, fields[k]).None?
    decreases |fields| - i
  {
    hide PortableFieldRefusal;
    if i < |fields| {
      FirstRefusalExactly(r, fields, i + 1);
    }
  }

  lemma PortableExactly(r: Registry, fields: seq<FieldValue>)
    ensures PortableRefusal(r, fields).None? <==> PortableFields(r, fields)
  {
    hide FirstPortableRefusal, TupleFits, Valid, ParseBytes;
    FirstRefusalExactly(r, fields, 0);
    assert forall k :: 0 <= k < |fields| ==> fields[k] in fields;
  }

  ghost predicate AllGood(r: Registry, tuple: seq<FieldValue>)
  {
    forall f <- tuple :: GoodField(r, f)
  }

  ghost predicate HasId(tuple: seq<FieldValue>, id: bytes)
  {
    exists f <- tuple :: f.id == id
  }

  lemma OneMoreField(r: Registry, before: seq<FieldValue>, x: FieldValue)
    ensures AllGood(r, before + [x]) <==> AllGood(r, before) && GoodField(r, x)
    ensures IdsDiffer(before + [x]) <==> IdsDiffer(before) && !HasId(before, x.id)
    ensures forall id :: HasId(before + [x], id) <==> HasId(before, id) || x.id == id
  {
    hide GoodField;
    var all := before + [x];
    assert forall f :: f in all <==> f in before || f == x;
    assert forall i :: 0 <= i < |before| ==> all[i] == before[i] && before[i] in before;
    if IdsDiffer(all) {
      forall f <- before ensures f.id != x.id {
        var i :| 0 <= i < |before| && before[i] == f;
        assert all[i].id != all[|before|].id;
      }
    }
  }

  lemma GatherOneExactly(r: Registry, g: Gathered, f: FieldValue)
    ensures GatherOne(r, g, f).Ok? <==>
      GoodField(r, f) && f.id !in g.fields && g.retained + ExactRetained(f.value) <= MAX_CHOICE_TUPLE_BYTES
  {
    hide FitsDefinition, ValidUtf8, ExactRetained;
  }

  /** What gathering has collected. */
  ghost predicate Collects(g: Gathered, tuple: seq<FieldValue>)
  {
    g.retained == RetainedTotal(tuple) && forall id :: id in g.fields <==> HasId(tuple, id)
  }

  /** Gathering succeeds exactly on good fields of different ids within the byte ceiling. */
  lemma {:induction false} GatherExactly(r: Registry, tuple: seq<FieldValue>)
    ensures Gather(r, tuple).Ok? <==> AllGood(r, tuple) && IdsDiffer(tuple) && RetainedTotal(tuple) <= MAX_CHOICE_TUPLE_BYTES
    ensures Gather(r, tuple).Ok? ==> Collects(Gather(r, tuple).value, tuple)
  {
    hide GatherOne, ExactRetained, AllGood, IdsDiffer, GoodField, HasId;
    if tuple == [] {
      NothingGood(r);
    } else {
      var last := |tuple| - 1;
      GatherExactly(r, tuple[..last]);
      assert tuple == tuple[..last] + [tuple[last]];
      OneMoreField(r, tuple[..last], tuple[last]);
      if Gather(r, tuple[..last]).Ok? {
        GatherOneExactly(r, Gather(r, tuple[..last]).value, tuple[last]);
        GatheredOne(r, Gather(r, tuple[..last]).value, tuple[last]);
      }
    }
  }

  lemma GatheredOne(r: Registry, g: Gathered, f: FieldValue)
    ensures GatherOne(r, g, f).Ok? ==>
      GatherOne(r, g, f).value == Gathered(g.fields[f.id := f.value], g.retained + ExactRetained(f.value))
  {
    hide ExactRetained, ValueRefusal, Resolve;
  }

  lemma NothingGood(r: Registry)
    ensures AllGood(r, []) && IdsDiffer([]) && forall id :: !HasId([], id)
  {
  }

  /** A tuple is accepted exactly when it holds every field of the registry once and no other, each with a
      value of its type, within the byte ceilings, and in registry order as a portable tuple that the
      adapter can realise. */
  lemma CompleteExactly(r: Registry, tuple: seq<FieldValue>)
    requires SoundRegistry(r)
    ensures CompleteTuple(r, tuple).Ok? <==>
      && AllGood(r, tuple) && IdsDiffer(tuple) && (forall id <- r.ordered :: HasId(tuple, id))
      && RetainedTotal(tuple) <= MAX_CHOICE_TUPLE_BYTES
      && forall fields | Arranged(r, tuple, fields) :: PortableFields(r, fields)
  {
    hide Gather, GoodField, PortableRefusal, PortableFields, AllGood, IdsDiffer, HasId, Arranged, Project, RetainedTotal;
    GatherExactly(r, tuple);
    if Gather(r, tuple).Ok? {
      GatheredFields(r, tuple);
      FewFields(r, tuple);
      var m := Gather(r, tuple).value.fields;
      if forall id <- r.ordered :: id in m {
        PortableExactly(r, Project(r.ordered, m));
        ArrangedIs(r, tuple, m);
      }
    }
  }

  /** The fields of the tuple in registry order. */
  ghost predicate Arranged(r: Registry, tuple: seq<FieldValue>, fields: seq<FieldValue>)
  {
    |fields| == |r.ordered| && forall k :: 0 <= k < |fields| ==> fields[k].id == r.ordered[k] && fields[k] in tuple
  }

  lemma ArrangedIs(r: Registry, tuple: seq<FieldValue>, m: map<bytes, Exact>)
    requires forall f <- tuple :: f.id in m && m[f.id] == f.value
    requires forall id <- r.ordered :: id in m && FieldValue(id, m[id]) in tuple
    ensures forall fields :: Arranged(r, tuple, fields) <==> fields == Project(r.ordered, m)
  {
  }

  lemma FewFields(r: Registry, tuple: seq<FieldValue>)
    requires SoundRegistry(r) && IdsDiffer(tuple) && AllGood(r, tuple)
    ensures |tuple| <= |r.definitions|
  {
    hide GoodField;
    IdsCounted(tuple);
    assert forall f <- tuple :: f.id in r.definitions by { IdsKnown(r, tuple); }
    assert (set f <- tuple :: f.id) <= r.definitions.Keys;
    SmallerSet(set f <- tuple :: f.id, r.definitions.Keys);
    assert |r.definitions| == |r.definitions.Keys|;
  }

  lemma IdsKnown(r: Registry, tuple: seq<FieldValue>)
    requires forall f <- tuple :: GoodField(r, f)
    ensures forall f <- tuple :: f.id in r.definitions
  {
    hide FitsDefinition, ValidUtf8;
  }

  lemma SmallerSet<T>(a: set<T>, b: set<T>)
    requires a <= b
    ensures |a| <= |b|
  {
    assert b == a + (b - a);
  }

  lemma {:induction false} IdsCounted(tuple: seq<FieldValue>)
    requires IdsDiffer(tuple)
    ensures |set f <- tuple :: f.id| == |tuple|
  {
    if tuple != [] {
      var last := |tuple| - 1;
      IdsCounted(tuple[..last]);
      assert tuple == tuple[..last] + [tuple[last]];
      assert (set f <- tuple :: f.id) == (set f <- tuple[..last] :: f.id) + {tuple[last].id};
    }
  }
}
