/** The closed field registry: selections and complete tuples (internal/choice/validation.go). */
module FieldRegistry {
  import opened Bytes
  import opened Domain
  import Sorting
  import opened Utf8
  import opened CanonValue
  import opened CanonParse
  import opened PortableValue
  import opened ChoiceKeys

  const MAX_FIELD_ID_BYTES := 128
  const MAX_CHOICE_TUPLE_BYTES := 0x20_0000

  datatype FieldType = StringField | IntegerField | BooleanField | BytesField | ListField | JsonField

  datatype Definition = Definition(kind: FieldType, allowMissing: bool, allowNull: bool, objectOnly: bool)

  /** A portable registry; `realizable` is the adapter's expectation domain. */
  datatype Registry = Registry(ordered: seq<bytes>, definitions: map<bytes, Definition>, realizable: seq<FieldValue> -> bool)

  datatype Code =
    | EmptyFieldId | InputLimitExceeded | InvalidUtf8Text | UnknownField | DuplicateSelectedField | DuplicateTupleField
    | InvalidFieldType | IncompleteTuple | InvalidFieldRegistry | EmptySelectedFields | EmptyObservedSelection
    | UnexpectedCustomExpectation | UnconfirmedSelection | DuplicateObservedSelection | CustomCardinality
    | CustomUnreviewed | ReviewMismatch | AmbiguousScope | CustomAlreadySeen | NoncompilablePredicate
    | MissingAction | UnknownAction

  ghost predicate SoundRegistry(r: Registry)
  {
    && NoRepeats(r.ordered) && (forall id :: id in r.ordered <==> id in r.definitions)
    && |r.ordered| == |r.definitions|
  }

  function Resolve(r: Registry, text: bytes): Option<Code>
  {
    if text == [] then Some(EmptyFieldId)
    else if |text| > MAX_FIELD_ID_BYTES then Some(InputLimitExceeded)
    else if !ValidUtf8(text) then Some(InvalidUtf8Text)
    else if text !in r.definitions then Some(UnknownField)
    else None
  }

  // -------------------------------------------------------------- selections

  function SelectionRefusal(r: Registry, raw: seq<bytes>, i: nat): Option<Code>
    requires i <= |raw|
    decreases |raw| - i
  {
    if i == |raw| then None
    else if Resolve(r, raw[i]).Some? then Resolve(r, raw[i])
    else if raw[i] in raw[..i] then Some(DuplicateSelectedField)
    else SelectionRefusal(r, raw, i + 1)
  }

  /** The members of `chosen` in the order of `all`. */
  function Filter(all: seq<bytes>, chosen: set<bytes>): (s: seq<bytes>)
    ensures forall x :: x in s <==> x in all && x in chosen
  {
    if all == [] then []
    else
      var last := |all| - 1;
      Filter(all[..last], chosen) + if all[last] in chosen then [all[last]] else []
  }

  /** `resolveSelected`: registry order, whatever the input order. */
  function ResolveSelected(r: Registry, raw: seq<bytes>): Result<seq<bytes>, Code>
  {
    if |raw| > |r.definitions| then Err(InputLimitExceeded)
    else if SelectionRefusal(r, raw, 0).Some? then Err(SelectionRefusal(r, raw, 0).value)
    else Ok(Filter(r.ordered, SetOf(raw)))
  }

  method ResolveSelectedFields(r: Registry, raw: seq<bytes>) returns (result: Result<seq<bytes>, Code>)
    ensures result == ResolveSelected(r, raw)
  {
    hide Resolve, Filter;
    if |raw| > |r.definitions| {
      return Err(InputLimitExceeded);
    }
    var seen: set<bytes> := {};
    for i := 0 to |raw|
      invariant SelectionRefusal(r, raw, 0) == SelectionRefusal(r, raw, i) && seen == SetOf(raw[..i])
    {
      assert raw[..i + 1] == raw[..i] + [raw[i]];
      var refusal := Resolve(r, raw[i]);
      if refusal.Some? {
        return Err(refusal.value);
      }
      if raw[i] in seen {
        return Err(DuplicateSelectedField);
      }
      seen := seen + {raw[i]};
    }
    assert raw[..|raw|] == raw;
    var selected := FilterOrdered(r.ordered, seen);
    return Ok(selected);
  }

  method FilterOrdered(all: seq<bytes>, chosen: set<bytes>) returns (selected: seq<bytes>)
    ensures selected == Filter(all, chosen)
  {
    selected := [];
    for i := 0 to |all|
      invariant selected == Filter(all[..i], chosen)
    {
      assert all[..i + 1][..i] == all[..i];
      if all[i] in chosen {
        selected := selected + [all[i]];
      }
    }
    assert all[..|all|] == all;
  }

  lemma {:induction false} SelectionAccepted(r: Registry, raw: seq<bytes>, i: nat)
    requires i <= |raw|
    ensures SelectionRefusal(r, raw, i).None? <==>
            forall k :: i <= k < |raw| ==> Resolve(r, raw[k]).None? && raw[k] !in raw[..k]
    decreases |raw| - i
  {
    hide Resolve;
    if i < |raw| {
      SelectionAccepted(r, raw, i + 1);
    }
  }

  /** A selection is accepted exactly when its fields exist, each once; then it holds just these. */
  lemma SelectionExact(r: Registry, raw: seq<bytes>)
    requires SoundRegistry(r)
    ensures ResolveSelected(r, raw).Ok? <==>
              |raw| <= |r.definitions| && NoRepeats(raw) && forall f <- raw :: Resolve(r, f).None?
    ensures ResolveSelected(r, raw).Ok? ==> forall f :: f in ResolveSelected(r, raw).value <==> f in raw
  {
    SelectionAccepted(r, raw, 0);
    if NoRepeats(raw) {
      assert forall k :: 0 <= k < |raw| ==> raw[k] !in raw[..k];
    }
    if SelectionRefusal(r, raw, 0).None? {
      forall i, j | 0 <= i < j < |raw| ensures raw[i] != raw[j] {
        assert raw[i] in raw[..j];
      }
    }
    assert forall k :: 0 <= k < |raw| ==> raw[k] in raw;
  }

  /** The order in which the fields are given does not matter. */
  lemma SelectionOrderIrrelevant(r: Registry, raw: seq<bytes>, other: seq<bytes>)
    requires SoundRegistry(r) && ResolveSelected(r, raw).Ok? && multiset(raw) == multiset(other)
    ensures ResolveSelected(r, other) == ResolveSelected(r, raw)
  {
    hide Resolve;
    SelectionExact(r, raw);
    SelectionExact(r, other);
    assert |multiset(raw)| == |raw| && |multiset(other)| == |other|;
    assert forall f :: f in raw <==> f in multiset(raw);
    assert forall f :: f in other <==> f in multiset(other);
    assert SetOf(raw) == SetOf(other);
    Permuted(raw, other);
  }

  lemma Permuted(raw: seq<bytes>, other: seq<bytes>)
    requires NoRepeats(raw) && multiset(raw) == multiset(other)
    ensures NoRepeats(other)
  {
    forall i, j | 0 <= i < j < |other| ensures other[i] != other[j] {
      if other[i] == other[j] {
        Sorting.CountTwo(other, i, j);
        Sorting.DistinctCount(raw, Itself, other[i]);
      }
    }
  }

  // ---------------------------------------------------------- complete tuples

  predicate FitsDefinition(d: Definition, v: Exact)
  {
    match v
    case Missing => d.allowMissing
    case NullValue => d.allowNull
    case StringValueOf(text) => d.kind == StringField && ValidUtf8(text)
    case IntegerValueOf(integer) => d.kind == IntegerField && IntegerFromString(integer).Ok?
    case BooleanValue(_) => d.kind == BooleanField
    case BytesValueOf(b) => d.kind == BytesField && |b| <= MAX_BYTES_VALUE_BYTES
    case StringList(canonical) => d.kind == ListField && ListMembers(canonical).Some?
    case CanonicalJson(json) =>
      && d.kind == JsonField && json != [] && ParseBytes(json).Ok? && !ParseBytes(json).value.Null?
      && CanonicalBytes(ParseBytes(json).value) == Ok(json)
  }

  function ValueRefusal(d: Definition, v: Exact): Option<Code>
  {
    if v.StringValueOf? && |v.text| > MAX_STRING_BYTES then Some(InputLimitExceeded)
    else if FitsDefinition(d, v) then None
    else Some(InvalidFieldType)
  }

  /** `exactValueRetainedBytes`, with the digest text that a canonical JSON value also keeps. */
  function ExactRetained(v: Exact): nat
  {
    match v
    case StringValueOf(x) => |x|
    case IntegerValueOf(x) => |x|
    case BytesValueOf(x) => |x|
    case StringList(x) => |x|
    case CanonicalJson(x) => |x| + 71
    case _ => 0
  }

  datatype Gathered = Gathered(fields: map<bytes, Exact>, retained: nat)

  function Gather(r: Registry, tuple: seq<FieldValue>): Result<Gathered, Code>
  {
    if tuple == [] then Ok(Gathered(map[], 0))
    else
      var last := |tuple| - 1;
      var before := Gather(r, tuple[..last]);
      if before.Err? then before else GatherOne(r, before.value, tuple[last])
  }

  function GatherOne(r: Registry, g: Gathered, f: FieldValue): Result<Gathered, Code>
  {
    if Resolve(r, f.id).Some? then Err(Resolve(r, f.id).value)
    else if f.id in g.fields then Err(DuplicateTupleField)
    else if ValueRefusal(r.definitions[f.id], f.value).Some? then Err(ValueRefusal(r.definitions[f.id], f.value).value)
    else if g.retained + ExactRetained(f.value) > MAX_CHOICE_TUPLE_BYTES then Err(InputLimitExceeded)
    else Ok(Gathered(g.fields[f.id := f.value], g.retained + ExactRetained(f.value)))
  }

  /** The values of the fields, in the given order. */
  function Project(order: seq<bytes>, fields: map<bytes, Exact>): (s: seq<FieldValue>)
    requires forall f <- order :: f in fields
    ensures |s| == |order| && forall k :: 0 <= k < |s| ==> s[k] == FieldValue(order[k], fields[order[k]])
  {
    seq(|order|, k requires 0 <= k < |order| => FieldValue(order[k], fields[order[k]]))
  }

  function Values(fields: seq<FieldValue>): (s: seq<Exact>)
    ensures |s| == |fields| && forall k :: 0 <= k < |s| ==> s[k] == fields[k].value
  {
    seq(|fields|, k requires 0 <= k < |fields| => fields[k].value)
  }

  function PortableFieldRefusal(r: Registry, f: FieldValue): Option<Code>
  {
    if f.value.CanonicalJson? && |f.value.json| > MAX_CANONICAL_JSON_BYTES then Some(InputLimitExceeded)
    else if !Valid(f.value) then Some(InvalidFieldType)
    else if f.id in r.definitions && r.definitions[f.id].objectOnly && f.value.CanonicalJson?
         && !(ParseBytes(f.value.json).Ok? && ParseBytes(f.value.json).value.Object?) then Some(InvalidFieldType)
    else None
  }

  function FirstPortableRefusal(r: Registry, fields: seq<FieldValue>, i: nat): Option<Code>
    requires i <= |fields|
    decreases |fields| - i
  {
    if i == |fields| then None
    else if PortableFieldRefusal(r, fields[i]).Some? then PortableFieldRefusal(r, fields[i])
    else FirstPortableRefusal(r, fields, i + 1)
  }

  /** `validatePortableValues` and `validatePortableExpectation` on the fields in registry order. */
  function PortableRefusal(r: Registry, fields: seq<FieldValue>): Option<Code>
  {
    if FirstPortableRefusal(r, fields, 0).Some? then FirstPortableRefusal(r, fields, 0)
    else if fields == [] || |fields| > MAX_TUPLE_FIELDS then Some(InvalidFieldType)
    else if !TupleFits(Values(fields)) then Some(InputLimitExceeded)
    else if !r.realizable(fields) then Some(InvalidFieldRegistry)
    else None
  }

  /** `validateTuple`. */
  function CompleteTuple(r: Registry, tuple: seq<FieldValue>): Result<map<bytes, Exact>, Code>
  {
    if |tuple| > |r.definitions| then Err(InputLimitExceeded)
    else
      var g := Gather(r, tuple);
      if g.Err? then Err(g.error)
      else if exists id <- r.ordered :: id !in g.value.fields then Err(IncompleteTuple)
      else if PortableRefusal(r, Project(r.ordered, g.value.fields)).Some?
      then Err(PortableRefusal(r, Project(r.ordered, g.value.fields)).value)
      else Ok(g.value.fields)
  }

  method ValidateCompleteTuple(r: Registry, tuple: seq<FieldValue>) returns (result: Result<map<bytes, Exact>, Code>)
    ensures result == CompleteTuple(r, tuple)
  {
    hide GatherOne, PortableRefusal;
    if |tuple| > |r.definitions| {
      return Err(InputLimitExceeded);
    }
    var g := Gathered(map[], 0);
    for i := 0 to |tuple|
      invariant Gather(r, tuple[..i]) == Ok(g)
      invariant forall k :: 0 <= k < i ==> Gather(r, tuple[..k]).Ok?
    {
      assert tuple[..i + 1][..i] == tuple[..i];
      var next := GatherOne(r, g, tuple[i]);
      if next.Err? {
        GatherStops(r, tuple, i + 1);
        return Err(next.error);
      }
      g := next.value;
    }
    assert tuple[..|tuple|] == tuple;
    if exists id <- r.ordered :: id !in g.fields {
      return Err(IncompleteTuple);
    }
    var refusal := PortableRefusal(r, Project(r.ordered, g.fields));
    if refusal.Some? {
      return Err(refusal.value);
    }
    return Ok(g.fields);
  }

  /** The first refusal is the refusal. */
  lemma {:induction false} GatherStops(r: Registry, tuple: seq<FieldValue>, k: nat)
    requires k <= |tuple| && Gather(r, tuple[..k]).Err?
    ensures Gather(r, tuple) == Gather(r, tuple[..k])
  {
    hide GatherOne;
    if k == |tuple| {
      assert tuple[..k] == tuple;
    } else {
      assert tuple[..|tuple| - 1][..k] == tuple[..k];
      GatherStops(r, tuple[..|tuple| - 1], k);
    }
  }

  /** What an accepted tuple says: exactly the registry's fields, with the values given. */
  lemma {:induction false} GatheredFields(r: Registry, tuple: seq<FieldValue>)
    requires Gather(r, tuple).Ok?
    ensures forall f <- tuple :: f.id in Gather(r, tuple).value.fields && Gather(r, tuple).value.fields[f.id] == f.value
    ensures forall id <- Gather(r, tuple).value.fields :: id in r.definitions
    ensures forall id <- Gather(r, tuple).value.fields :: FieldValue(id, Gather(r, tuple).value.fields[id]) in tuple
  {
    hide ValueRefusal, ExactRetained;
    if tuple != [] {
      var last := |tuple| - 1;
      GatheredFields(r, tuple[..last]);
      assert tuple == tuple[..last] + [tuple[last]];
    }
  }

  lemma CompleteTupleHolds(r: Registry, tuple: seq<FieldValue>)
    requires SoundRegistry(r) && CompleteTuple(r, tuple).Ok?
    ensures var m := CompleteTuple(r, tuple).value;
            && (forall id :: id in m <==> id in r.ordered)
            && (forall id <- m :: FieldValue(id, m[id]) in tuple)
            && (forall f <- tuple :: f.id in m && m[f.id] == f.value)
  {
    hide GatherOne, PortableRefusal;
    GatheredFields(r, tuple);
  }
}
