/** The durable wire form of exact values and tuples (internal/choice/session.go). Base64 is one-to-one
    on the strings its strict decoder accepts, so the wire's base64 members stand for their bytes. */
module TupleWire {
  import opened Bytes
  import opened Domain
  import opened Decimal
  import opened Utf8
  import opened CanonValue
  import opened CanonParse
  import opened PortableValue
  import opened ChoiceKeys
  import opened FieldRegistry

  datatype ValueWire = ValueWire(tag: bytes, text: bytes, boolean: bool, payload: bytes)

  datatype FieldWire = FieldWire(id: bytes, value: ValueWire)

  /** The value could have come from a constructor of the choice package. */
  predicate Constructed(v: Exact)
  {
    match v
    case IntegerValueOf(x) => |x| <= 32 && IntegerFromString(x).Ok?
    case StringValueOf(x) => |x| <= MAX_STRING_BYTES && ValidUtf8(x)
    case BytesValueOf(x) => |x| <= MAX_BYTES_VALUE_BYTES
    case StringList(x) => ListMembers(x).Some?
    case CanonicalJson(x) =>
      ParseBytes(x).Ok? && !ParseBytes(x).value.Null? && CanonicalBytes(ParseBytes(x).value) == Ok(x)
    case _ => true
  }

  function ToWire(v: Exact): ValueWire
  {
    match v
    case BooleanValue(b) => ValueWire(Tag(v), [], b, [])
    case IntegerValueOf(x) => ValueWire(Tag(v), x, false, [])
    case StringValueOf(x) => ValueWire(Tag(v), x, false, [])
    case BytesValueOf(x) => ValueWire(Tag(v), x, false, [])
    case StringList(x) => ValueWire(Tag(v), [], false, x)
    case CanonicalJson(x) => ValueWire(Tag(v), [], false, x)
    case _ => ValueWire(Tag(v), [], false, [])
  }

  datatype Kind = MissingKind | NullKind | BooleanKind | IntegerKind | StringKind | BytesKind | ListKind | JsonKind

  function KindOf(v: Exact): Kind
  {
    match v
    case Missing => MissingKind
    case NullValue => NullKind
    case BooleanValue(_) => BooleanKind
    case IntegerValueOf(_) => IntegerKind
    case StringValueOf(_) => StringKind
    case BytesValueOf(_) => BytesKind
    case StringList(_) => ListKind
    case CanonicalJson(_) => JsonKind
  }

  /** The closed sum of tags. */
  function ParseTag(tag: bytes): Option<Kind>
  {
    if tag == Ascii("MISSING") then Some(MissingKind)
    else if tag == Ascii("NULL") then Some(NullKind)
    else if tag == Ascii("STRING") then Some(StringKind)
    else if tag == Ascii("INTEGER") then Some(IntegerKind)
    else if tag == Ascii("BOOLEAN") then Some(BooleanKind)
    else if tag == Ascii("BYTES") then Some(BytesKind)
    else if tag == Ascii("ORDERED_STRING_LIST") then Some(ListKind)
    else if tag == Ascii("CANONICAL_JSON") then Some(JsonKind)
    else None
  }

  lemma TagRoundTrip(v: Exact, tag: bytes)
    ensures ParseTag(Tag(v)) == Some(KindOf(v))
    ensures ParseTag(tag) == Some(KindOf(v)) ==> tag == Tag(v)
  {
    FirstLetters();
    assert |Ascii("MISSING")| == 7 && |Ascii("BOOLEAN")| == 7 && |Ascii("INTEGER")| == 7;
  }

  /** `exactValueFromWire`: slots that the tag does not use have to be empty. */
  function FromWire(w: ValueWire): Option<Exact>
  {
    var textOnly, payloadOnly := !w.boolean && w.payload == [], w.text == [] && !w.boolean && w.payload != [];
    var v :=
      match ParseTag(w.tag)
      case None => None
      case Some(MissingKind) => if w.text == [] && textOnly then Some(Missing) else None
      case Some(NullKind) => if w.text == [] && textOnly then Some(NullValue) else None
      case Some(BooleanKind) => if w.text == [] && w.payload == [] then Some(BooleanValue(w.boolean)) else None
      case Some(StringKind) => if textOnly then Some(StringValueOf(w.text)) else None
      case Some(IntegerKind) => if textOnly then IntegerOf(w.text) else None
      case Some(BytesKind) => if textOnly then Some(BytesValueOf(w.text)) else None
      case Some(ListKind) => if payloadOnly then ListOf(w.payload) else None
      case Some(JsonKind) => if payloadOnly then Some(CanonicalJson(w.payload)) else None;
    if v.Some? && Constructed(v.value) then v else None
  }

  /** `IntegerValue` formats what it has parsed. */
  function IntegerOf(text: bytes): Option<Exact>
  {
    var parsed := IntegerFromString(text);
    if parsed.Ok? && parsed.value.Integer? && |text| <= 32 then Some(IntegerValueOf(FormatInt(parsed.value.integer))) else None
  }

  /** The list is taken apart and built again. */
  function ListOf(payload: bytes): Option<Exact>
  {
    var members := ListMembers(payload);
    if members.None? then None else Some(StringList(ListBytes(members.value)))
  }

  lemma IntegerUnchanged(text: bytes)
    ensures IntegerFromString(text).Ok? && |text| <= 32 ==> IntegerOf(text) == Some(IntegerValueOf(text))
    ensures IntegerOf(text).Some? ==> IntegerOf(text) == Some(IntegerValueOf(text)) && IntegerFromString(text).Ok?
  {
    hide FormatInt, IntegerLexeme, ParseInt64;
    IntegerLexemeExact(text);
  }

  lemma ListUnchanged(payload: bytes)
    ensures ListMembers(payload).Some? <==> ListOf(payload).Some?
    ensures ListOf(payload).Some? ==> ListOf(payload) == Some(StringList(payload))
  {
    hide ListMembers, ListBytes, GoodList;
    if ListMembers(payload).Some? {
      ListOfMembers(payload);
    }
  }

  /** A constructed value comes back from its wire. */
  lemma WireRoundTrip(v: Exact)
    requires Constructed(v)
    ensures FromWire(ToWire(v)) == Some(v)
  {
    hide ParseTag, Tag, IntegerFromString, ListMembers, ListOf, IntegerOf, ParseBytes, CanonicalBytes, ValidUtf8;
    TagRoundTrip(v, []);
    match v
    case IntegerValueOf(x) => IntegerUnchanged(x);
    case StringList(x) =>
      ListUnchanged(x);
      NotEmptyList(x);
    case CanonicalJson(x) => NotEmptyJson(x);
    case _ =>
  }

  lemma NotEmptyList(x: bytes)
    requires ListMembers(x).Some?
    ensures x != []
  {
  }

  lemma NotEmptyJson(x: bytes)
    requires ParseBytes(x).Ok? && CanonicalBytes(ParseBytes(x).value) == Ok(x)
    ensures x != []
  {
    hide ParseBytes;
  }

  /** A wire that is read is the wire of a constructed value: nothing else is accepted. */
  lemma WireExact(w: ValueWire)
    requires FromWire(w).Some?
    ensures ToWire(FromWire(w).value) == w && Constructed(FromWire(w).value)
  {
    hide ParseTag, Tag, IntegerFromString, ListMembers, ListOf, IntegerOf, ParseBytes, CanonicalBytes, ValidUtf8;
    IntegerUnchanged(w.text);
    ListUnchanged(w.payload);
    TagRoundTrip(FromWire(w).value, w.tag);
  }

  // ------------------------------------------------------------------ tuples

  /** `fieldOrder`: the index in the registry, or -1. */
  function OrderOf(ordered: seq<bytes>, id: bytes): (k: int)
    ensures -1 <= k < |ordered| && (k >= 0 ==> ordered[k] == id) && (k == -1 ==> id !in ordered)
  {
    if ordered == [] then -1
    else if ordered[0] == id then 0
    else
      var k := OrderOf(ordered[1..], id);
      if k == -1 then -1 else k + 1
  }

  /** The first `n` ids follow strict registry order. */
  predicate OrderedUpTo(ordered: seq<bytes>, ids: seq<bytes>, n: nat)
    requires n <= |ids|
  {
    && (forall k :: 0 <= k < n ==> OrderOf(ordered, ids[k]) >= 0)
    && (forall k :: 0 < k < n ==> OrderOf(ordered, ids[k - 1]) < OrderOf(ordered, ids[k]))
  }

  predicate Ordered(ordered: seq<bytes>, ids: seq<bytes>)
  {
    OrderedUpTo(ordered, ids, |ids|)
  }

  function WireIds(wire: seq<FieldWire>): (r: seq<bytes>)
    ensures |r| == |wire| && forall k :: 0 <= k < |r| ==> r[k] == wire[k].id
  {
    seq(|wire|, k requires 0 <= k < |wire| => wire[k].id)
  }

  function TupleIds(tuple: seq<FieldValue>): (r: seq<bytes>)
    ensures |r| == |tuple| && forall k :: 0 <= k < |r| ==> r[k] == tuple[k].id
  {
    seq(|tuple|, k requires 0 <= k < |tuple| => tuple[k].id)
  }

  method TupleToWire(ordered: seq<bytes>, tuple: seq<FieldValue>) returns (wire: Option<seq<FieldWire>>)
    ensures wire.Some? <==> Ordered(ordered, TupleIds(tuple))
    ensures wire.Some? ==> |wire.value| == |tuple|
    ensures wire.Some? ==> forall k :: 0 <= k < |tuple| ==> wire.value[k] == FieldWire(tuple[k].id, ToWire(tuple[k].value))
  {
    hide ToWire, OrderOf;
    var fields: seq<FieldWire> := [];
    var lastOrder := -1;
    for i := 0 to |tuple|
      invariant |fields| == i && forall k :: 0 <= k < i ==> fields[k] == FieldWire(tuple[k].id, ToWire(tuple[k].value))
      invariant OrderedUpTo(ordered, TupleIds(tuple), i)
      invariant lastOrder == if i == 0 then -1 else OrderOf(ordered, tuple[i - 1].id)
    {
      var order := OrderOf(ordered, tuple[i].id);
      if order < 0 || order <= lastOrder {
        OutOfOrder(ordered, TupleIds(tuple), i);
        return None;
      }
      lastOrder := order;
      fields := fields + [FieldWire(tuple[i].id, ToWire(tuple[i].value))];
    }
    return Some(fields);
  }

  lemma OutOfOrder(ordered: seq<bytes>, ids: seq<bytes>, i: nat)
    requires i < |ids|
    requires OrderOf(ordered, ids[i]) < 0 || (i > 0 && OrderOf(ordered, ids[i]) <= OrderOf(ordered, ids[i - 1]))
    ensures !Ordered(ordered, ids)
  {
  }

  lemma NoneInOrder(ordered: seq<bytes>, ids: seq<bytes>)
    ensures OrderedUpTo(ordered, ids, 0)
  {
  }

  lemma NextInOrder(ordered: seq<bytes>, ids: seq<bytes>, i: nat)
    requires i < |ids| && OrderedUpTo(ordered, ids, i) && OrderOf(ordered, ids[i]) >= 0
    requires i > 0 ==> OrderOf(ordered, ids[i - 1]) < OrderOf(ordered, ids[i])
    ensures OrderedUpTo(ordered, ids, i + 1)
  {
    hide OrderOf;
  }

  method TupleFromWire(ordered: seq<bytes>, wire: seq<FieldWire>) returns (tuple: Option<seq<FieldValue>>)
    ensures tuple.Some? <==>
      Ordered(ordered, WireIds(wire)) && forall k :: 0 <= k < |wire| ==> wire[k].id != [] && FromWire(wire[k].value).Some?
    ensures tuple.Some? ==> |tuple.value| == |wire|
    ensures tuple.Some? ==> forall k :: 0 <= k < |wire| ==>
      FromWire(wire[k].value) == Some(tuple.value[k].value) && tuple.value[k].id == wire[k].id
  {
    hide FromWire, OrderOf, OrderedUpTo;
    ghost var ids := WireIds(wire);
    NoneInOrder(ordered, ids);
    var fields: seq<FieldValue> := [];
    var lastOrder := -1;
    for i := 0 to |wire|
      invariant |fields| == i
      invariant forall k :: 0 <= k < i ==> FromWire(wire[k].value) == Some(fields[k].value) && fields[k].id == wire[k].id != []
      invariant OrderedUpTo(ordered, ids, i)
      invariant lastOrder == if i == 0 then -1 else OrderOf(ordered, wire[i - 1].id)
    {
      var field, order := ReadField(ordered, wire[i], lastOrder);
      if field.None? {
        if OrderOf(ordered, wire[i].id) < 0 || OrderOf(ordered, wire[i].id) <= lastOrder {
          OutOfOrder(ordered, ids, i);
        }
        return None;
      }
      NextInOrder(ordered, ids, i);
      lastOrder := order;
      fields := fields + [field.value];
    }
    return Some(fields);
  }

  /** One field behind the last one read. */
  method ReadField(ordered: seq<bytes>, f: FieldWire, lastOrder: int) returns (field: Option<FieldValue>, order: int)
    ensures order == OrderOf(ordered, f.id)
    ensures field.Some? <==> f.id != [] && order >= 0 && order > lastOrder && FromWire(f.value).Some?
    ensures field.Some? ==> FromWire(f.value) == Some(field.value.value) && field.value.id == f.id
  {
    hide FromWire, OrderOf;
    order := OrderOf(ordered, f.id);
    if f.id == [] || order < 0 || order <= lastOrder {
      return None, order;
    }
    var value := FromWire(f.value);
    if value.None? {
      return None, order;
    }
    return Some(FieldValue(f.id, value.value)), order;
  }

  /** Writing a tuple of constructed values in registry order and reading it back gives the tuple. */
  method TupleRoundTrip(ordered: seq<bytes>, tuple: seq<FieldValue>) returns (again: Option<seq<FieldValue>>)
    requires Ordered(ordered, TupleIds(tuple)) && [] !in ordered && forall f <- tuple :: Constructed(f.value)
    ensures again == Some(tuple)
  {
    hide Constructed, ToWire, FromWire;
    var wire := TupleToWire(ordered, tuple);
    assert WireIds(wire.value) == TupleIds(tuple);
    forall k | 0 <= k < |tuple| ensures FromWire(wire.value[k].value) == Some(tuple[k].value) && tuple[k].id != [] {
      assert tuple[k] in tuple && OrderOf(ordered, TupleIds(tuple)[k]) >= 0;
      WireRoundTrip(tuple[k].value);
    }
    again := TupleFromWire(ordered, wire.value);
    assert again.value == tuple;
  }
}
