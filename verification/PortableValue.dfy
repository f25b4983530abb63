/** Portable exact values: their constructors, their identity bytes and the tuple ceilings. */
module PortableValue {
  import opened Bytes
  import opened Domain
  import opened CanonLimits
  import opened Decimal
  import opened Utf8
  import opened CanonValue
  import opened CanonParse
  import opened CanonMeasures
  import opened CanonTokens
  import opened CanonTheorems
  import opened CanonInjective

  const MAX_STRING_BYTES := 0x1_0000
  const MAX_BYTES_VALUE_BYTES := 0x1_0000
  const MAX_LIST_MEMBERS := 256
  const MAX_LIST_MEMBER_BYTES := 0x1_0000
  const MAX_LIST_AGGREGATE_BYTES := 0x1_0000
  const MAX_LIST_CANONICAL_BYTES := 0x1_0000
  const MAX_CANONICAL_JSON_BYTES := 0x1_0000
  const MAX_TUPLE_FIELDS := 64
  const MAX_TUPLE_RETAINED_BYTES := 0x4_0000
  const MAX_TUPLE_ENCODED_BYTES := 0x6_0000
  const FIELD_OVERHEAD_BYTES := 512

  datatype PortableError = InvalidTag | BadUtf8 | InvalidInteger | NoncanonicalJson | LimitExceeded | InvalidTuple

  datatype Exact =
    | Missing
    | NullValue
    | BooleanValue(boolean: bool)
    | IntegerValueOf(integer: bytes)
    | StringValueOf(text: bytes)
    | BytesValueOf(bytes: bytes)
    | StringList(canonical: bytes)
    | CanonicalJson(json: bytes)

  // ------------------------------------------------------------ string lists

  function Texts(members: seq<bytes>): (r: seq<Value>)
    ensures |r| == |members| && forall k :: 0 <= k < |r| ==> r[k] == Text(members[k])
  {
    seq(|members|, k requires 0 <= k < |members| => Text(members[k]))
  }

  function Total(members: seq<bytes>): nat
  {
    if members == [] then 0 else Total(members[..|members| - 1]) + |members[|members| - 1]|
  }

  /** The canonical JSON array of the members. */
  function ListBytes(members: seq<bytes>): bytes
  {
    Encode(Array(Texts(members)))
  }

  predicate GoodList(members: seq<bytes>)
  {
    && |members| <= MAX_LIST_MEMBERS && Total(members) <= MAX_LIST_AGGREGATE_BYTES
    && (forall m <- members :: ValidUtf8(m))
    && |ListBytes(members)| <= MAX_LIST_CANONICAL_BYTES
  }

  lemma {:induction false} TotalPrefix(members: seq<bytes>, k: nat)
    requires k <= |members|
    ensures Total(members[..k]) <= Total(members)
    ensures forall i :: 0 <= i < k ==> |members[i]| <= Total(members)
  {
    if k == |members| {
      assert members[..k] == members;
      if k > 0 {
        TotalPrefix(members[..k - 1], k - 1);
        assert forall i :: 0 <= i < k - 1 ==> members[..k - 1][i] == members[i];
      }
    } else {
      TotalPrefix(members[..|members| - 1], k);
      assert members[..|members| - 1][..k] == members[..k];
      assert forall i :: 0 <= i < k ==> members[..|members| - 1][i] == members[i];
    }
  }

  lemma {:induction false} TextsMeasure(members: seq<bytes>, k: nat)
    requires k <= |members|
    ensures NodesElems(Texts(members), k) == |members| - k
    ensures StringBytesElems(Texts(members), k) + Total(members[..k]) == Total(members)
    ensures HeightElems(Texts(members), k) <= 1
    ensures |ElemTokens(Texts(members), k)| <= 2 * (|members| - k)
    decreases |members| - k
  {
    if k < |members| {
      TextsMeasure(members, k + 1);
      assert members[..k + 1][..k] == members[..k] && members[..k + 1][k] == members[k];
    } else {
      assert members[..k] == members;
    }
  }

  /** Within the list ceilings the array prints, and its encoding parses back. */
  lemma ListPrintsAndParses(members: seq<bytes>)
    requires |members| <= MAX_LIST_MEMBERS && Total(members) <= MAX_LIST_AGGREGATE_BYTES
    requires forall m <- members :: ValidUtf8(m)
    ensures CanonicalBytes(Array(Texts(members))) == Ok(ListBytes(members))
    ensures NewArray(Texts(members)) == Ok(Array(Texts(members)))
    ensures |ListBytes(members)| <= MAX_LIST_CANONICAL_BYTES ==> ParseBytes(ListBytes(members)) == Ok(Array(Texts(members)))
  {
    hide ValidUtf8, ParseBytes, CanonicalBytes, Encode, ElemTokens, HeightElems, NodesElems, StringBytesElems;
    var v := Array(Texts(members));
    TextsMeasure(members, 0);
    assert members[..0] == [];
    assert forall k :: 0 <= k < |members| ==> members[k] in members && WellFormed(Texts(members)[k]);
    PrintableExactly(v);
    PrintsItsEncoding(v);
    PrintThenParse(v);
  }

  lemma PrintsItsEncoding(v: Value)
    requires Printable(v)
    ensures CanonicalBytes(v) == Ok(Encode(v))
  {
    hide Charge, Encode;
  }

  /** `canonicalStringListMembers`: the members of one exact canonical string array. */
  function ListMembers(exact: bytes): Option<seq<bytes>>
  {
    if exact == [] || |exact| > MAX_LIST_CANONICAL_BYTES || ParseBytes(exact).Err? then None
    else
      var v := ParseBytes(exact).value;
      if CanonicalBytes(v) != Ok(exact) || !v.Array? || |v.elems| > MAX_LIST_MEMBERS then None
      else if !AllTexts(v.elems) || Total(TextsOf(v.elems)) > MAX_LIST_AGGREGATE_BYTES then None
      else Some(TextsOf(v.elems))
  }

  predicate AllTexts(elems: seq<Value>)
  {
    forall k :: 0 <= k < |elems| ==> elems[k].Text?
  }

  function TextsOf(elems: seq<Value>): (r: seq<bytes>)
    ensures |r| == |elems| && forall k :: 0 <= k < |r| ==> r[k] == if elems[k].Text? then elems[k].text else []
  {
    seq(|elems|, k requires 0 <= k < |elems| => if elems[k].Text? then elems[k].text else [])
  }

  method CanonicalStringListMembers(exact: bytes) returns (members: Option<seq<bytes>>)
    ensures members == ListMembers(exact)
  {
    hide ParseBytes, CanonicalBytes;
    if |exact| == 0 || |exact| > MAX_LIST_CANONICAL_BYTES {
      return None;
    }
    var parsed := Parse(exact);
    if parsed.Err? {
      return None;
    }
    var checked := CanonicalChecked(parsed.value);
    if checked != Ok(exact) || !parsed.value.Array? || |parsed.value.elems| > MAX_LIST_MEMBERS {
      return None;
    }
    members := CollectTexts(parsed.value.elems);
  }

  /** The loop over the parsed elements. */
  method CollectTexts(elems: seq<Value>) returns (members: Option<seq<bytes>>)
    ensures members == if AllTexts(elems) && Total(TextsOf(elems)) <= MAX_LIST_AGGREGATE_BYTES then Some(TextsOf(elems)) else None
  {
    var result: seq<bytes> := [];
    var retained := 0;
    ghost var texts := TextsOf(elems);
    hide Total;
    EmptyTotal();
    for index := 0 to |elems|
      invariant result == texts[..index] && retained == Total(texts[..index]) <= MAX_LIST_AGGREGATE_BYTES
      invariant forall k :: 0 <= k < index ==> elems[k].Text?
    {
      var element := elems[index];
      if !element.Text? {
        return None;
      }
      assert texts[index] == element.text;
      OneMoreText(texts, index);
      if |element.text| > MAX_LIST_MEMBER_BYTES {
        return None;
      }
      retained := retained + |element.text|;
      result := result + [element.text];
      if retained > MAX_LIST_AGGREGATE_BYTES {
        return None;
      }
    }
    assert result == texts && texts[..|texts|] == texts;
    return Some(result);
  }

  lemma EmptyTotal()
    ensures Total([]) == 0
  {
  }

  lemma OneMoreText(texts: seq<bytes>, index: nat)
    requires index < |texts|
    ensures texts[..index + 1] == texts[..index] + [texts[index]]
    ensures Total(texts[..index + 1]) == Total(texts[..index]) + |texts[index]| <= Total(texts)
  {
    assert texts[..index + 1][..index] == texts[..index];
    TotalPrefix(texts, index + 1);
  }

  /** `OrderedStringList` on an explicit list. */
  method OrderedStringList(members: seq<bytes>) returns (result: Result<Exact, PortableError>)
    ensures result.Ok? <==> GoodList(members)
    ensures result.Ok? ==> result.value == StringList(ListBytes(members))
    ensures result == Err(BadUtf8) ==> exists m <- members :: !ValidUtf8(m)
  {
    hide ValidUtf8, ParseBytes, CanonicalBytes, Encode;
    if |members| > MAX_LIST_MEMBERS {
      return Err(LimitExceeded);
    }
    var retained := 0;
    for index := 0 to |members|
      invariant retained == Total(members[..index]) <= MAX_LIST_AGGREGATE_BYTES
      invariant forall k :: 0 <= k < index ==> ValidUtf8(members[k])
    {
      TotalPrefix(members, index + 1);
      assert members[..index + 1][..index] == members[..index] && members[index] in members;
      if |members[index]| > MAX_LIST_MEMBER_BYTES {
        return Err(LimitExceeded);
      }
      if !ValidUtf8(members[index]) {
        return Err(BadUtf8);
      }
      retained := retained + |members[index]|;
      if retained > MAX_LIST_AGGREGATE_BYTES {
        return Err(LimitExceeded);
      }
    }
    assert members[..|members|] == members;
    result := CanonicalStringList(members);
  }

  /** `canonicalStringList`, with the encoded-byte ceiling of its caller. */
  method CanonicalStringList(members: seq<bytes>) returns (result: Result<Exact, PortableError>)
    requires |members| <= MAX_LIST_MEMBERS && Total(members) <= MAX_LIST_AGGREGATE_BYTES
    requires forall m <- members :: ValidUtf8(m)
    ensures result.Ok? <==> |ListBytes(members)| <= MAX_LIST_CANONICAL_BYTES
    ensures result.Ok? ==> result.value == StringList(ListBytes(members))
    ensures result.Err? ==> result.error == LimitExceeded
  {
    hide ValidUtf8, ParseBytes, CanonicalBytes, Encode, NewArray;
    var elements: seq<Value> := [];
    TotalPrefix(members, |members|);
    for index := 0 to |members|
      invariant elements == Texts(members)[..index]
    {
      var element := StringValue(members[index]);
      assert members[index] in members;
      if element.Err? {
        return Err(LimitExceeded);
      }
      elements := elements + [element.value];
    }
    assert elements == Texts(members);
    ListPrintsAndParses(members);
    var list := MakeArray(elements);
    if list.Err? {
      return Err(LimitExceeded);
    }
    var exact := CanonicalChecked(list.value);
    if exact.Err? || |exact.value| > MAX_LIST_CANONICAL_BYTES {
      return Err(LimitExceeded);
    }
    return Ok(StringList(exact.value));
  }

  /** The members of a list are read back from its bytes. */
  lemma MembersOfList(members: seq<bytes>)
    requires GoodList(members)
    ensures ListMembers(ListBytes(members)) == Some(members)
  {
    hide ParseBytes, CanonicalBytes, NewArray;
    ListPrintsAndParses(members);
    assert ListBytes(members) != [];
    assert TextsOf(Texts(members)) == members;
  }

  /** Bytes with members are the bytes of their members, and those form a list. */
  lemma ListOfMembers(exact: bytes)
    requires ListMembers(exact).Some?
    ensures GoodList(ListMembers(exact).value) && ListBytes(ListMembers(exact).value) == exact
  {
    hide ParseBytes, CanonicalBytes, Encode, ValidUtf8, TokensOf, Height;
    var v := ParseBytes(exact).value;
    var members := ListMembers(exact).value;
    AcceptedValue(exact);
    PrintsItsEncoding(v);
    assert forall k :: 0 <= k < |v.elems| ==> v.elems[k] in v.elems && WellFormed(v.elems[k]);
    assert Texts(members) == v.elems;
  }

  lemma NoListWithoutMembers(exact: bytes)
    requires ListMembers(exact).None?
    ensures !exists members :: GoodList(members) && ListBytes(members) == exact
  {
    hide ListMembers, GoodList, ListBytes;
    if members :| GoodList(members) && ListBytes(members) == exact {
      MembersOfList(members);
    }
  }

  /** `OrderedStringListFromCanonical` accepts exactly the bytes `OrderedStringList` produces, and
      gives back the same value. */
  method OrderedStringListFromCanonical(exact: bytes) returns (result: Result<Exact, PortableError>)
    ensures result.Ok? <==> exists members :: GoodList(members) && ListBytes(members) == exact
    ensures result.Ok? ==> result.value == StringList(exact)
  {
    hide ListMembers, GoodList, ListBytes;
    var members := CanonicalStringListMembers(exact);
    if members.None? {
      NoListWithoutMembers(exact);
      return Err(InvalidTuple);
    }
    ListOfMembers(exact);
    var rebuilt := OrderedStringList(members.value);
    if rebuilt.Err? || rebuilt.value.canonical != exact {
      return Err(InvalidTuple);
    }
    return rebuilt;
  }

  // -------------------------------------------------------- other constructors

  /** `Integer`. */
  function IntegerExact(canonical: bytes): Result<Exact, PortableError>
  {
    if |canonical| > 32 then Err(LimitExceeded)
    else if !ValidUtf8(canonical) then Err(BadUtf8)
    else
      match IntegerFromString(canonical)
      case Err(_) => Err(InvalidInteger)
      case Ok(v) => if v.Integer? && FormatInt(v.integer) == canonical then Ok(IntegerValueOf(canonical)) else Err(InvalidInteger)
  }

  /** `String`. */
  function StringExact(text: bytes): Result<Exact, PortableError>
  {
    if |text| > MAX_STRING_BYTES then Err(LimitExceeded)
    else if !ValidUtf8(text) then Err(BadUtf8)
    else Ok(StringValueOf(text))
  }

  /** `CanonicalJSON`: exact canonical bytes only. */
  function CanonicalJsonExact(exact: bytes): Result<Exact, PortableError>
  {
    if exact == [] then Err(NoncanonicalJson)
    else if |exact| > MAX_CANONICAL_JSON_BYTES then Err(LimitExceeded)
    else if ParseBytes(exact).Err? || CanonicalBytes(ParseBytes(exact).value) != Ok(exact) then Err(NoncanonicalJson)
    else Ok(CanonicalJson(exact))
  }

  /** `Valid`: the value could have come from a constructor. */
  predicate Valid(v: Exact)
  {
    match v
    case Missing | NullValue | BooleanValue(_) => true
    case IntegerValueOf(integer) => IntegerExact(integer).Ok?
    case StringValueOf(text) => StringExact(text).Ok?
    case BytesValueOf(b) => |b| <= MAX_BYTES_VALUE_BYTES
    case StringList(canonical) => ListMembers(canonical).Some?
    case CanonicalJson(json) => CanonicalJsonExact(json).Ok?
  }

  /** The second check in `Valid`, rebuilding the list, never fails. */
  lemma ValidListRebuilds(canonical: bytes)
    requires Valid(StringList(canonical))
    ensures exists members :: GoodList(members) && StringList(canonical) == StringList(ListBytes(members))
  {
    hide GoodList, ListBytes;
    ListOfMembers(canonical);
  }

  lemma AcceptedIsShort(raw: bytes)
    requires IntegerLexeme(raw).Ok?
    ensures |raw| <= 17
  {
  }

  /** An accepted integer spelling is the shortest decimal of a safe integer. */
  lemma IntegerSpellings(canonical: bytes)
    ensures IntegerExact(canonical).Ok? <==> exists n :: SafeInteger(n) && FormatInt(n) == canonical
  {
    hide FormatInt, IntegerLexeme, ParseInt64, ValidUtf8;
    if n :| SafeInteger(n) && FormatInt(n) == canonical {
      FormatIntAccepted(n);
      IntegersAreValid(n);
      AcceptedIsShort(canonical);
    }
    if IntegerExact(canonical).Ok? {
      var n := IntegerFromString(canonical).value.integer;
      IntegerLexemeExact(canonical);
    }
  }

  // ----------------------------------------------------------------- identity

  function Tag(v: Exact): bytes
  {
    match v
    case Missing => Ascii("MISSING")
    case NullValue => Ascii("NULL")
    case BooleanValue(_) => Ascii("BOOLEAN")
    case IntegerValueOf(_) => Ascii("INTEGER")
    case StringValueOf(_) => Ascii("STRING")
    case BytesValueOf(_) => Ascii("BYTES")
    case StringList(_) => Ascii("ORDERED_STRING_LIST")
    case CanonicalJson(_) => Ascii("CANONICAL_JSON")
  }

  /** `width` bytes, most significant first. */
  function BigEndian(n: nat, width: nat): (r: bytes)
    ensures |r| == width
  {
    if width == 0 then [] else BigEndian(n / 256, width - 1) + [n % 256]
  }

  /** `appendLength`: an eight-byte length and the payload. */
  function Prefixed(payload: bytes): bytes
  {
    BigEndian(|payload|, 8) + payload
  }

  function Payload(v: Exact): bytes
  {
    match v
    case Missing | NullValue => []
    case BooleanValue(b) => if b then [1] else [0]
    case IntegerValueOf(integer) => Prefixed(integer)
    case StringValueOf(text) => Prefixed(text)
    case BytesValueOf(b) => Prefixed(b)
    case StringList(canonical) => Prefixed(canonical)
    case CanonicalJson(json) => Prefixed(json)
  }

  /** `IdentityBytes`; nothing for an invalid value. */
  function IdentityBytes(v: Exact): bytes
  {
    if Valid(v) then Prefixed(Tag(v)) + Payload(v) else []
  }

  /** `Equal`: the same tag and the same payload. */
  predicate Equal(a: Exact, b: Exact)
  {
    match (a, b)
    case (Missing, Missing) => true
    case (NullValue, NullValue) => true
    case (BooleanValue(x), BooleanValue(y)) => x == y
    case (IntegerValueOf(x), IntegerValueOf(y)) => x == y
    case (StringValueOf(x), StringValueOf(y)) => x == y
    case (BytesValueOf(x), BytesValueOf(y)) => x == y
    case (StringList(x), StringList(y)) => x == y
    case (CanonicalJson(x), CanonicalJson(y)) => x == y
    case _ => false
  }

  function Power256(width: nat): (p: nat)
    ensures p > 0
  {
    if width == 0 then 1 else 256 * Power256(width - 1)
  }

  lemma {:induction false} BigEndianInjective(m: nat, n: nat, width: nat)
    requires m < Power256(width) && n < Power256(width) && BigEndian(m, width) == BigEndian(n, width)
    ensures m == n
  {
    if width > 0 {
      var a, b := BigEndian(m, width), BigEndian(n, width);
      assert a[..width - 1] == BigEndian(m / 256, width - 1) && b[..width - 1] == BigEndian(n / 256, width - 1);
      assert a[width - 1] == m % 256 && b[width - 1] == n % 256;
      BigEndianInjective(m / 256, n / 256, width - 1);
    }
  }

  /** Length prefixes make concatenation unambiguous. */
  lemma PrefixedUnique(p: bytes, x: bytes, q: bytes, y: bytes)
    requires Prefixed(p) + x == Prefixed(q) + y && |p| < 0x1_0000_0000 && |q| < 0x1_0000_0000
    ensures p == q && x == y
  {
    var s := Prefixed(p) + x;
    ConcatAssoc(BigEndian(|p|, 8), p, x);
    ConcatAssoc(BigEndian(|q|, 8), q, y);
    assert s[..8] == BigEndian(|p|, 8) && s[..8] == BigEndian(|q|, 8);
    assert Power256(8) > 0x1_0000_0000 by {
      assert Power256(4) == 256 * (256 * (256 * (256 * Power256(0))));
      assert Power256(8) == 256 * (256 * (256 * (256 * Power256(4))));
    }
    BigEndianInjective(|p|, |q|, 8);
    assert s[8..] == p + x && s[8..] == q + y;
    assert (p + x)[..|p|] == p && (q + y)[..|q|] == q;
    assert (p + x)[|p|..] == x && (q + y)[|q|..] == y;
  }

  lemma PayloadIsBounded(v: Exact)
    requires Valid(v)
    ensures match v
      case IntegerValueOf(x) => |x| < 0x1_0000_0000
      case StringValueOf(x) => |x| < 0x1_0000_0000
      case BytesValueOf(x) => |x| < 0x1_0000_0000
      case StringList(x) => |x| < 0x1_0000_0000
      case CanonicalJson(x) => |x| < 0x1_0000_0000
      case _ => true
  {
    hide ParseBytes, CanonicalBytes, IntegerFromString, ValidUtf8;
  }

  lemma TagsDiffer(a: Exact, b: Exact)
    requires Tag(a) == Tag(b)
    ensures a.Missing? <==> b.Missing?
    ensures a.NullValue? <==> b.NullValue?
    ensures a.BooleanValue? <==> b.BooleanValue?
    ensures a.IntegerValueOf? <==> b.IntegerValueOf?
    ensures a.StringValueOf? <==> b.StringValueOf?
    ensures a.BytesValueOf? <==> b.BytesValueOf?
    ensures a.StringList? <==> b.StringList?
    ensures a.CanonicalJson? <==> b.CanonicalJson?
  {
    FirstLetters();
    assert |Tag(a)| == |Tag(b)| && Tag(a)[0] == Tag(b)[0];
  }

  lemma FirstLetters()
    ensures Ascii("MISSING")[0] == 0x4D && Ascii("BOOLEAN")[0] == 0x42 && Ascii("INTEGER")[0] == 0x49
  {
    assert 'M' as int == 0x4D && 'B' as int == 0x42 && 'I' as int == 0x49;
  }

  /** The identity bytes of two valid values agree exactly when the values are equal. */
  lemma IdentityInjective(a: Exact, b: Exact)
    requires Valid(a) && Valid(b)
    ensures IdentityBytes(a) == IdentityBytes(b) <==> Equal(a, b)
    ensures Equal(a, b) <==> a == b
  {
    hide Valid, Prefixed, Tag;
    if IdentityBytes(a) == IdentityBytes(b) {
      TagLengths(a);
      TagLengths(b);
      PrefixedUnique(Tag(a), Payload(a), Tag(b), Payload(b));
      TagsDiffer(a, b);
      PayloadIsBounded(a);
      PayloadIsBounded(b);
      SamePayload(a, b);
    }
  }

  lemma TagLengths(v: Exact)
    ensures |Tag(v)| < 0x1_0000_0000
  {
  }

  lemma SamePayload(a: Exact, b: Exact)
    requires Payload(a) == Payload(b) && Tag(a) == Tag(b) && Valid(a) && Valid(b)
    ensures Equal(a, b)
  {
    hide Valid, Prefixed;
    TagsDiffer(a, b);
    PayloadIsBounded(a);
    PayloadIsBounded(b);
    match (a, b)
    case (IntegerValueOf(x), IntegerValueOf(y)) => SamePrefixed(x, y);
    case (StringValueOf(x), StringValueOf(y)) => SamePrefixed(x, y);
    case (BytesValueOf(x), BytesValueOf(y)) => SamePrefixed(x, y);
    case (StringList(x), StringList(y)) => SamePrefixed(x, y);
    case (CanonicalJson(x), CanonicalJson(y)) => SamePrefixed(x, y);
    case _ =>
  }

  lemma SamePrefixed(x: bytes, y: bytes)
    requires Prefixed(x) == Prefixed(y) && |x| < 0x1_0000_0000 && |y| < 0x1_0000_0000
    ensures x == y
  {
    assert Prefixed(x) + [] == Prefixed(x) && Prefixed(y) + [] == Prefixed(y);
    PrefixedUnique(x, [], y, []);
  }

  // -------------------------------------------------------------- tuple ceilings

  function RetainedBytes(v: Exact): nat
  {
    |Tag(v)| + match v
      case IntegerValueOf(x) => |x|
      case StringValueOf(x) => |x|
      case BytesValueOf(x) => |x|
      case StringList(x) => |x|
      case CanonicalJson(x) => |x|
      case _ => 0
  }

  /** Padded base64 takes four characters for every three bytes begun. */
  function Base64Length(n: nat): nat
  {
    (n + 2) / 3 * 4
  }

  /** `CompatibilityEncodedBytes` of a valid value. */
  function EncodedBytes(v: Exact): nat
  {
    match v
    case Missing | NullValue => 0
    case BooleanValue(_) => 5
    case IntegerValueOf(x) => |x| + 2
    case StringValueOf(x) => |Quote(x)|
    case BytesValueOf(x) => Base64Length(|x|) + 2
    case StringList(x) => Base64Length(|x|) + 2
    case CanonicalJson(x) => Base64Length(|x|) + 2
  }

  function Retained(values: seq<Exact>): nat
  {
    if values == [] then 0 else Retained(values[..|values| - 1]) + RetainedBytes(values[|values| - 1])
  }

  function Encoded(values: seq<Exact>): nat
  {
    if values == [] then 0
    else Encoded(values[..|values| - 1]) + FIELD_OVERHEAD_BYTES + EncodedBytes(values[|values| - 1])
  }

  /** The closed tuple profile: sums over all fields, so their order does not matter. */
  predicate TupleFits(values: seq<Exact>)
  {
    && 1 <= |values| <= MAX_TUPLE_FIELDS && (forall v <- values :: Valid(v))
    && Retained(values) <= MAX_TUPLE_RETAINED_BYTES && Encoded(values) <= MAX_TUPLE_ENCODED_BYTES
  }

  lemma {:induction false} SumsGrow(values: seq<Exact>, k: nat)
    requires k <= |values|
    ensures Retained(values[..k]) <= Retained(values) && Encoded(values[..k]) <= Encoded(values)
  {
    hide RetainedBytes, EncodedBytes;
    if k == |values| {
      assert values[..k] == values;
    } else {
      SumsGrow(values[..|values| - 1], k);
      assert values[..|values| - 1][..k] == values[..k];
    }
  }

  /** `ValidateTuple`, whose early stops refuse nothing that the final sums would admit. */
  method ValidateTuple(values: seq<Exact>) returns (refusal: Option<PortableError>)
    ensures refusal.None? <==> TupleFits(values)
  {
    hide Valid, RetainedBytes, EncodedBytes;
    if |values| == 0 || |values| > MAX_TUPLE_FIELDS {
      return Some(InvalidTuple);
    }
    var retained, encoded := 0, 0;
    for i := 0 to |values|
      invariant retained == Retained(values[..i]) <= MAX_TUPLE_RETAINED_BYTES
      invariant encoded == Encoded(values[..i]) <= MAX_TUPLE_ENCODED_BYTES
      invariant forall k :: 0 <= k < i ==> Valid(values[k])
    {
      assert values[..i + 1][..i] == values[..i] && values[i] in values;
      SumsGrow(values, i + 1);
      if !Valid(values[i]) {
        return Some(InvalidTag);
      }
      retained := retained + RetainedBytes(values[i]);
      if retained > MAX_TUPLE_RETAINED_BYTES {
        return Some(LimitExceeded);
      }
      encoded := encoded + FIELD_OVERHEAD_BYTES + EncodedBytes(values[i]);
      if encoded > MAX_TUPLE_ENCODED_BYTES {
        return Some(LimitExceeded);
      }
    }
    assert values[..|values|] == values;
    return None;
  }
}
