/** The recursive-descent parser over tokens, and the value constructors (parse.go, value.go). */
module CanonParse {
  import opened Bytes
  import opened Sorting
  import opened CanonLimits
  import opened Decimal
  import opened Utf8
  import opened CanonValue
  import opened CanonScan

  // ---------------------------------------------------------------- constructors

  function IntegerValue(n: int): Checked<Value>
  {
    if SafeInteger(n) then Ok(Integer(n)) else Err(UnsafeInteger)
  }

  function IntegerFromString(canonical: bytes): Checked<Value>
  {
    if !ValidUtf8(canonical) then Err(InvalidUtf8)
    else
      match IntegerLexeme(canonical)
      case Err(e) => Err(e)
      case Ok(_) =>
        match ParseInt64(canonical)
        case None => Err(UnsafeInteger)
        case Some(n) => Ok(Integer(n))
  }

  function StringValue(value: bytes): Checked<Value>
  {
    if !ValidUtf8(value) then Err(InvalidUtf8)
    else if |value| > MAX_TYPED_STRING_BYTES then Err(TypedByteLimit)
    else Ok(Text(value))
  }

  function NewArray(values: seq<Value>): Checked<Value>
  {
    if |values| > MAX_CONTAINER_MEMBERS then Err(MemberLimit)
    else
      match CanonicalBytes(Array(values))
      case Err(e) => Err(e)
      case Ok(_) => Ok(Array(values))
  }

  function AdmitName(seen: set<bytes>, name: bytes): Checked<()>
  {
    if !ValidUtf8(name) then Err(InvalidUtf8) else if name in seen then Err(DuplicateKey) else Ok(())
  }

  function AdmitNames(members: seq<Member>, k: nat, seen: set<bytes>): Checked<()>
    requires k <= |members|
    decreases |members| - k
  {
    if k == |members| then Ok(())
    else if AdmitName(seen, members[k].name).Err? then AdmitName(seen, members[k].name)
    else AdmitNames(members, k + 1, seen + {members[k].name})
  }

  function OrderedObject(members: seq<Member>): Value
  {
    Object(SortBy(members, MemberName))
  }

  function NewObject(members: seq<Member>): Checked<Value>
  {
    if |members| > MAX_CONTAINER_MEMBERS then Err(MemberLimit)
    else
      match AdmitNames(members, 0, {})
      case Err(e) => Err(e)
      case Ok(_) =>
        match CanonicalBytes(OrderedObject(members))
        case Err(e) => Err(e)
        case Ok(_) => Ok(OrderedObject(members))
  }

  method MakeArray(values: seq<Value>) returns (r: Checked<Value>)
    ensures r == NewArray(values)
  {
    if |values| > MAX_CONTAINER_MEMBERS {
      return Err(MemberLimit);
    }
    var canonical := CanonicalChecked(Array(values));
    if canonical.Err? {
      return Err(canonical.error);
    }
    return Ok(Array(values));
  }

  method MakeObject(members: seq<Member>) returns (r: Checked<Value>)
    ensures r == NewObject(members)
  {
    if |members| > MAX_CONTAINER_MEMBERS {
      return Err(MemberLimit);
    }
    var seen: set<bytes> := {};
    var index := 0;
    while index < |members|
      invariant 0 <= index <= |members|
      invariant AdmitNames(members, 0, {}) == AdmitNames(members, index, seen)
    {
      var admitted := AdmitName(seen, members[index].name);
      if admitted.Err? {
        return Err(admitted.error);
      }
      seen := seen + {members[index].name};
      index := index + 1;
    }
    var value := OrderedObject(members);
    var canonical := CanonicalChecked(value);
    if canonical.Err? {
      return Err(canonical.error);
    }
    return Ok(value);
  }

  /** `LookupMember`: binary search over members kept in name order. */
  method LookupMember(v: Value, name: bytes) returns (r: Option<Value>)
    requires v.Object? ==> StrictlySorted(v.members, MemberName)
    ensures r.Some? <==> v.Object? && exists m :: m in v.members && m.name == name
    ensures r.Some? ==> Member(name, r.value) in v.members
    ensures r.Some? ==> forall m :: m in v.members && m.name == name ==> m.value == r.value
  {
    if !v.Object? {
      return None;
    }
    var members := v.members;
    StrictIsDistinct(members, MemberName);
    var low, high := 0, |members|;
    while low < high
      invariant 0 <= low <= high <= |members|
      invariant forall k :: 0 <= k < low ==> Less(members[k].name, name)
      invariant forall k :: high <= k < |members| ==> !Less(members[k].name, name)
    {
      var middle := (low + high) / 2;
      if Less(members[middle].name, name) {
        forall k | 0 <= k < middle ensures Less(members[k].name, name) {
          LessTransitive(MemberName(members[k]), MemberName(members[middle]), name);
        }
        low := middle + 1;
      } else {
        forall k | middle <= k < |members| ensures !Less(members[k].name, name) {
          if k > middle && Less(members[k].name, name) {
            LessTransitive(MemberName(members[middle]), MemberName(members[k]), name);
          }
        }
        high := middle;
      }
    }
    LessIrreflexive(name);
    if low >= |members| || members[low].name != name {
      forall k | 0 <= k < |members| ensures members[k].name != name {
        if low < k {
          LessTotal(members[low].name, name);
          LessAsymmetric(MemberName(members[low]), MemberName(members[k]));
        }
      }
      return None;
    }
    assert members[low] == Member(name, members[low].value);
    forall m | m in members && m.name == name ensures m.value == members[low].value {
      var k :| 0 <= k < |members| && members[k] == m;
      assert MemberName(members[k]) == MemberName(members[low]);
      assert k == low;
    }
    return Some(members[low].value);
  }

  // ---------------------------------------------------------------- string tokens

  /** One turn of the decoder: the decoded piece and the next offset. */
  datatype Piece = Piece(decoded: bytes, next: nat)

  function DecodeUnicodeEscape(raw: bytes, offset: nat): (r: Checked<Piece>)
    requires offset + 1 < |raw|
    ensures r.Ok? ==> r.value.next > offset
  {
    if offset + 6 > |raw| then Err(RuntimePanic)
    else
      var first := HexQuad(raw, offset + 2);
      var second := offset + 6;
      if !IsSurrogate(first) then Ok(Piece(EncodeRune(first), second))
      else if first > 0xDBFF then Err(LoneSurrogate)
      else if second + 6 > |raw| - 1 || raw[second] != BACKSLASH || raw[second + 1] != LOWER_U then Err(LoneSurrogate)
      else
        var low := HexQuad(raw, second + 2);
        if low < 0xDC00 || low > 0xDFFF then Err(LoneSurrogate)
        else Ok(Piece(EncodeRune(PairValue(first, low)), second + 6))
  }

  /** `utf16.DecodeRune` on a high and a low surrogate. */
  function PairValue(high: int, low: int): int
  {
    (high - 0xD800) * 0x400 + (low - 0xDC00) + 0x10000
  }

  function SimpleEscapeValue(escape: byte): byte
  {
    if escape == LOWER_B then BACKSPACE
    else if escape == LOWER_F then FORM_FEED
    else if escape == LOWER_N then LINE_FEED
    else if escape == LOWER_R then RETURN
    else if escape == LOWER_T then TAB
    else escape
  }

  function DecodePiece(raw: bytes, offset: nat): (r: Checked<Piece>)
    requires offset + 1 < |raw|
    ensures r.Ok? ==> r.value.next > offset
  {
    if raw[offset] != BACKSLASH then
      if raw[offset] < RUNE_SELF then Ok(Piece([raw[offset]], offset + 1))
      else
        var size := DecodeRune(raw, offset).size;
        Ok(Piece(raw[offset..offset + size], offset + size))
    else if SimpleEscape(raw[offset + 1]) then Ok(Piece([SimpleEscapeValue(raw[offset + 1])], offset + 2))
    else if raw[offset + 1] == LOWER_U then DecodeUnicodeEscape(raw, offset)
    else Err(InvalidEscape)
  }

  function DecodeFrom(raw: bytes, offset: nat, decoded: bytes): Checked<bytes>
    requires |raw| >= 2
    decreases |raw| - offset
  {
    if offset >= |raw| - 1 then Ok(decoded)
    else
      match DecodePiece(raw, offset)
      case Err(e) => Err(e)
      case Ok(p) => DecodeFrom(raw, p.next, decoded + p.decoded)
  }

  function DecodeString(raw: bytes): Checked<bytes>
  {
    if |raw| < 2 || raw[0] != QUOTE || raw[|raw| - 1] != QUOTE then Err(InvalidValue)
    else DecodeFrom(raw, 1, [])
  }

  /** The `\u` branch of `decodeStringToken`. */
  method DecodeUnicode(raw: bytes, offset: nat) returns (r: Checked<Piece>)
    requires offset + 1 < |raw|
    ensures r == DecodeUnicodeEscape(raw, offset)
  {
    if offset + 6 > |raw| {
      return Err(RuntimePanic);
    }
    var first := DecodeHexQuad(raw[offset + 2..offset + 6]);
    assert first == HexQuad(raw, offset + 2);
    var next := offset + 6;
    var runeValue := first;
    if IsSurrogate(runeValue) {
      if first < 0xD800 || first > 0xDBFF {
        return Err(LoneSurrogate);
      }
      if next + 6 > |raw| - 1 || raw[next] != BACKSLASH || raw[next + 1] != LOWER_U {
        return Err(LoneSurrogate);
      }
      var second := DecodeHexQuad(raw[next + 2..next + 6]);
      assert second == HexQuad(raw, next + 2);
      if second < 0xDC00 || second > 0xDFFF {
        return Err(LoneSurrogate);
      }
      return Ok(Piece(EncodeRune(PairValue(first, second)), next + 6));
    }
    return Ok(Piece(EncodeRune(runeValue), next));
  }

  method DecodeStringToken(token: Token) returns (r: Checked<bytes>)
    ensures r == DecodeString(token.raw)
  {
    var raw := token.raw;
    if |raw| < 2 || raw[0] != QUOTE || raw[|raw| - 1] != QUOTE {
      return Err(InvalidValue);
    }
    var decoded: bytes := [];
    var offset := 1;
    while offset < |raw| - 1
      invariant DecodeFrom(raw, 1, []) == DecodeFrom(raw, offset, decoded)
      decreases |raw| - offset
    {
      if raw[offset] != BACKSLASH {
        if raw[offset] < RUNE_SELF {
          decoded := decoded + [raw[offset]];
          offset := offset + 1;
        } else {
          var size := DecodeRune(raw, offset).size;
          decoded := decoded + raw[offset..offset + size];
          offset := offset + size;
        }
      } else {
        var escape := raw[offset + 1];
        if SimpleEscape(escape) {
          decoded := decoded + [SimpleEscapeValue(escape)];
          offset := offset + 2;
        } else if escape == LOWER_U {
          var piece := DecodeUnicode(raw, offset);
          if piece.Err? {
            return Err(piece.error);
          }
          decoded := decoded + piece.value.decoded;
          offset := piece.value.next;
        } else {
          return Err(InvalidEscape);
        }
      }
    }
    return Ok(decoded);
  }

  // ---------------------------------------------------------------- the parser

  datatype Parsed = Parsed(value: Value, next: nat)

  datatype ParsedName = ParsedName(name: bytes, next: nat)

  datatype ParsedMember = ParsedMember(member: Member, next: nat)

  function KindAt(tokens: seq<Token>, i: nat): TokenKind
  {
    if i < |tokens| then tokens[i].kind else EofToken
  }

  function Skip(tokens: seq<Token>, i: nat): (r: nat)
    ensures r >= i
    ensures i <= |tokens| ==> r <= |tokens|
    ensures KindAt(tokens, r) != Whitespace
    ensures forall k :: i <= k < r ==> k < |tokens| && tokens[k].kind == Whitespace
    decreases |tokens| - i
  {
    if KindAt(tokens, i) == Whitespace then Skip(tokens, i + 1) else i
  }

  function Scalar(token: Token): Checked<Value>
  {
    match token.kind
    case NullToken => Ok(Null)
    case TrueToken => Ok(Bool(true))
    case FalseToken => Ok(Bool(false))
    case IntegerToken =>
      (match ParseInt64(token.raw)
       case None => Err(UnsafeInteger)
       case Some(n) => Ok(Integer(n)))
    case StringToken =>
      (match DecodeString(token.raw)
       case Err(e) => Err(e)
       case Ok(s) => Ok(Text(s)))
    case EofToken => Err(UnexpectedEof)
    case _ => Err(UnexpectedToken)
  }

  /** The value that starts at the first token from `i` that is not whitespace. */
  function ValueAt(tokens: seq<Token>, i: nat, depth: nat): (r: Checked<Parsed>)
    requires i <= |tokens|
    decreases |tokens| - i, 1
    ensures r.Ok? ==> i < r.value.next <= |tokens|
  {
    if depth > MAX_NESTING_DEPTH then Err(DepthExceeded)
    else
      var j := Skip(tokens, i);
      var kind := KindAt(tokens, j);
      if kind == ArrayOpen then ArrayAt(tokens, j, depth + 1)
      else if kind == ObjectOpen then ObjectAt(tokens, j, depth + 1)
      else Finish(Scalar(if j < |tokens| then tokens[j] else EOF), j + 1)
  }

  function ArrayAt(tokens: seq<Token>, i: nat, depth: nat): (r: Checked<Parsed>)
    requires i <= |tokens|
    decreases |tokens| - i, 0
    ensures r.Ok? ==> i < r.value.next <= |tokens|
  {
    var j := Skip(tokens, i);
    if KindAt(tokens, j) != ArrayOpen then Err(UnexpectedToken)
    else
      var k := Skip(tokens, j + 1);
      if KindAt(tokens, k) == ArrayClose then Finish(NewArray([]), k + 1) else ElemsAt(tokens, k, depth, [])
  }

  function ObjectAt(tokens: seq<Token>, i: nat, depth: nat): (r: Checked<Parsed>)
    requires i <= |tokens|
    decreases |tokens| - i, 0
    ensures r.Ok? ==> i < r.value.next <= |tokens|
  {
    var j := Skip(tokens, i);
    if KindAt(tokens, j) != ObjectOpen then Err(UnexpectedToken)
    else
      var k := Skip(tokens, j + 1);
      if KindAt(tokens, k) == ObjectClose then Finish(NewObject([]), k + 1) else MembersAt(tokens, k, depth, [], {})
  }

  function Finish(v: Checked<Value>, next: nat): Checked<Parsed>
  {
    match v
    case Err(e) => Err(e)
    case Ok(value) => Ok(Parsed(value, next))
  }

  function ElemsAt(tokens: seq<Token>, i: nat, depth: nat, values: seq<Value>): (r: Checked<Parsed>)
    requires i <= |tokens|
    decreases |tokens| - i, 2
    ensures r.Ok? ==> i < r.value.next <= |tokens|
  {
    if |values| >= MAX_CONTAINER_MEMBERS then Err(MemberLimit)
    else
      match ValueAt(tokens, i, depth)
      case Err(e) => Err(e)
      case Ok(p) =>
        var j := Skip(tokens, p.next);
        match KindAt(tokens, j)
        case CommaMark => ElemsAt(tokens, j + 1, depth, values + [p.value])
        case ArrayClose => Finish(NewArray(values + [p.value]), j + 1)
        case _ => Err(UnexpectedToken)
  }

  /** The member name whose token comes next, and the index after its colon. */
  function NameAt(tokens: seq<Token>, i: nat, seen: set<bytes>): (r: Checked<ParsedName>)
    requires i <= |tokens|
    ensures r.Ok? ==> i < r.value.next <= |tokens|
  {
    var j := Skip(tokens, i);
    if KindAt(tokens, j) != StringToken then Err(UnexpectedToken)
    else
      match DecodeString(tokens[j].raw)
      case Err(e) => Err(e)
      case Ok(name) =>
        if AdmitName(seen, name).Err? then Err(AdmitName(seen, name).error)
        else
          var k := Skip(tokens, j + 1);
          if KindAt(tokens, k) != ColonMark then Err(UnexpectedToken) else Ok(ParsedName(name, k + 1))
  }

  /** One object member: name, colon and value. */
  function MemberAt(tokens: seq<Token>, i: nat, depth: nat, seen: set<bytes>): (r: Checked<ParsedMember>)
    requires i <= |tokens|
    decreases |tokens| - i, 2
    ensures r.Ok? ==> i < r.value.next <= |tokens|
  {
    match NameAt(tokens, i, seen)
    case Err(e) => Err(e)
    case Ok(named) =>
      match ValueAt(tokens, named.next, depth)
      case Err(e) => Err(e)
      case Ok(p) => Ok(ParsedMember(Member(named.name, p.value), p.next))
  }

  /** What one turn of the member loop leaves behind. */
  datatype MemberTurn =
    | More(members: seq<Member>, seen: set<bytes>, next: nat)
    | Closed(parsed: Parsed)

  function MemberTurnAt(tokens: seq<Token>, i: nat, depth: nat, members: seq<Member>, seen: set<bytes>)
    : (r: Checked<MemberTurn>)
    requires i <= |tokens|
    decreases |tokens| - i, 3
    ensures r.Ok? ==> i < (if r.value.More? then r.value.next else r.value.parsed.next) <= |tokens|
  {
    if |members| >= MAX_CONTAINER_MEMBERS then Err(MemberLimit)
    else
      match MemberAt(tokens, i, depth, seen)
      case Err(e) => Err(e)
      case Ok(p) =>
        var j := Skip(tokens, p.next);
        match KindAt(tokens, j)
        case CommaMark => Ok(More(members + [p.member], seen + {p.member.name}, j + 1))
        case ObjectClose => Ok(Closed(Parsed(OrderedObject(members + [p.member]), j + 1)))
        case _ => Err(UnexpectedToken)
  }

  function MembersAt(tokens: seq<Token>, i: nat, depth: nat, members: seq<Member>, seen: set<bytes>)
    : (r: Checked<Parsed>)
    requires i <= |tokens|
    decreases |tokens| - i, 4
    ensures r.Ok? ==> i < r.value.next <= |tokens|
  {
    match MemberTurnAt(tokens, i, depth, members, seen)
    case Err(e) => Err(e)
    case Ok(Closed(p)) => Ok(p)
    case Ok(More(all, names, next)) => MembersAt(tokens, next, depth, all, names)
  }

  function ParseTokens(tokens: seq<Token>): Checked<Value>
  {
    match ValueAt(tokens, 0, 0)
    case Err(e) => Err(e)
    case Ok(p) => if KindAt(tokens, Skip(tokens, p.next)) != EofToken then Err(TrailingData) else Ok(p.value)
  }

  function ParseBytes(input: bytes): Checked<Value>
  {
    match Tokens(input)
    case Err(e) => Err(e)
    case Ok(tokens) => ParseTokens(tokens)
  }

  class TokenParser {
    const tokens: seq<Token>
    var index: nat

    ghost predicate Valid()
      reads this
    {
      index <= |tokens|
    }

    constructor (tokens: seq<Token>)
      ensures Valid() && this.tokens == tokens && index == 0
    {
      this.tokens := tokens;
      index := 0;
    }

    function Current(): Token
      reads this
    {
      if index >= |tokens| then EOF else tokens[index]
    }

    method SkipWhitespace()
      requires Valid()
      modifies this
      ensures Valid() && index == Skip(tokens, old(index))
    {
      while Current().kind == Whitespace
        invariant index <= |tokens|
        invariant Skip(tokens, index) == Skip(tokens, old(index))
        decreases |tokens| - index
      {
        index := index + 1;
      }
    }

    method Take(kind: TokenKind) returns (r: Checked<Token>)
      requires Valid() && kind != EofToken
      modifies this
      ensures Valid()
      ensures var j := Skip(tokens, old(index));
              if KindAt(tokens, j) == kind then r == Ok(tokens[j]) && index == j + 1
              else r == Err(UnexpectedToken) && index == j
    {
      SkipWhitespace();
      var token := Current();
      if token.kind != kind {
        return Err(UnexpectedToken);
      }
      index := index + 1;
      return Ok(token);
    }

    method ParseValue(depth: nat) returns (r: Checked<Value>)
      requires Valid()
      modifies this
      ensures Valid()
      ensures match ValueAt(tokens, old(index), depth)
              case Err(e) => r == Err(e)
              case Ok(p) => r == Ok(p.value) && index == p.next
      decreases |tokens| - index, 1
    {
      if depth > MAX_NESTING_DEPTH {
        return Err(DepthExceeded);
      }
      SkipWhitespace();
      var token := Current();
      match token.kind
      case NullToken =>
        index := index + 1;
        return Ok(Null);
      case TrueToken =>
        index := index + 1;
        return Ok(Bool(true));
      case FalseToken =>
        index := index + 1;
        return Ok(Bool(false));
      case IntegerToken =>
        index := index + 1;
        var integer := ParseInt64(token.raw);
        if integer.None? {
          return Err(UnsafeInteger);
        }
        return Ok(Integer(integer.value));
      case StringToken =>
        index := index + 1;
        var decoded := DecodeStringToken(token);
        if decoded.Err? {
          return Err(decoded.error);
        }
        return Ok(Text(decoded.value));
      case ArrayOpen =>
        r := ParseArray(depth + 1);
      case ObjectOpen =>
        r := ParseObject(depth + 1);
      case EofToken =>
        return Err(UnexpectedEof);
      case _ =>
        return Err(UnexpectedToken);
    }

    method ParseArray(depth: nat) returns (r: Checked<Value>)
      requires Valid()
      modifies this
      ensures Valid()
      ensures match ArrayAt(tokens, old(index), depth)
              case Err(e) => r == Err(e)
              case Ok(p) => r == Ok(p.value) && index == p.next
      decreases |tokens| - index, 0
    {
      var open := Take(ArrayOpen);
      if open.Err? {
        return Err(open.error);
      }
      SkipWhitespace();
      if Current().kind == ArrayClose {
        index := index + 1;
        r := MakeArray([]);
        return r;
      }
      r := ParseElements(depth);
    }

    /** The element loop of `parseArray`. */
    method ParseElements(depth: nat) returns (r: Checked<Value>)
      requires Valid()
      modifies this
      ensures Valid()
      ensures match ElemsAt(tokens, old(index), depth, [])
              case Err(e) => r == Err(e)
              case Ok(p) => r == Ok(p.value) && index == p.next
      decreases |tokens| - index, 2
    {
      hide ValueAt, NewArray, Skip;
      var values: seq<Value> := [];
      ghost var spec := ElemsAt(tokens, index, depth, []);
      while true
        invariant old(index) <= index <= |tokens|
        invariant ElemsAt(tokens, index, depth, values) == spec
        decreases |tokens| - index
      {
        if |values| >= MAX_CONTAINER_MEMBERS {
          return Err(MemberLimit);
        }
        var value := ParseValue(depth);
        if value.Err? {
          return value;
        }
        values := values + [value.value];
        SkipWhitespace();
        match Current().kind
        case CommaMark =>
          index := index + 1;
        case ArrayClose =>
          index := index + 1;
          r := MakeArray(values);
          return r;
        case _ =>
          return Err(UnexpectedToken);
      }
    }

    method ParseObject(depth: nat) returns (r: Checked<Value>)
      requires Valid()
      modifies this
      ensures Valid()
      ensures match ObjectAt(tokens, old(index), depth)
              case Err(e) => r == Err(e)
              case Ok(p) => r == Ok(p.value) && index == p.next
      decreases |tokens| - index, 0
    {
      var open := Take(ObjectOpen);
      if open.Err? {
        return Err(open.error);
      }
      SkipWhitespace();
      if Current().kind == ObjectClose {
        index := index + 1;
        r := MakeObject([]);
        return r;
      }
      r := ParseMembers(depth);
    }

    /** The member loop of `parseObject`. */
    method ParseMembers(depth: nat) returns (r: Checked<Value>)
      requires Valid()
      modifies this
      ensures Valid()
      ensures match MembersAt(tokens, old(index), depth, [], {})
              case Err(e) => r == Err(e)
              case Ok(p) => r == Ok(p.value) && index == p.next
      decreases |tokens| - index, 4
    {
      hide MemberTurnAt;
      var members: seq<Member> := [];
      var seen: set<bytes> := {};
      while true
        invariant old(index) <= index <= |tokens|
        invariant MembersAt(tokens, index, depth, members, seen) == MembersAt(tokens, old(index), depth, [], {})
        decreases |tokens| - index
      {
        var turn := ParseMemberTurn(depth, members, seen);
        match turn
        case Err(e) =>
          return Err(e);
        case Ok(Closed(p)) =>
          return Ok(p.value);
        case Ok(More(all, names, _)) =>
          members, seen := all, names;
      }
    }

    /** One turn of the member loop. */
    method ParseMemberTurn(depth: nat, members: seq<Member>, seen: set<bytes>) returns (r: Checked<MemberTurn>)
      requires Valid()
      modifies this
      ensures Valid() && r == MemberTurnAt(tokens, old(index), depth, members, seen)
      ensures r.Ok? ==> index == if r.value.More? then r.value.next else r.value.parsed.next
      decreases |tokens| - index, 3
    {
      hide MemberAt, OrderedObject, Skip;
      if |members| >= MAX_CONTAINER_MEMBERS {
        return Err(MemberLimit);
      }
      var member := ParseMember(depth, seen);
      if member.Err? {
        return Err(member.error);
      }
      SkipWhitespace();
      match Current().kind
      case CommaMark =>
        index := index + 1;
        return Ok(More(members + [member.value], seen + {member.value.name}, index));
      case ObjectClose =>
        index := index + 1;
        return Ok(Closed(Parsed(OrderedObject(members + [member.value]), index)));
      case _ =>
        return Err(UnexpectedToken);
    }

    /** A name, a colon and a value. */
    method ParseMember(depth: nat, seen: set<bytes>) returns (r: Checked<Member>)
      requires Valid()
      modifies this
      ensures Valid()
      ensures match MemberAt(tokens, old(index), depth, seen)
              case Err(e) => r == Err(e)
              case Ok(p) => r == Ok(p.member) && index == p.next
      decreases |tokens| - index, 2
    {
      var name := ParseName(seen);
      if name.Err? {
        return Err(name.error);
      }
      var value := ParseValue(depth);
      if value.Err? {
        return Err(value.error);
      }
      return Ok(Member(name.value, value.value));
    }

    /** The name token, its admission and the colon, at the head of the member loop. */
    method ParseName(seen: set<bytes>) returns (r: Checked<bytes>)
      requires Valid()
      modifies this
      ensures Valid()
      ensures match NameAt(tokens, old(index), seen)
              case Err(e) => r == Err(e)
              case Ok(p) => r == Ok(p.name) && index == p.next
    {
      var nameToken := Take(StringToken);
      if nameToken.Err? {
        return Err(nameToken.error);
      }
      var name := DecodeStringToken(nameToken.value);
      if name.Err? {
        return Err(name.error);
      }
      var admitted := AdmitName(seen, name.value);
      if admitted.Err? {
        return Err(admitted.error);
      }
      var colon := Take(ColonMark);
      if colon.Err? {
        return Err(colon.error);
      }
      return Ok(name.value);
    }
  }

  method Parse(input: bytes) returns (r: Checked<Value>)
    ensures r == ParseBytes(input)
  {
    var tokens := Scan(input);
    if tokens.Err? {
      return Err(tokens.error);
    }
    var parser := new TokenParser(tokens.value);
    var value := parser.ParseValue(0);
    if value.Err? {
      return value;
    }
    parser.SkipWhitespace();
    if parser.Current().kind != EofToken {
      return Err(TrailingData);
    }
    return value;
  }

  function CanonicalForm(input: bytes): Checked<bytes>
  {
    match ParseBytes(input)
    case Err(e) => Err(e)
    case Ok(v) => CanonicalBytes(v)
  }

  method Canonicalize(input: bytes) returns (r: Checked<bytes>)
    ensures r == CanonicalForm(input)
  {
    var value := Parse(input);
    if value.Err? {
      return Err(value.error);
    }
    r := CanonicalChecked(value.value);
  }
}
