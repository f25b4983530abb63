/** Canonical values and their printer (value.go, encode.go). */
module CanonValue {
  import opened Bytes
  import opened Sorting
  import opened CanonLimits
  import opened Decimal
  import opened Utf8

  datatype Value =
    | Null
    | Bool(boolean: bool)
    | Integer(integer: int)
    | Text(text: bytes)
    | Array(elems: seq<Value>)
    | Object(members: seq<Member>)

  datatype Member = Member(name: bytes, value: Value)

  const MemberName: Member -> bytes := (m: Member) => m.name

  const QUOTE: byte := 34
  const BACKSLASH: byte := 92
  const SLASH: byte := 47
  const COMMA: byte := 44
  const COLON: byte := 58
  const BRACKET_OPEN: byte := 91
  const BRACKET_CLOSE: byte := 93
  const BRACE_OPEN: byte := 123
  const BRACE_CLOSE: byte := 125
  const LOWER_B: byte := 98
  const LOWER_F: byte := 102
  const LOWER_N: byte := 110
  const LOWER_R: byte := 114
  const LOWER_T: byte := 116
  const LOWER_U: byte := 117
  const BACKSPACE: byte := 8
  const TAB: byte := 9
  const LINE_FEED: byte := 10
  const FORM_FEED: byte := 12
  const RETURN: byte := 13

  const NULL_LITERAL: bytes := [110, 117, 108, 108]
  const TRUE_LITERAL: bytes := [116, 114, 117, 101]
  const FALSE_LITERAL: bytes := [102, 97, 108, 115, 101]

  function LowerHex(n: int): (b: byte)
    requires 0 <= n < 16
  {
    if n < 10 then 48 + n else 87 + n
  }

  // ---------------------------------------------------------------- strings

  function EscapeByte(b: byte): (e: bytes)
    ensures e != []
  {
    if b == QUOTE || b == BACKSLASH then [BACKSLASH, b]
    else if b == BACKSPACE then [BACKSLASH, LOWER_B]
    else if b == FORM_FEED then [BACKSLASH, LOWER_F]
    else if b == LINE_FEED then [BACKSLASH, LOWER_N]
    else if b == RETURN then [BACKSLASH, LOWER_R]
    else if b == TAB then [BACKSLASH, LOWER_T]
    else if b < 0x20 then [BACKSLASH, LOWER_U, 48, 48, LowerHex(b / 16), LowerHex(b % 16)]
    else [b]
  }

  /** The printer escapes byte by byte: bytes outside ASCII are copied. */
  function Escape(s: bytes): bytes
  {
    if s == [] then [] else EscapeByte(s[0]) + Escape(s[1..])
  }

  function Quote(s: bytes): bytes
  {
    [QUOTE] + Escape(s) + [QUOTE]
  }

  lemma {:induction false} EscapeConcat(a: bytes, b: bytes)
    ensures Escape(a + b) == Escape(a) + Escape(b)
  {
    hide EscapeByte;
    if a == [] {
      assert a + b == b;
    } else {
      EscapeConcat(a[1..], b);
      assert (a + b)[1..] == a[1..] + b;
    }
  }

  lemma {:induction false} EscapeHighBytes(s: bytes)
    requires forall i :: 0 <= i < |s| ==> s[i] >= 0x80
    ensures Escape(s) == s
  {
    if s != [] {
      EscapeHighBytes(s[1..]);
    }
  }

  /** One turn of the printer's loop over a string: the bytes it appends and the next offset. */
  method EscapeStep(value: bytes, offset: nat) returns (piece: bytes, next: nat)
    requires offset < |value|
    ensures value[offset] < RUNE_SELF ==> next == offset + 1 && piece == EscapeByte(value[offset])
    ensures value[offset] >= RUNE_SELF ==>
              next == offset + DecodeRune(value, offset).size && piece == value[offset..next]
  {
    var b := value[offset];
    next := offset + 1;
    if b == QUOTE || b == BACKSLASH {
      piece := [BACKSLASH, b];
    } else if b == BACKSPACE {
      piece := [BACKSLASH, LOWER_B];
    } else if b == FORM_FEED {
      piece := [BACKSLASH, LOWER_F];
    } else if b == LINE_FEED {
      piece := [BACKSLASH, LOWER_N];
    } else if b == RETURN {
      piece := [BACKSLASH, LOWER_R];
    } else if b == TAB {
      piece := [BACKSLASH, LOWER_T];
    } else if b < 0x20 {
      piece := [BACKSLASH, LOWER_U, 48, 48, LowerHex(b / 16), LowerHex(b % 16)];
    } else if b < RUNE_SELF {
      piece := [b];
    } else {
      next := offset + DecodeRune(value, offset).size;
      piece := value[offset..next];
    }
  }

  method AppendCanonicalString(output: bytes, value: bytes) returns (r: bytes)
    ensures r == output + Quote(value)
  {
    hide EscapeByte, DecodeRune, RuneLenAt;
    var body: bytes := [];
    var offset := 0;
    while offset < |value|
      invariant 0 <= offset <= |value|
      invariant body == Escape(value[..offset])
    {
      hide Escape;
      var piece, next := EscapeStep(value, offset);
      EscapeRun(value, offset, next, piece);
      body := body + piece;
      offset := next;
    }
    assert value[..offset] == value;
    r := output + ([QUOTE] + body + [QUOTE]);
  }

  /** One step of the printer's loop: a single byte below 0x80, or one decoded sequence. */
  lemma EscapeRun(value: bytes, start: nat, end: nat, piece: bytes)
    requires start < end <= |value|
    requires value[start] < RUNE_SELF ==> end == start + 1 && piece == EscapeByte(value[start])
    requires value[start] >= RUNE_SELF ==>
               end == start + DecodeRune(value, start).size && piece == value[start..end]
    ensures Escape(value[..end]) == Escape(value[..start]) + piece
  {
    assert value[..end] == value[..start] + value[start..end];
    EscapeConcat(value[..start], value[start..end]);
    if value[start] < RUNE_SELF {
      assert value[start..end] == [value[start]];
      assert Escape([value[start]]) == EscapeByte(value[start]) + Escape([]);
    } else {
      if RuneLenAt(value, start) > 1 {
        LongRuneBytes(value, start);
      }
      EscapeHighBytes(value[start..end]);
    }
  }

  // ---------------------------------------------------------------- values

  /** The encoding of a value, without regard to any limit. */
  function Encode(v: Value): (e: bytes)
    decreases v, 0
  {
    match v
    case Null => NULL_LITERAL
    case Bool(b) => if b then TRUE_LITERAL else FALSE_LITERAL
    case Integer(n) => FormatInt(n)
    case Text(s) => Quote(s)
    case Array(elems) => [BRACKET_OPEN] + EncodeElems(elems, 0) + [BRACKET_CLOSE]
    case Object(members) => [BRACE_OPEN] + EncodeMembers(members, 0) + [BRACE_CLOSE]
  }

  function Separator(k: nat): bytes
  {
    if k > 0 then [COMMA] else []
  }

  function EncodeElems(elems: seq<Value>, k: nat): bytes
    requires k <= |elems|
    decreases elems, 1, |elems| - k
  {
    if k == |elems| then []
    else Separator(k) + Encode(elems[k]) + EncodeElems(elems, k + 1)
  }

  function EncodeMember(m: Member): bytes
    decreases m, 0
  {
    Quote(m.name) + [COLON] + Encode(m.value)
  }

  function EncodeMembers(members: seq<Member>, k: nat): bytes
    requires k <= |members|
    decreases members, 1, |members| - k
  {
    if k == |members| then []
    else Separator(k) + EncodeMember(members[k]) + EncodeMembers(members, k + 1)
  }

  /** What the checked printer charges for a value at a depth, or why it refuses it. */
  function Charge(v: Value, u: Usage, depth: nat): Checked<Usage>
    decreases v, 0
  {
    if depth > MAX_NESTING_DEPTH then Err(DepthExceeded)
    else
      match EnterUsage(u)
      case Err(e) => Err(e)
      case Ok(u1) =>
        match v
        case Null => Ok(u1)
        case Bool(_) => Ok(u1)
        case Integer(n) => if SafeInteger(n) then Ok(u1) else Err(UnsafeInteger)
        case Text(s) => if ValidUtf8(s) then AddStringUsage(u1, |s|) else Err(InvalidUtf8)
        case Array(elems) =>
          if |elems| > MAX_CONTAINER_MEMBERS then Err(MemberLimit) else ChargeElems(elems, 0, u1, depth + 1)
        case Object(members) =>
          if |members| > MAX_CONTAINER_MEMBERS then Err(MemberLimit) else ChargeMembers(members, 0, u1, depth + 1)
  }

  function ChargeElems(elems: seq<Value>, k: nat, u: Usage, depth: nat): Checked<Usage>
    requires k <= |elems|
    decreases elems, 1, |elems| - k
  {
    if k == |elems| then Ok(u)
    else
      match Charge(elems[k], u, depth)
      case Err(e) => Err(e)
      case Ok(u1) => ChargeElems(elems, k + 1, u1, depth)
  }

  function ChargeName(members: seq<Member>, k: nat, u: Usage): Checked<Usage>
    requires k < |members|
  {
    var name := members[k].name;
    if !ValidUtf8(name) then Err(InvalidUtf8)
    else if k > 0 && !Less(members[k - 1].name, name) then Err(InvalidValue)
    else AddStringUsage(u, |name|)
  }

  function ChargeMember(members: seq<Member>, k: nat, u: Usage, depth: nat): Checked<Usage>
    requires k < |members|
    decreases members, 0
  {
    match ChargeName(members, k, u)
    case Err(e) => Err(e)
    case Ok(u1) => Charge(members[k].value, u1, depth)
  }

  function ChargeMembers(members: seq<Member>, k: nat, u: Usage, depth: nat): Checked<Usage>
    requires k <= |members|
    decreases members, 1, |members| - k
  {
    if k == |members| then Ok(u)
    else
      match ChargeMember(members, k, u, depth)
      case Err(e) => Err(e)
      case Ok(u1) => ChargeMembers(members, k + 1, u1, depth)
  }

  /** The printer: it writes the encoding exactly when the charge fits. */
  method AppendCanonicalChecked(v: Value, output: bytes, budget: TraversalBudget, depth: nat)
      returns (r: Checked<bytes>)
    modifies budget
    ensures match Charge(v, old(budget.Spent()), depth)
            case Err(e) => r == Err(e)
            case Ok(u) => r == Ok(output + Encode(v)) && budget.Spent() == u
    decreases v, 0
  {
    if depth > MAX_NESTING_DEPTH {
      return Err(DepthExceeded);
    }
    var entered := budget.Enter();
    if entered.Err? {
      return Err(entered.error);
    }
    match v
    case Null => return Ok(output + NULL_LITERAL);
    case Bool(b) => return Ok(output + (if b then TRUE_LITERAL else FALSE_LITERAL));
    case Integer(n) =>
      if n < -MAX_SAFE_INTEGER || n > MAX_SAFE_INTEGER {
        return Err(UnsafeInteger);
      }
      return Ok(output + FormatInt(n));
    case Text(s) =>
      if !ValidUtf8(s) {
        return Err(InvalidUtf8);
      }
      var added := budget.AddString(|s|);
      if added.Err? {
        return Err(added.error);
      }
      var quoted := AppendCanonicalString(output, s);
      return Ok(quoted);
    case Array(elems) =>
      if |elems| > MAX_CONTAINER_MEMBERS {
        return Err(MemberLimit);
      }
      var body := AppendElems(elems, output + [BRACKET_OPEN], budget, depth + 1);
      if body.Err? {
        return body;
      }
      assert body.value + [BRACKET_CLOSE] == output + Encode(v);
      return Ok(body.value + [BRACKET_CLOSE]);
    case Object(members) =>
      if |members| > MAX_CONTAINER_MEMBERS {
        return Err(MemberLimit);
      }
      var body := AppendMembers(members, output + [BRACE_OPEN], budget, depth + 1);
      if body.Err? {
        return body;
      }
      assert body.value + [BRACE_CLOSE] == output + Encode(v);
      return Ok(body.value + [BRACE_CLOSE]);
  }

  /** The printer's loop over array elements. */
  method AppendElems(elems: seq<Value>, output: bytes, budget: TraversalBudget, depth: nat)
      returns (r: Checked<bytes>)
    modifies budget
    ensures match ChargeElems(elems, 0, old(budget.Spent()), depth)
            case Err(e) => r == Err(e)
            case Ok(u) => r == Ok(output + EncodeElems(elems, 0)) && budget.Spent() == u
    decreases elems, 1
  {
    var out := output;
    ghost var charged := ChargeElems(elems, 0, budget.Spent(), depth);
    var index := 0;
    while index < |elems|
      invariant 0 <= index <= |elems|
      invariant ChargeElems(elems, index, budget.Spent(), depth) == charged
      invariant out + EncodeElems(elems, index) == output + EncodeElems(elems, 0)
    {
      ghost var before := out;
      if index > 0 {
        out := out + [COMMA];
      }
      var next := AppendCanonicalChecked(elems[index], out, budget, depth);
      if next.Err? {
        return next;
      }
      out := next.value;
      assert out == before + (Separator(index) + Encode(elems[index]));
      ConcatAssoc(before, Separator(index) + Encode(elems[index]), EncodeElems(elems, index + 1));
      index := index + 1;
    }
    assert out == output + EncodeElems(elems, 0);
    return Ok(out);
  }

  lemma MemberAssoc(output: bytes, separator: bytes, name: bytes, value: bytes)
    ensures output + separator + name + [COLON] + value == output + (separator + (name + [COLON] + value))
    ensures separator == [] ==> output + name + [COLON] + value == output + (separator + (name + [COLON] + value))
  {
    assert separator == [] ==> output + separator == output;
  }

  /** The body of the printer's loop over object members. */
  method AppendMember(members: seq<Member>, index: nat, previous: bytes, output: bytes, budget: TraversalBudget,
                      depth: nat)
      returns (r: Checked<bytes>)
    requires index < |members|
    requires index > 0 ==> previous == members[index - 1].name
    modifies budget
    ensures match ChargeMember(members, index, old(budget.Spent()), depth)
            case Err(e) => r == Err(e)
            case Ok(u) => r == Ok(output + (Separator(index) + EncodeMember(members[index]))) && budget.Spent() == u
    decreases members, 1, 0
  {
    var name := members[index].name;
    if !ValidUtf8(name) {
      return Err(InvalidUtf8);
    }
    if index > 0 && !Less(previous, name) {
      return Err(InvalidValue);
    }
    var added := budget.AddString(|name|);
    if added.Err? {
      return Err(added.error);
    }
    var out := output;
    if index > 0 {
      out := out + [COMMA];
    }
    out := AppendCanonicalString(out, name);
    out := out + [COLON];
    r := AppendCanonicalChecked(members[index].value, out, budget, depth);
    MemberAssoc(output, Separator(index), Quote(name), Encode(members[index].value));
  }

  /** The printer's loop over object members. */
  method AppendMembers(members: seq<Member>, output: bytes, budget: TraversalBudget, depth: nat)
      returns (r: Checked<bytes>)
    modifies budget
    ensures match ChargeMembers(members, 0, old(budget.Spent()), depth)
            case Err(e) => r == Err(e)
            case Ok(u) => r == Ok(output + EncodeMembers(members, 0)) && budget.Spent() == u
    decreases members, 1, 1
  {
    var out := output;
    ghost var charged := ChargeMembers(members, 0, budget.Spent(), depth);
    var previous: bytes := [];
    var index := 0;
    while index < |members|
      invariant 0 <= index <= |members|
      invariant index > 0 ==> previous == members[index - 1].name
      invariant ChargeMembers(members, index, budget.Spent(), depth) == charged
      invariant out + EncodeMembers(members, index) == output + EncodeMembers(members, 0)
    {
      ghost var before := out;
      var next := AppendMember(members, index, previous, out, budget, depth);
      if next.Err? {
        return next;
      }
      out := next.value;
      ConcatAssoc(before, Separator(index) + EncodeMember(members[index]), EncodeMembers(members, index + 1));
      previous := members[index].name;
      index := index + 1;
    }
    assert out == output + EncodeMembers(members, 0);
    return Ok(out);
  }

  /** `Value.CanonicalChecked`. */
  function CanonicalBytes(v: Value): Checked<bytes>
  {
    match Charge(v, NO_USAGE, 0)
    case Err(e) => Err(e)
    case Ok(_) => Ok(Encode(v))
  }

  method CanonicalChecked(v: Value) returns (r: Checked<bytes>)
    ensures r == CanonicalBytes(v)
  {
    var budget := new TraversalBudget();
    r := AppendCanonicalChecked(v, [], budget, 0);
    assert [] + Encode(v) == Encode(v);
  }

  predicate Printable(v: Value)
  {
    CanonicalBytes(v).Ok?
  }
}
