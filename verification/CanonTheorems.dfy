/** The laws every identity in the repository rests on: parser and printer undo each other under
    all limits, and the encoding is injective. */
module CanonTheorems {
  import opened Bytes
  import opened Sorting
  import opened CanonLimits
  import opened Decimal
  import opened Utf8
  import opened CanonValue
  import opened CanonScan
  import opened CanonParse
  import opened CanonStrings
  import opened CanonMeasures
  import opened CanonTokens
  import opened CanonReparse
  import opened CanonSizes
  import opened CanonAccepted

  // ---------------------------------------------------------------- printer, then parser

  lemma {:induction false} EncodeIsValidUtf8(v: Value)
    requires WellFormed(v)
    ensures ValidUtf8(Encode(v))
    decreases v, 0
  {
    hide ValidUtf8, ValidUtf8From, Quote;
    LiteralsAreValid();
    match v
    case Null =>
    case Bool(_) =>
    case Integer(n) => IntegersAreValid(n);
    case Text(s) => QuoteIsValid(s);
    case Array(elems) =>
      ElemsAreValidUtf8(elems, 0);
      ValidUtf8Concat([BRACKET_OPEN], EncodeElems(elems, 0));
      ValidUtf8Concat([BRACKET_OPEN] + EncodeElems(elems, 0), [BRACKET_CLOSE]);
    case Object(members) =>
      MembersAreValidUtf8(members, 0);
      ValidUtf8Concat([BRACE_OPEN], EncodeMembers(members, 0));
      ValidUtf8Concat([BRACE_OPEN] + EncodeMembers(members, 0), [BRACE_CLOSE]);
  }

  lemma LiteralsAreValid()
    ensures ValidUtf8([]) && ValidUtf8(NULL_LITERAL) && ValidUtf8(TRUE_LITERAL) && ValidUtf8(FALSE_LITERAL)
    ensures ValidUtf8([BRACKET_OPEN]) && ValidUtf8([BRACKET_CLOSE]) && ValidUtf8([BRACE_OPEN])
    ensures ValidUtf8([BRACE_CLOSE]) && ValidUtf8([COLON])
    ensures forall k :: ValidUtf8(Separator(k))
  {
    hide ValidUtf8, ValidUtf8From;
    AsciiIsValid([]);
    AsciiIsValid(NULL_LITERAL);
    AsciiIsValid(TRUE_LITERAL);
    AsciiIsValid(FALSE_LITERAL);
    AsciiIsValid([BRACKET_OPEN]);
    AsciiIsValid([BRACKET_CLOSE]);
    AsciiIsValid([BRACE_OPEN]);
    AsciiIsValid([BRACE_CLOSE]);
    AsciiIsValid([COLON]);
    AsciiIsValid([COMMA]);
  }

  lemma IntegersAreValid(n: int)
    ensures ValidUtf8(FormatInt(n))
  {
    hide ValidUtf8, FormatInt;
    FormatIntDigits(n);
    AsciiIsValid(FormatInt(n));
  }

  lemma {:induction false} ElemsAreValidUtf8(elems: seq<Value>, k: nat)
    requires k <= |elems| && forall n :: k <= n < |elems| ==> WellFormed(elems[n])
    ensures ValidUtf8(EncodeElems(elems, k))
    decreases elems, 1, |elems| - k
  {
    hide ValidUtf8, ValidUtf8From, WellFormed, Encode, Separator;
    LiteralsAreValid();
    if k < |elems| {
      EncodeIsValidUtf8(elems[k]);
      ElemsAreValidUtf8(elems, k + 1);
      ValidUtf8Concat(Separator(k), Encode(elems[k]));
      ValidUtf8Concat(Separator(k) + Encode(elems[k]), EncodeElems(elems, k + 1));
    }
  }

  lemma {:induction false} MembersAreValidUtf8(members: seq<Member>, k: nat)
    requires k <= |members|
    requires forall n :: k <= n < |members| ==> ValidUtf8(members[n].name) && WellFormed(members[n].value)
    ensures ValidUtf8(EncodeMembers(members, k))
    decreases members, 1, |members| - k
  {
    hide ValidUtf8, ValidUtf8From, WellFormed, Encode, Separator, Quote;
    LiteralsAreValid();
    if k < |members| {
      var m := members[k];
      QuoteIsValid(m.name);
      EncodeIsValidUtf8(m.value);
      ValidUtf8Concat(Quote(m.name), [COLON]);
      ValidUtf8Concat(Quote(m.name) + [COLON], Encode(m.value));
      MembersAreValidUtf8(members, k + 1);
      ValidUtf8Concat(Separator(k), EncodeMember(m));
      ValidUtf8Concat(Separator(k) + EncodeMember(m), EncodeMembers(members, k + 1));
    }
  }

  /** Parsing what was printed: every well-formed value of admissible depth is recovered exactly
      when its encoding fits the byte and the token ceiling, and otherwise the scanner refuses
      for the ceiling it meets first. */
  lemma PrintThenParse(v: Value)
    requires WellFormed(v) && Height(v) <= MAX_NESTING_DEPTH
    ensures ParseBytes(Encode(v)) ==
            if |Encode(v)| > MAX_INPUT_BYTES then Err(InputLimit)
            else if |TokensOf(v)| > MAX_TOKEN_COUNT - 1 then Err(TokenLimit)
            else Ok(v)
  {
    hide WellFormed, Height, ValidUtf8, Encode, TokensOf, TokensFrom, ParseTokens;
    var input := Encode(v);
    EncodeIsValidUtf8(v);
    assert input[0..0 + |input|] == input;
    ScansValue(input, 0, v);
    assert ScansAfter(input, 0, |input|, TokensOf(v), []);
    assert [] + TokensOf(v) == TokensOf(v);
    if |input| <= MAX_INPUT_BYTES && |TokensOf(v)| <= MAX_TOKEN_COUNT - 1 {
      SizesBound(v);
      EndOfInput(input, TokensOf(v));
      ParsesStream(v);
    }
  }

  /** Within both ceilings of the parser a value is printable. */
  lemma SmallIsPrintable(v: Value)
    requires WellFormed(v) && Height(v) <= MAX_NESTING_DEPTH
    requires |Encode(v)| <= MAX_INPUT_BYTES && |TokensOf(v)| <= MAX_TOKEN_COUNT
    ensures CanonicalBytes(v) == Ok(Encode(v))
  {
    hide WellFormed, Height, Encode, TokensOf;
    SizesBound(v);
    PrintableExactly(v);
  }

  lemma EndOfInput(input: bytes, tokens: seq<Token>)
    ensures TokensFrom(input, |input|, tokens) == Ok(tokens + [EOF])
  {
  }

  // ---------------------------------------------------------------- parser, then printer

  /** What acceptance says of the parsed value: it is well formed, within every limit of the
      printer, and its encoding is no longer and has no more tokens than the input. */
  lemma AcceptedValue(input: bytes)
    requires ParseBytes(input).Ok?
    ensures var v := ParseBytes(input).value;
            && WellFormed(v)
            && Height(v) <= MAX_NESTING_DEPTH
            && Printable(v)
            && |Encode(v)| <= |input| <= MAX_INPUT_BYTES
            && |TokensOf(v)| <= MAX_TOKEN_COUNT - 1
  {
    hide TokensFrom, ValueAt, WellFormed, Height, Encode, TokensOf, RawSum, ValidUtf8From, Concat;
    var tokens := Tokens(input).value;
    TokensFromGood(input, 0, []);
    ScanIsLossless(input);
    RawSumIsLength(tokens, |tokens|);
    assert tokens[..|tokens|] == tokens;
    ValueBounded(tokens, 0, 0);
    var p := ValueAt(tokens, 0, 0).value;
    FirstSumIsZero(tokens);
    RawSumMonotone(tokens, p.next, |tokens|);
    LastTokenIsEof(input, 0, []);
    NoValueEndsAfterEof(tokens, 0, 0);
    SizesBound(p.value);
    PrintableExactly(p.value);
  }

  lemma FirstSumIsZero(tokens: seq<Token>)
    ensures RawSum(tokens, 0) == 0
  {
  }

  lemma {:induction false} LastTokenIsEof(input: bytes, i: nat, tokens: seq<Token>)
    requires i <= |input| && TokensFrom(input, i, tokens).Ok?
    ensures var all := TokensFrom(input, i, tokens).value;
            |all| > 0 && all[|all| - 1] == EOF
    decreases |input| - i
  {
    hide TokenAt;
    if i < |input| {
      LastTokenIsEof(input, i + |TokenAt(input, i).value.raw|, tokens + [TokenAt(input, i).value]);
    }
  }

  /** The token before the end of a parsed value is no end marker. */
  lemma NoValueEndsAfterEof(tokens: seq<Token>, i: nat, depth: nat)
    requires i <= |tokens| && ValueAt(tokens, i, depth).Ok?
    ensures tokens[ValueAt(tokens, i, depth).value.next - 1].kind != EofToken
    decreases |tokens| - i
  {
    hide ElemsAt, MembersAt, DecodeString, ParseInt64, NewArray, NewObject;
    var j := Skip(tokens, i);
    if KindAt(tokens, j) == ArrayOpen {
      var k := Skip(tokens, j + 1);
      if KindAt(tokens, k) != ArrayClose {
        ElemsEnd(tokens, k, depth + 1, []);
      }
    } else if KindAt(tokens, j) == ObjectOpen {
      var k := Skip(tokens, j + 1);
      if KindAt(tokens, k) != ObjectClose {
        MembersEnd(tokens, k, depth + 1, [], {});
      }
    }
  }

  lemma {:induction false} ElemsEnd(tokens: seq<Token>, i: nat, depth: nat, values: seq<Value>)
    requires i <= |tokens| && ElemsAt(tokens, i, depth, values).Ok?
    ensures tokens[ElemsAt(tokens, i, depth, values).value.next - 1].kind == ArrayClose
    decreases |tokens| - i
  {
    hide ValueAt, NewArray;
    var p := ValueAt(tokens, i, depth).value;
    var j := Skip(tokens, p.next);
    if KindAt(tokens, j) == CommaMark {
      ElemsEnd(tokens, j + 1, depth, values + [p.value]);
    }
  }

  lemma {:induction false} MembersEnd(tokens: seq<Token>, i: nat, depth: nat, members: seq<Member>, seen: set<bytes>)
    requires i <= |tokens| && MembersAt(tokens, i, depth, members, seen).Ok?
    ensures tokens[MembersAt(tokens, i, depth, members, seen).value.next - 1].kind == ObjectClose
    decreases |tokens| - i
  {
    hide MemberAt, OrderedObject;
    var p := MemberAt(tokens, i, depth, seen).value;
    var j := Skip(tokens, p.next);
    if KindAt(tokens, j) == CommaMark {
      MembersEnd(tokens, j + 1, depth, members + [p.member], seen + {p.member.name});
    }
  }

  /** If `Parse` accepts an input with value `v`, then printing `v` succeeds under every limit,
      the output is no longer than the input, and parsing the output gives `v` again. */
  lemma ParseThenPrint(input: bytes)
    requires ParseBytes(input).Ok?
    ensures var v := ParseBytes(input).value;
            && CanonicalBytes(v) == Ok(Encode(v))
            && |Encode(v)| <= |input|
            && ParseBytes(Encode(v)) == Ok(v)
  {
    hide ParseBytes, WellFormed, Height, Encode, TokensOf, Printable, CanonicalBytes;
    AcceptedValue(input);
    PrintThenParse(ParseBytes(input).value);
    SmallIsPrintable(ParseBytes(input).value);
  }

  /** `Canonicalize` succeeds exactly when `Parse` does; it is idempotent and never expands. */
  lemma CanonicalizeIdempotent(input: bytes)
    ensures CanonicalForm(input).Ok? <==> ParseBytes(input).Ok?
    ensures CanonicalForm(input).Ok? ==>
              && |CanonicalForm(input).value| <= |input|
              && CanonicalForm(CanonicalForm(input).value) == CanonicalForm(input)
              && ParseBytes(CanonicalForm(input).value) == ParseBytes(input)
  {
    hide ParseBytes, Encode, CanonicalBytes;
    if ParseBytes(input).Ok? {
      ParseThenPrint(input);
    }
  }

  // ------------------------------------------------- the token ceiling is a premise of its own

  lemma {:induction false} SumUniform(s: seq<Value>, x: Value, f: Value -> nat)
    requires forall k :: 0 <= k < |s| ==> s[k] == x
    ensures Sum(s, f) == |s| * f(x)
  {
    if s != [] {
      SumUniform(s[1..], x, f);
    }
  }

  lemma {:induction false} NodesUniform(elems: seq<Value>, k: nat, x: Value)
    requires k <= |elems| && forall n :: 0 <= n < |elems| ==> elems[n] == x
    ensures NodesElems(elems, k) == (|elems| - k) * Nodes(x)
    ensures StringBytes(x) == 0 ==> StringBytesElems(elems, k) == 0
    decreases |elems| - k
  {
    if k < |elems| {
      NodesUniform(elems, k + 1, x);
    }
  }

  ghost function Copies(count: nat, x: Value): Value
  {
    Array(seq(count, _ => x))
  }

  lemma CopiesSizes(count: nat, x: Value)
    requires 0 < count <= MAX_CONTAINER_MEMBERS && WellFormed(x)
    ensures WellFormed(Copies(count, x)) && Height(Copies(count, x)) <= 1 + Height(x)
    ensures Nodes(Copies(count, x)) == 1 + count * Nodes(x)
    ensures StringBytes(x) == 0 ==> StringBytes(Copies(count, x)) == 0
    ensures |Encode(Copies(count, x))| == 1 + count * |Encode(x)| + count
    ensures |TokensOf(Copies(count, x))| == 1 + count * |TokensOf(x)| + count
  {
    var elems := Copies(count, x).elems;
    ArraySizes(elems);
    SumUniform(elems, x, EncodedLength);
    SumUniform(elems, x, TokenCount);
    NodesUniform(elems, 0, x);
    HeightElemsBound(elems, 0, 1 + Height(x));
  }

  /** Some printable value that fits the byte ceiling has more tokens than the scanner admits:
      the byte count alone does not make a printed value parseable. */
  lemma PrintableMayOutrunTokens() returns (v: Value)
    ensures Printable(v) && |Encode(v)| <= MAX_INPUT_BYTES
    ensures ParseBytes(Encode(v)) == Err(TokenLimit)
  {
    var row := Copies(MAX_CONTAINER_MEMBERS, Null);
    v := Copies(5, row);
    CopiesSizes(MAX_CONTAINER_MEMBERS, Null);
    CopiesSizes(5, row);
    hide Encode, TokensOf, ParseBytes, Nodes, WellFormed, Height;
    PrintableExactly(v);
    PrintThenParse(v);
  }
}
