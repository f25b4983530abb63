/** The tokens of a canonical encoding: scanning a printed value yields them, and parsing them
    yields the value. */
module CanonTokens {
  import opened Bytes
  import opened Sorting
  import opened CanonLimits
  import opened Decimal
  import opened Utf8
  import opened CanonValue
  import opened CanonScan
  import opened CanonParse
  import opened CanonStrings
  import opened CanonMeasures

  const COMMA_TOKEN: Token := Token(CommaMark, [COMMA])
  const COLON_TOKEN: Token := Token(ColonMark, [COLON])

  ghost function TokensOf(v: Value): (ts: seq<Token>)
    decreases v, 0
    ensures ts != []
  {
    match v
    case Null => [Token(NullToken, NULL_LITERAL)]
    case Bool(b) => if b then [Token(TrueToken, TRUE_LITERAL)] else [Token(FalseToken, FALSE_LITERAL)]
    case Integer(n) => [Token(IntegerToken, FormatInt(n))]
    case Text(s) => [Token(StringToken, Quote(s))]
    case Array(elems) =>
      [Token(ArrayOpen, [BRACKET_OPEN])] + ElemTokens(elems, 0) + [Token(ArrayClose, [BRACKET_CLOSE])]
    case Object(members) =>
      [Token(ObjectOpen, [BRACE_OPEN])] + MemberTokens(members, 0) + [Token(ObjectClose, [BRACE_CLOSE])]
  }

  ghost function SeparatorTokens(k: nat): seq<Token>
  {
    if k > 0 then [COMMA_TOKEN] else []
  }

  ghost function ElemTokens(elems: seq<Value>, k: nat): seq<Token>
    requires k <= |elems|
    decreases elems, 1, |elems| - k
  {
    if k == |elems| then [] else SeparatorTokens(k) + TokensOf(elems[k]) + ElemTokens(elems, k + 1)
  }

  ghost function OneMemberTokens(m: Member): seq<Token>
    decreases m, 0
  {
    [Token(StringToken, Quote(m.name))] + [COLON_TOKEN] + TokensOf(m.value)
  }

  ghost function MemberTokens(members: seq<Member>, k: nat): seq<Token>
    requires k <= |members|
    decreases members, 1, |members| - k
  {
    if k == |members| then [] else SeparatorTokens(k) + OneMemberTokens(members[k]) + MemberTokens(members, k + 1)
  }

  // ---------------------------------------------------------------- scanning what was printed

  /** Nothing follows that could extend a scalar. */
  predicate EndsAt(input: bytes, j: nat)
  {
    j >= |input| || IsDelimiter(input[j])
  }

  lemma {:induction false} ScalarEndAt(input: bytes, i: nat, e: bytes)
    requires At(input, i, e) && EndsAt(input, i + |e|)
    requires forall k :: 0 <= k < |e| ==> !IsDelimiter(e[k])
    ensures ScalarEnd(input, i) == i + |e|
    decreases |e|
  {
    if e != [] {
      AtIndex(input, i, e, 0);
      AtSplit(input, i, [e[0]], e[1..]);
      assert e == [e[0]] + e[1..];
      ScalarEndAt(input, i + 1, e[1..]);
    }
  }

  /** Scanning on from offset `i` after the tokens `acc`: the tokens `ts` lead to offset `j`, or
      the token ceiling is met on the way. */
  ghost predicate ScansAfter(input: bytes, i: nat, j: nat, ts: seq<Token>, acc: seq<Token>)
    requires i <= j <= |input|
  {
    if |acc| + |ts| <= MAX_TOKEN_COUNT - 1 then TokensFrom(input, i, acc) == TokensFrom(input, j, acc + ts)
    else TokensFrom(input, i, acc) == Err(TokenLimit)
  }

  /** The scanner consumes the tokens `ts` between offsets `i` and `j`. */
  ghost predicate Scans(input: bytes, i: nat, j: nat, ts: seq<Token>)
  {
    && i <= j <= |input|
    && forall acc :: |acc| <= MAX_TOKEN_COUNT - 1 ==> ScansAfter(input, i, j, ts, acc)
  }

  lemma ScansOne(input: bytes, i: nat, t: Token)
    requires i < |input| && TokenAt(input, i) == Ok(t)
    ensures Scans(input, i, i + |t.raw|, [t])
  {
    hide TokenAt, TokensFrom, ScansAfter;
    forall acc: seq<Token> | |acc| <= MAX_TOKEN_COUNT - 1
      ensures ScansAfter(input, i, i + |t.raw|, [t], acc)
    {
      TokensFromStep(input, i, acc, t);
    }
  }

  lemma TokensFromStep(input: bytes, i: nat, acc: seq<Token>, t: Token)
    requires i < |input| && TokenAt(input, i) == Ok(t) && |acc| <= MAX_TOKEN_COUNT - 1
    ensures ScansAfter(input, i, i + |t.raw|, [t], acc)
  {
    hide TokenAt;
  }

  lemma ScansNothing(input: bytes, i: nat)
    requires i <= |input|
    ensures Scans(input, i, i, [])
  {
    hide TokensFrom;
    forall acc: seq<Token> | |acc| <= MAX_TOKEN_COUNT - 1 ensures ScansAfter(input, i, i, [], acc) {
      assert acc + [] == acc;
    }
  }

  lemma ScansThen(input: bytes, i: nat, j: nat, k: nat, a: seq<Token>, b: seq<Token>)
    requires Scans(input, i, j, a) && Scans(input, j, k, b)
    ensures Scans(input, i, k, a + b)
  {
    hide TokensFrom;
    forall acc: seq<Token> | |acc| <= MAX_TOKEN_COUNT - 1
      ensures ScansAfter(input, i, k, a + b, acc)
    {
      ConcatAssoc(acc, a, b);
      assert ScansAfter(input, i, j, a, acc);
      if |acc| + |a| <= MAX_TOKEN_COUNT - 1 {
        assert ScansAfter(input, j, k, b, acc + a);
      }
    }
  }

  lemma ScansPunctuation(input: bytes, i: nat, b: byte)
    requires At(input, i, [b]) && Punctuation(b).Some?
    ensures Scans(input, i, i + 1, [Token(Punctuation(b).value, [b])])
    ensures input[i] == b
  {
    hide TokensFrom, Scans, IsWhitespace, StringEndFrom, WhitespaceEnd;
    AtIndex(input, i, [b], 0);
    PunctuationToken(input, i);
    ScansOne(input, i, Token(Punctuation(b).value, [b]));
  }

  lemma PunctuationToken(input: bytes, i: nat)
    requires i < |input| && Punctuation(input[i]).Some?
    ensures TokenAt(input, i) == Ok(Token(Punctuation(input[i]).value, [input[i]]))
  {
  }

  lemma QuotedToken(input: bytes, i: nat, e: bytes)
    requires At(input, i, e) && i < |input| && input[i] == QUOTE
    requires StringEndFrom(input, i + 1) == Ok(i + |e|)
    ensures TokenAt(input, i) == Ok(Token(StringToken, e))
  {
    hide StringEndFrom;
  }

  lemma ScansQuoted(input: bytes, i: nat, s: bytes)
    requires ValidUtf8(s) && At(input, i, Quote(s))
    ensures Scans(input, i, i + |Quote(s)|, [Token(StringToken, Quote(s))])
  {
    hide Quote, StringEndFrom, DecodeString, ValidUtf8From, TokensFrom, Scans, TokenAt;
    PrintedStringRoundTrips(input, i, s);
    QuotedToken(input, i, Quote(s));
    ScansOne(input, i, Token(StringToken, Quote(s)));
  }

  lemma ScansLiteral(input: bytes, i: nat, v: Value)
    requires v.Null? || v.Bool?
    requires At(input, i, Encode(v)) && EndsAt(input, i + |Encode(v)|)
    ensures Scans(input, i, i + |Encode(v)|, TokensOf(v))
  {
    hide Scans, TokensFrom;
    var e := Encode(v);
    ScalarEndAt(input, i, e);
    AtIndex(input, i, e, 0);
    ScansOne(input, i, TokensOf(v)[0]);
  }

  lemma ScansInteger(input: bytes, i: nat, n: int)
    requires SafeInteger(n)
    requires At(input, i, FormatInt(n)) && EndsAt(input, i + |FormatInt(n)|)
    ensures Scans(input, i, i + |FormatInt(n)|, [Token(IntegerToken, FormatInt(n))])
  {
    hide Scans, TokensFrom, FormatInt, IntegerLexeme, ParseInt64;
    var e := FormatInt(n);
    FormatIntDigits(n);
    ScalarEndAt(input, i, e);
    AtIndex(input, i, e, 0);
    FormatIntAccepted(n);
    ScansOne(input, i, Token(IntegerToken, e));
  }

  lemma FormatIntDigits(n: int)
    ensures forall k :: 0 <= k < |FormatInt(n)| ==> FormatInt(n)[k] == SIGN_MINUS || IsDigit(FormatInt(n)[k])
  {
    hide FormatNat;
  }

  lemma {:induction false} ScansValue(input: bytes, i: nat, v: Value)
    requires WellFormed(v) && At(input, i, Encode(v)) && EndsAt(input, i + |Encode(v)|)
    ensures Scans(input, i, i + |Encode(v)|, TokensOf(v))
    decreases v, 0
  {
    hide Scans, TokensFrom, At, EndsAt, Quote, EncodeElems, EncodeMembers, ElemTokens, MemberTokens;
    match v
    case Null => ScansLiteral(input, i, v);
    case Bool(_) => ScansLiteral(input, i, v);
    case Integer(n) => ScansInteger(input, i, n);
    case Text(s) => ScansQuoted(input, i, s);
    case Array(elems) => ScansArray(input, i, elems);
    case Object(members) => ScansObject(input, i, members);
  }

  lemma {:induction false} ScansArray(input: bytes, i: nat, elems: seq<Value>)
    requires WellFormed(Array(elems)) && At(input, i, Encode(Array(elems)))
    ensures Scans(input, i, i + |Encode(Array(elems))|, TokensOf(Array(elems)))
    decreases elems, 2
  {
    hide EncodeElems, ElemTokens, TokensFrom, Scans, At, Punctuation;
    var body := EncodeElems(elems, 0);
    AtSplit(input, i, [BRACKET_OPEN] + body, [BRACKET_CLOSE]);
    AtSplit(input, i, [BRACKET_OPEN], body);
    BracketKinds();
    ScansPunctuation(input, i, BRACKET_OPEN);
    ScansPunctuation(input, i + 1 + |body|, BRACKET_CLOSE);
    ScansElems(input, i + 1, elems, 0);
    ScansThen(input, i, i + 1, i + 1 + |body|, [Token(ArrayOpen, [BRACKET_OPEN])], ElemTokens(elems, 0));
    ScansThen(input, i, i + 1 + |body|, i + 2 + |body|, [Token(ArrayOpen, [BRACKET_OPEN])] + ElemTokens(elems, 0),
              [Token(ArrayClose, [BRACKET_CLOSE])]);
  }

  lemma {:induction false} ScansObject(input: bytes, i: nat, members: seq<Member>)
    requires WellFormed(Object(members)) && At(input, i, Encode(Object(members)))
    ensures Scans(input, i, i + |Encode(Object(members))|, TokensOf(Object(members)))
    decreases members, 3
  {
    hide EncodeMembers, MemberTokens, TokensFrom, Scans, At, Punctuation;
    var body := EncodeMembers(members, 0);
    AtSplit(input, i, [BRACE_OPEN] + body, [BRACE_CLOSE]);
    AtSplit(input, i, [BRACE_OPEN], body);
    BracketKinds();
    ScansPunctuation(input, i, BRACE_OPEN);
    ScansPunctuation(input, i + 1 + |body|, BRACE_CLOSE);
    ScansMembers(input, i + 1, members, 0);
    ScansThen(input, i, i + 1, i + 1 + |body|, [Token(ObjectOpen, [BRACE_OPEN])], MemberTokens(members, 0));
    ScansThen(input, i, i + 1 + |body|, i + 2 + |body|, [Token(ObjectOpen, [BRACE_OPEN])] + MemberTokens(members, 0),
              [Token(ObjectClose, [BRACE_CLOSE])]);
  }

  lemma BracketKinds()
    ensures Punctuation(BRACKET_OPEN) == Some(ArrayOpen) && Punctuation(BRACKET_CLOSE) == Some(ArrayClose)
    ensures Punctuation(BRACE_OPEN) == Some(ObjectOpen) && Punctuation(BRACE_CLOSE) == Some(ObjectClose)
    ensures Punctuation(COMMA) == Some(CommaMark) && Punctuation(COLON) == Some(ColonMark)
  {
  }

  lemma ScansSeparator(input: bytes, i: nat, k: nat)
    requires i <= |input| && At(input, i, Separator(k))
    ensures Scans(input, i, i + |Separator(k)|, SeparatorTokens(k))
  {
    hide Scans, TokensFrom;
    if k == 0 {
      ScansNothing(input, i);
    } else {
      ScansPunctuation(input, i, COMMA);
    }
  }

  /** Whatever follows an element, or a member value, ends a scalar. */
  lemma SeparatorEnds(input: bytes, j: nat, k: nat, rest: bytes)
    requires At(input, j, Separator(k + 1) + rest)
    ensures EndsAt(input, j)
  {
    AtIndex(input, j, Separator(k + 1) + rest, 0);
  }

  lemma {:induction false} ScansElems(input: bytes, i: nat, elems: seq<Value>, k: nat)
    requires k <= |elems| && i <= |input| && At(input, i, EncodeElems(elems, k))
    requires EndsAt(input, i + |EncodeElems(elems, k)|)
    requires forall n :: k <= n < |elems| ==> WellFormed(elems[n])
    ensures Scans(input, i, i + |EncodeElems(elems, k)|, ElemTokens(elems, k))
    decreases elems, 1, |elems| - k
  {
    hide TokensFrom, Scans, At, EndsAt, Encode, TokensOf, Separator, SeparatorTokens, WellFormed;
    if k == |elems| {
      ScansNothing(input, i);
    } else {
      var a, b, c := Separator(k), Encode(elems[k]), EncodeElems(elems, k + 1);
      AtSplit(input, i, a + b, c);
      AtSplit(input, i, a, b);
      ScansSeparator(input, i, k);
      if k + 1 < |elems| {
        ConcatAssoc(Separator(k + 1), Encode(elems[k + 1]), EncodeElems(elems, k + 2));
        SeparatorEnds(input, i + |a| + |b|, k, Encode(elems[k + 1]) + EncodeElems(elems, k + 2));
      } else {
        assert c == [];
      }
      ScansValue(input, i + |a|, elems[k]);
      ScansElems(input, i + |a| + |b|, elems, k + 1);
      ScansThen(input, i, i + |a|, i + |a| + |b|, SeparatorTokens(k), TokensOf(elems[k]));
      ScansThen(input, i, i + |a| + |b|, i + |a| + |b| + |c|, SeparatorTokens(k) + TokensOf(elems[k]),
                ElemTokens(elems, k + 1));
    }
  }

  lemma {:induction false} ScansMember(input: bytes, i: nat, m: Member)
    requires ValidUtf8(m.name) && WellFormed(m.value)
    requires At(input, i, EncodeMember(m)) && EndsAt(input, i + |EncodeMember(m)|)
    ensures Scans(input, i, i + |EncodeMember(m)|, OneMemberTokens(m))
    decreases m, 1
  {
    hide TokensFrom, Scans, At, EndsAt, Quote, Punctuation, ValidUtf8;
    var a, b, c := Quote(m.name), [COLON], Encode(m.value);
    AtSplit(input, i, a + b, c);
    AtSplit(input, i, a, b);
    BracketKinds();
    ScansQuoted(input, i, m.name);
    ScansPunctuation(input, i + |a|, COLON);
    ScansValue(input, i + |a| + 1, m.value);
    ScansThen(input, i, i + |a|, i + |a| + 1, [Token(StringToken, a)], [COLON_TOKEN]);
    ScansThen(input, i, i + |a| + 1, i + |a| + 1 + |c|, [Token(StringToken, a)] + [COLON_TOKEN], TokensOf(m.value));
  }

  lemma {:induction false} ScansMembers(input: bytes, i: nat, members: seq<Member>, k: nat)
    requires k <= |members| && i <= |input| && At(input, i, EncodeMembers(members, k))
    requires EndsAt(input, i + |EncodeMembers(members, k)|)
    requires forall n :: k <= n < |members| ==> ValidUtf8(members[n].name) && WellFormed(members[n].value)
    ensures Scans(input, i, i + |EncodeMembers(members, k)|, MemberTokens(members, k))
    decreases members, 2, |members| - k
  {
    hide TokensFrom, Scans, At, EndsAt, EncodeMember, OneMemberTokens, Separator, SeparatorTokens, WellFormed, ValidUtf8;
    if k == |members| {
      ScansNothing(input, i);
    } else {
      var a, b, c := Separator(k), EncodeMember(members[k]), EncodeMembers(members, k + 1);
      AtSplit(input, i, a + b, c);
      AtSplit(input, i, a, b);
      ScansSeparator(input, i, k);
      if k + 1 < |members| {
        ConcatAssoc(Separator(k + 1), EncodeMember(members[k + 1]), EncodeMembers(members, k + 2));
        SeparatorEnds(input, i + |a| + |b|, k, EncodeMember(members[k + 1]) + EncodeMembers(members, k + 2));
      } else {
        assert c == [];
      }
      ScansMember(input, i + |a|, members[k]);
      ScansMembers(input, i + |a| + |b|, members, k + 1);
      ScansThen(input, i, i + |a|, i + |a| + |b|, SeparatorTokens(k), OneMemberTokens(members[k]));
      ScansThen(input, i, i + |a| + |b|, i + |a| + |b| + |c|, SeparatorTokens(k) + OneMemberTokens(members[k]),
                MemberTokens(members, k + 1));
    }
  }
}
