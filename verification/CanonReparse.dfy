/** Parsing the tokens of a printed value gives the value back. */
module CanonReparse {
  import opened Bytes
  import opened Sorting
  import opened CanonLimits
  import opened Decimal
  import opened Utf8
  import opened CanonValue
  import opened CanonScan
  import opened CanonParse
  import opened CanonStrings
  import opened CanonMeasures
  import opened CanonTokens

  /** A member of an array is within whatever bounds the array is within. */
  lemma {:induction false} ElemMeasures(elems: seq<Value>, k: nat, n: nat)
    requires k <= n < |elems|
    ensures Nodes(elems[n]) <= NodesElems(elems, k)
    ensures StringBytes(elems[n]) <= StringBytesElems(elems, k)
    ensures 1 + Height(elems[n]) <= HeightElems(elems, k)
    decreases n - k
  {
    if k < n {
      ElemMeasures(elems, k + 1, n);
    }
  }

  lemma {:induction false} MemberMeasures(members: seq<Member>, k: nat, n: nat)
    requires k <= n < |members|
    ensures Nodes(members[n].value) <= NodesMembers(members, k)
    ensures StringBytes(members[n].value) <= StringBytesMembers(members, k)
    ensures 1 + Height(members[n].value) <= HeightMembers(members, k)
    decreases n - k
  {
    if k < n {
      MemberMeasures(members, k + 1, n);
    }
  }

  /** A value the parser can meet at a depth. */
  predicate Fits(v: Value, depth: nat)
  {
    && WellFormed(v)
    && depth + Height(v) <= MAX_NESTING_DEPTH
    && Nodes(v) <= MAX_TYPED_NODES
    && StringBytes(v) <= MAX_TYPED_STRING_BYTES
  }

  lemma FitsElem(elems: seq<Value>, depth: nat, n: nat)
    requires Fits(Array(elems), depth) && n < |elems|
    ensures Fits(elems[n], depth + 1)
  {
    ElemMeasures(elems, 0, n);
  }

  lemma FitsMember(members: seq<Member>, depth: nat, n: nat)
    requires Fits(Object(members), depth) && n < |members|
    ensures Fits(members[n].value, depth + 1) && ValidUtf8(members[n].name)
  {
    MemberMeasures(members, 0, n);
  }

  /** The constructor's recheck admits every array within the limits. */
  lemma NewArrayAdmits(elems: seq<Value>, depth: nat)
    requires Fits(Array(elems), depth)
    ensures NewArray(elems) == Ok(Array(elems))
  {
    PrintableExactly(Array(elems));
  }

  lemma SkipNothing(tokens: seq<Token>, i: nat)
    requires KindAt(tokens, i) != Whitespace
    ensures Skip(tokens, i) == i
  {
  }

  /** A value starts with a token of its kind. */
  lemma FirstToken(tokens: seq<Token>, i: nat, v: Value)
    requires At(tokens, i, TokensOf(v))
    ensures i < |tokens| && tokens[i] == TokensOf(v)[0]
    ensures tokens[i].kind != Whitespace && tokens[i].kind != ArrayClose
  {
    AtIndex(tokens, i, TokensOf(v), 0);
  }

  lemma ParsesScalar(tokens: seq<Token>, i: nat, depth: nat, v: Value)
    requires Fits(v, depth) && !v.Array? && !v.Object? && At(tokens, i, TokensOf(v))
    ensures ValueAt(tokens, i, depth) == Ok(Parsed(v, i + |TokensOf(v)|))
  {
    hide DecodeString, ParseInt64, FormatInt, Quote, ArrayAt, ObjectAt, ValidUtf8From;
    FirstToken(tokens, i, v);
    SkipNothing(tokens, i);
    match v
    case Integer(n) => FormatIntAccepted(n);
    case Text(s) => QuotedDecodes(s);
    case _ =>
  }

  lemma {:induction false} ParsesValue(tokens: seq<Token>, i: nat, depth: nat, v: Value)
    requires Fits(v, depth) && At(tokens, i, TokensOf(v))
    ensures ValueAt(tokens, i, depth) == Ok(Parsed(v, i + |TokensOf(v)|))
    decreases v, 0
  {
    hide ArrayAt, ObjectAt, Fits, TokensOf, Scalar, At;
    if v.Array? {
      ParsesArray(tokens, i, depth, v.elems);
      ContainerAt(tokens, i, depth, v);
    } else if v.Object? {
      ParsesObject(tokens, i, depth, v.members);
      ContainerAt(tokens, i, depth, v);
    } else {
      ParsesScalar(tokens, i, depth, v);
    }
  }

  lemma ContainerAt(tokens: seq<Token>, i: nat, depth: nat, v: Value)
    requires Fits(v, depth) && (v.Array? || v.Object?) && At(tokens, i, TokensOf(v))
    ensures i < |tokens|
    ensures v.Array? ==> ValueAt(tokens, i, depth) == ArrayAt(tokens, i, depth + 1)
    ensures v.Object? ==> ValueAt(tokens, i, depth) == ObjectAt(tokens, i, depth + 1)
  {
    hide ArrayAt, ObjectAt;
    FirstToken(tokens, i, v);
    SkipNothing(tokens, i);
  }

  const ARRAY_OPEN: Token := Token(ArrayOpen, [BRACKET_OPEN])
  const ARRAY_CLOSE: Token := Token(ArrayClose, [BRACKET_CLOSE])
  const OBJECT_OPEN: Token := Token(ObjectOpen, [BRACE_OPEN])
  const OBJECT_CLOSE: Token := Token(ObjectClose, [BRACE_CLOSE])

  lemma ContainerParts(tokens: seq<Token>, i: nat, open: Token, body: seq<Token>, close: Token)
    requires At(tokens, i, [open] + body + [close])
    ensures i + 1 < |tokens| && tokens[i] == open
    ensures At(tokens, i + 1, body + [close])
    ensures body == [] ==> tokens[i + 1] == close
  {
    ConcatAssoc([open], body, [close]);
    AtSplit(tokens, i, [open], body + [close]);
    AtIndex(tokens, i, [open], 0);
    AtIndex(tokens, i + 1, body + [close], 0);
  }

  lemma ArrayStarts(tokens: seq<Token>, i: nat, depth: nat)
    requires i + 1 < |tokens| && tokens[i].kind == ArrayOpen && tokens[i + 1].kind != Whitespace
    ensures ArrayAt(tokens, i, depth) ==
            if tokens[i + 1].kind == ArrayClose then Finish(NewArray([]), i + 2) else ElemsAt(tokens, i + 1, depth, [])
  {
    hide ElemsAt, NewArray;
    SkipNothing(tokens, i);
    SkipNothing(tokens, i + 1);
  }

  lemma {:induction false} ParsesArray(tokens: seq<Token>, i: nat, depth: nat, elems: seq<Value>)
    requires Fits(Array(elems), depth) && At(tokens, i, TokensOf(Array(elems)))
    ensures i < |tokens|
    ensures ArrayAt(tokens, i, depth + 1) == Ok(Parsed(Array(elems), i + |TokensOf(Array(elems))|))
    decreases elems, 2
  {
    hide ArrayAt, ElemsAt, ElemTokens, Fits, NewArray, At;
    var body := ElemTokens(elems, 0);
    ContainerParts(tokens, i, ARRAY_OPEN, body, ARRAY_CLOSE);
    if elems == [] {
      EmptyTokens();
      NewArrayAdmits(elems, depth);
    } else {
      hide TokensOf;
      FirstElemTokens(elems);
      ConcatAssoc(TokensOf(elems[0]), ElemTokens(elems, 1), [ARRAY_CLOSE]);
      AtSplit(tokens, i + 1, TokensOf(elems[0]), ElemTokens(elems, 1) + [ARRAY_CLOSE]);
      FirstToken(tokens, i + 1, elems[0]);
      ParsesElems(tokens, i + 1, depth, elems, 0);
      assert elems[..0] == [];
    }
    ArrayStarts(tokens, i, depth + 1);
  }

  lemma EmptyTokens()
    ensures ElemTokens([], 0) == [] && MemberTokens([], 0) == []
  {
  }

  lemma FirstElemTokens(elems: seq<Value>)
    requires elems != []
    ensures ElemTokens(elems, 0) == TokensOf(elems[0]) + ElemTokens(elems, 1)
  {
    assert SeparatorTokens(0) + TokensOf(elems[0]) == TokensOf(elems[0]);
  }

  lemma NextElemTokens(elems: seq<Value>, k: nat)
    requires 0 < k < |elems|
    ensures ElemTokens(elems, k) == [COMMA_TOKEN] + (TokensOf(elems[k]) + ElemTokens(elems, k + 1))
  {
    ConcatAssoc([COMMA_TOKEN], TokensOf(elems[k]), ElemTokens(elems, k + 1));
  }

  /** The element loop, from element `k` on. */
  lemma {:induction false} ParsesElems(tokens: seq<Token>, i: nat, depth: nat, elems: seq<Value>, k: nat)
    requires Fits(Array(elems), depth) && k < |elems| && i <= |tokens|
    requires At(tokens, i, TokensOf(elems[k]) + (ElemTokens(elems, k + 1) + [ARRAY_CLOSE]))
    ensures ElemsAt(tokens, i, depth + 1, elems[..k]) ==
            Ok(Parsed(Array(elems), i + |TokensOf(elems[k])| + |ElemTokens(elems, k + 1)| + 1))
    decreases elems, 1, |elems| - k
  {
    hide ElemsAt, ValueAt, NewArray, TokensOf, ElemTokens, Fits, At;
    var j := i + |TokensOf(elems[k])|;
    AtSplit(tokens, i, TokensOf(elems[k]), ElemTokens(elems, k + 1) + [ARRAY_CLOSE]);
    FitsElem(elems, depth, k);
    ParsesValue(tokens, i, depth + 1, elems[k]);
    assert elems[..k] + [elems[k]] == elems[..k + 1];
    FitsCount(elems, depth);
    if k + 1 < |elems| {
      var rest := TokensOf(elems[k + 1]) + ElemTokens(elems, k + 2);
      NextElemTokens(elems, k + 1);
      ConcatAssoc([COMMA_TOKEN], rest, [ARRAY_CLOSE]);
      ConcatAssoc(TokensOf(elems[k + 1]), ElemTokens(elems, k + 2), [ARRAY_CLOSE]);
      AtSplit(tokens, j, [COMMA_TOKEN], rest + [ARRAY_CLOSE]);
      ParsesElems(tokens, j + 1, depth, elems, k + 1);
      ElemThenComma(tokens, i, j, depth + 1, elems, k);
    } else {
      assert ElemTokens(elems, k + 1) + [ARRAY_CLOSE] == [ARRAY_CLOSE] by { NoMoreElems(elems); }
      NoMoreElems(elems);
      NewArrayAdmits(elems, depth);
      assert elems[..k + 1] == elems;
      ElemThenClose(tokens, i, j, depth + 1, elems, k);
    }
  }

  lemma NoMoreElems(elems: seq<Value>)
    ensures ElemTokens(elems, |elems|) == []
  {
  }

  lemma FitsCount(elems: seq<Value>, depth: nat)
    requires Fits(Array(elems), depth)
    ensures |elems| <= MAX_CONTAINER_MEMBERS
  {
  }

  lemma ElemThenComma(tokens: seq<Token>, i: nat, j: nat, depth: nat, elems: seq<Value>, k: nat)
    requires i < j && k < |elems| <= MAX_CONTAINER_MEMBERS && i <= |tokens|
    requires ValueAt(tokens, i, depth) == Ok(Parsed(elems[k], j)) && At(tokens, j, [COMMA_TOKEN])
    ensures j + 1 <= |tokens|
    ensures ElemsAt(tokens, i, depth, elems[..k]) == ElemsAt(tokens, j + 1, depth, elems[..k] + [elems[k]])
  {
    hide ValueAt, NewArray;
    AtIndex(tokens, j, [COMMA_TOKEN], 0);
    SkipNothing(tokens, j);
  }

  lemma ElemThenClose(tokens: seq<Token>, i: nat, j: nat, depth: nat, elems: seq<Value>, k: nat)
    requires i < j && k < |elems| <= MAX_CONTAINER_MEMBERS && i <= |tokens|
    requires ValueAt(tokens, i, depth) == Ok(Parsed(elems[k], j)) && At(tokens, j, [ARRAY_CLOSE])
    ensures ElemsAt(tokens, i, depth, elems[..k]) == Finish(NewArray(elems[..k] + [elems[k]]), j + 1)
  {
    hide ValueAt, NewArray;
    AtIndex(tokens, j, [ARRAY_CLOSE], 0);
    SkipNothing(tokens, j);
  }

  // ---------------------------------------------------------------- objects

  lemma ObjectStarts(tokens: seq<Token>, i: nat, depth: nat)
    requires i + 1 < |tokens| && tokens[i].kind == ObjectOpen && tokens[i + 1].kind != Whitespace
    ensures ObjectAt(tokens, i, depth) ==
            if tokens[i + 1].kind == ObjectClose then Finish(NewObject([]), i + 2)
            else MembersAt(tokens, i + 1, depth, [], {})
  {
    hide MembersAt, NewObject;
    SkipNothing(tokens, i);
    SkipNothing(tokens, i + 1);
  }

  lemma {:induction false} ParsesObject(tokens: seq<Token>, i: nat, depth: nat, members: seq<Member>)
    requires Fits(Object(members), depth) && At(tokens, i, TokensOf(Object(members)))
    ensures i < |tokens|
    ensures ObjectAt(tokens, i, depth + 1) == Ok(Parsed(Object(members), i + |TokensOf(Object(members))|))
    decreases members, 3
  {
    hide ObjectAt, MembersAt, MemberTokens, Fits, NewObject, At, OneMemberTokens;
    var body := MemberTokens(members, 0);
    ContainerParts(tokens, i, OBJECT_OPEN, body, OBJECT_CLOSE);
    if members == [] {
      EmptyTokens();
      NewObjectAdmitsEmpty();
    } else {
      FirstMemberTokens(members);
      ConcatAssoc(OneMemberTokens(members[0]), MemberTokens(members, 1), [OBJECT_CLOSE]);
      AtSplit(tokens, i + 1, OneMemberTokens(members[0]), MemberTokens(members, 1) + [OBJECT_CLOSE]);
      FirstMemberToken(tokens, i + 1, members[0]);
      ParsesMembers(tokens, i + 1, depth, members, 0, {});
      assert members[..0] == [];
    }
    ObjectStarts(tokens, i, depth + 1);
  }

  lemma NewObjectAdmitsEmpty()
    ensures NewObject([]) == Ok(Object([]))
  {
    PrintableExactly(Object([]));
  }

  lemma FirstMemberTokens(members: seq<Member>)
    requires members != []
    ensures MemberTokens(members, 0) == OneMemberTokens(members[0]) + MemberTokens(members, 1)
  {
    assert SeparatorTokens(0) + OneMemberTokens(members[0]) == OneMemberTokens(members[0]);
  }

  lemma NextMemberTokens(members: seq<Member>, k: nat)
    requires 0 < k < |members|
    ensures MemberTokens(members, k) == [COMMA_TOKEN] + (OneMemberTokens(members[k]) + MemberTokens(members, k + 1))
  {
    ConcatAssoc([COMMA_TOKEN], OneMemberTokens(members[k]), MemberTokens(members, k + 1));
  }

  lemma NoMoreMembers(members: seq<Member>)
    ensures MemberTokens(members, |members|) == []
  {
  }

  lemma FirstMemberToken(tokens: seq<Token>, i: nat, m: Member)
    requires At(tokens, i, OneMemberTokens(m))
    ensures i < |tokens| && tokens[i] == Token(StringToken, Quote(m.name))
  {
    AtIndex(tokens, i, OneMemberTokens(m), 0);
  }

  /** A name that is valid and new passes, and its colon is consumed. */
  lemma ParsesName(tokens: seq<Token>, i: nat, name: bytes, seen: set<bytes>)
    requires ValidUtf8(name) && name !in seen
    requires At(tokens, i, [Token(StringToken, Quote(name))]) && At(tokens, i + 1, [COLON_TOKEN])
    ensures i < |tokens| && NameAt(tokens, i, seen) == Ok(ParsedName(name, i + 2))
  {
    hide DecodeString, Quote, ValidUtf8From;
    AtIndex(tokens, i, [Token(StringToken, Quote(name))], 0);
    AtIndex(tokens, i + 1, [COLON_TOKEN], 0);
    SkipNothing(tokens, i);
    SkipNothing(tokens, i + 1);
    QuotedDecodes(name);
  }

  lemma {:induction false} ParsesMember(tokens: seq<Token>, i: nat, depth: nat, m: Member, seen: set<bytes>)
    requires ValidUtf8(m.name) && m.name !in seen && Fits(m.value, depth)
    requires At(tokens, i, OneMemberTokens(m))
    ensures i < |tokens|
    ensures MemberAt(tokens, i, depth, seen) == Ok(ParsedMember(m, i + |OneMemberTokens(m)|))
    decreases m, 1
  {
    hide NameAt, ValueAt, TokensOf, Fits, At, Quote, ValidUtf8;
    var name := [Token(StringToken, Quote(m.name))];
    AtSplit(tokens, i, name + [COLON_TOKEN], TokensOf(m.value));
    AtSplit(tokens, i, name, [COLON_TOKEN]);
    ParsesName(tokens, i, m.name, seen);
    ParsesValue(tokens, i + 2, depth, m.value);
  }

  /** `seen` holds just names of the members before `k`. */
  predicate SeenBefore(members: seq<Member>, k: nat, seen: set<bytes>)
    requires k <= |members|
  {
    forall name :: name in seen ==> exists n :: 0 <= n < k && members[n].name == name
  }

  lemma SeenNext(members: seq<Member>, k: nat, seen: set<bytes>, depth: nat)
    requires Fits(Object(members), depth) && k < |members| && SeenBefore(members, k, seen)
    ensures members[k].name !in seen
    ensures SeenBefore(members, k + 1, seen + {members[k].name})
  {
    StrictIsDistinct(members, MemberName);
    forall n | 0 <= n < k ensures members[n].name != members[k].name {
      assert MemberName(members[n]) != MemberName(members[k]);
    }
  }

  lemma FitsObject(members: seq<Member>, depth: nat)
    requires Fits(Object(members), depth)
    ensures |members| <= MAX_CONTAINER_MEMBERS
    ensures OrderedObject(members) == Object(members)
  {
    SortByIdempotent(members, MemberName);
  }

  lemma {:induction false} ParsesMembers(tokens: seq<Token>, i: nat, depth: nat, members: seq<Member>, k: nat,
                                         seen: set<bytes>)
    requires Fits(Object(members), depth) && k < |members| && i <= |tokens|
    requires SeenBefore(members, k, seen)
    requires At(tokens, i, OneMemberTokens(members[k]) + (MemberTokens(members, k + 1) + [OBJECT_CLOSE]))
    ensures MembersAt(tokens, i, depth + 1, members[..k], seen) ==
            Ok(Parsed(Object(members), i + |OneMemberTokens(members[k])| + |MemberTokens(members, k + 1)| + 1))
    decreases members, 2, |members| - k
  {
    hide MembersAt, MemberAt, OneMemberTokens, MemberTokens, Fits, At, SeenBefore, ValidUtf8;
    var j := i + |OneMemberTokens(members[k])|;
    AtSplit(tokens, i, OneMemberTokens(members[k]), MemberTokens(members, k + 1) + [OBJECT_CLOSE]);
    FitsMember(members, depth, k);
    SeenNext(members, k, seen, depth);
    ParsesMember(tokens, i, depth + 1, members[k], seen);
    assert members[..k] + [members[k]] == members[..k + 1];
    FitsObject(members, depth);
    if k + 1 < |members| {
      var rest := OneMemberTokens(members[k + 1]) + MemberTokens(members, k + 2);
      NextMemberTokens(members, k + 1);
      ConcatAssoc([COMMA_TOKEN], rest, [OBJECT_CLOSE]);
      ConcatAssoc(OneMemberTokens(members[k + 1]), MemberTokens(members, k + 2), [OBJECT_CLOSE]);
      AtSplit(tokens, j, [COMMA_TOKEN], rest + [OBJECT_CLOSE]);
      MemberThenComma(tokens, i, j, depth + 1, members, k, seen);
      ParsesMembers(tokens, j + 1, depth, members, k + 1, seen + {members[k].name});
    } else {
      NoMoreMembers(members);
      assert MemberTokens(members, k + 1) + [OBJECT_CLOSE] == [OBJECT_CLOSE];
      assert members[..k + 1] == members;
      MemberThenClose(tokens, i, j, depth + 1, members, k, seen);
    }
  }

  lemma MemberThenComma(tokens: seq<Token>, i: nat, j: nat, depth: nat, members: seq<Member>, k: nat,
                        seen: set<bytes>)
    requires i < j && k < |members| <= MAX_CONTAINER_MEMBERS && i <= |tokens|
    requires MemberAt(tokens, i, depth, seen) == Ok(ParsedMember(members[k], j)) && At(tokens, j, [COMMA_TOKEN])
    ensures j + 1 <= |tokens|
    ensures MembersAt(tokens, i, depth, members[..k], seen) ==
            MembersAt(tokens, j + 1, depth, members[..k] + [members[k]], seen + {members[k].name})
  {
    hide MemberAt, OrderedObject;
    AtIndex(tokens, j, [COMMA_TOKEN], 0);
    SkipNothing(tokens, j);
  }

  lemma MemberThenClose(tokens: seq<Token>, i: nat, j: nat, depth: nat, members: seq<Member>, k: nat,
                        seen: set<bytes>)
    requires i < j && k < |members| <= MAX_CONTAINER_MEMBERS && i <= |tokens|
    requires MemberAt(tokens, i, depth, seen) == Ok(ParsedMember(members[k], j)) && At(tokens, j, [OBJECT_CLOSE])
    ensures MembersAt(tokens, i, depth, members[..k], seen) ==
            Ok(Parsed(OrderedObject(members[..k] + [members[k]]), j + 1))
  {
    hide MemberAt, OrderedObject;
    AtIndex(tokens, j, [OBJECT_CLOSE], 0);
    SkipNothing(tokens, j);
  }

  /** A complete token stream of one value parses to the value. */
  lemma ParsesStream(v: Value)
    requires Fits(v, 0)
    ensures ParseTokens(TokensOf(v) + [EOF]) == Ok(v)
  {
    hide ValueAt, Fits, TokensOf;
    var tokens := TokensOf(v) + [EOF];
    assert tokens[0..0 + |TokensOf(v)|] == TokensOf(v);
    ParsesValue(tokens, 0, 0, v);
    assert tokens[|TokensOf(v)|] == EOF;
    SkipNothing(tokens, |TokensOf(v)|);
  }
}
