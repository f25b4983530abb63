/** Parsing the lexemes of a spelling gives its meaning. */
module CanonMeanings {
  import opened Bytes
  import opened Sorting
  import opened CanonLimits
  import opened Decimal
  import opened Utf8
  import opened CanonValue
  import opened CanonScan
  import opened CanonParse
  import opened CanonStrings
  import opened CanonMeasures
  import opened CanonTokens
  import opened CanonReparse
  import opened CanonSizes
  import opened CanonAccepted
  import opened CanonGrammar
  import opened CanonChars
  import opened CanonReads

  /** Tokens as a scan leaves them, within the ceilings of the scanner. */
  ghost predicate Stream(tokens: seq<Token>)
  {
    GoodTokens(tokens) && |tokens| <= MAX_TOKEN_COUNT && RawSum(tokens, |tokens|) <= MAX_INPUT_BYTES
  }

  // -------------------------------------------------------------------- gaps

  lemma SkipTwice(tokens: seq<Token>, i: nat)
    ensures Skip(tokens, Skip(tokens, i)) == Skip(tokens, i)
  {
  }

  lemma SkipsGap(tokens: seq<Token>, i: nat, g: bytes)
    requires At(tokens, i, GapTokens(g)) && KindAt(tokens, i + GapCount(g)) != Whitespace
    ensures Skip(tokens, i) == i + GapCount(g)
  {
    if g != [] {
      AtIndex(tokens, i, GapTokens(g), 0);
      SkipNothing(tokens, i + 1);
    } else {
      SkipNothing(tokens, i);
    }
  }

  lemma ValueFromSkip(tokens: seq<Token>, i: nat, depth: nat)
    requires i <= |tokens|
    ensures Skip(tokens, i) <= |tokens| && ValueAt(tokens, i, depth) == ValueAt(tokens, Skip(tokens, i), depth)
  {
    hide ArrayAt, ObjectAt, Scalar;
    SkipTwice(tokens, i);
  }

  lemma ElemsFromSkip(tokens: seq<Token>, i: nat, depth: nat, values: seq<Value>)
    requires i <= |tokens|
    ensures Skip(tokens, i) <= |tokens| && ElemsAt(tokens, i, depth, values) == ElemsAt(tokens, Skip(tokens, i), depth, values)
  {
    hide ValueAt, NewArray;
    ValueFromSkip(tokens, i, depth);
  }

  lemma NameFromSkip(tokens: seq<Token>, i: nat, seen: set<bytes>)
    requires i <= |tokens|
    ensures Skip(tokens, i) <= |tokens| && NameAt(tokens, i, seen) == NameAt(tokens, Skip(tokens, i), seen)
  {
    hide DecodeString, AdmitName;
    SkipTwice(tokens, i);
  }

  lemma MembersFromSkip(tokens: seq<Token>, i: nat, depth: nat, members: seq<Member>, seen: set<bytes>)
    requires i <= |tokens|
    ensures Skip(tokens, i) <= |tokens|
    ensures MembersAt(tokens, i, depth, members, seen) == MembersAt(tokens, Skip(tokens, i), depth, members, seen)
  {
    hide MemberAt, OrderedObject;
    MemberFromSkip(tokens, i, depth, seen);
    assert MemberTurnAt(tokens, i, depth, members, seen) == MemberTurnAt(tokens, Skip(tokens, i), depth, members, seen);
    hide MemberTurnAt;
  }

  lemma MemberFromSkip(tokens: seq<Token>, i: nat, depth: nat, seen: set<bytes>)
    requires i <= |tokens|
    ensures Skip(tokens, i) <= |tokens| && MemberAt(tokens, i, depth, seen) == MemberAt(tokens, Skip(tokens, i), depth, seen)
  {
    hide NameAt, ValueAt;
    NameFromSkip(tokens, i, seen);
  }

  // ------------------------------------------------------------------- values

  predicate StartKind(k: TokenKind)
  {
    k != Whitespace && k != ArrayClose && k != ObjectClose && k != EofToken
  }

  lemma FirstLexeme(tokens: seq<Token>, i: nat, t: Syntax)
    requires At(tokens, i, SyntaxTokens(t))
    ensures i < |tokens| && tokens[i] == SyntaxTokens(t)[0] && StartKind(tokens[i].kind)
  {
    AtIndex(tokens, i, SyntaxTokens(t), 0);
  }

  lemma {:induction false} ReadsSyntax(tokens: seq<Token>, i: nat, depth: nat, t: Syntax)
    requires Stream(tokens) && Good(t) && InLimits(t, depth) && At(tokens, i, SyntaxTokens(t))
    ensures i < |tokens| && ValueAt(tokens, i, depth) == Ok(Parsed(Meaning(t), i + Lexemes(t)))
    decreases t
  {
    hide ArrayAt, ObjectAt, Scalar, At, Stream, Meaning, Good, InLimits, SyntaxTokens;
    DepthKept(t, depth);
    FirstLexeme(tokens, i, t);
    SkipNothing(tokens, i);
    if t.EmptyArray? || t.FullArray? {
      ReadsArray(tokens, i, depth, t);
      ArrayFirst(t);
    } else if t.EmptyObject? || t.FullObject? {
      ReadsObject(tokens, i, depth, t);
      ObjectFirst(t);
    } else {
      ReadsScalar(tokens[i], t, depth);
    }
  }

  lemma DepthKept(t: Syntax, depth: nat)
    requires InLimits(t, depth)
    ensures depth <= MAX_NESTING_DEPTH
  {
  }

  lemma ArrayFirst(t: Syntax)
    ensures t.EmptyArray? || t.FullArray? ==> SyntaxTokens(t)[0] == ARRAY_OPEN
  {
  }

  lemma ObjectFirst(t: Syntax)
    ensures t.EmptyObject? || t.FullObject? ==> SyntaxTokens(t)[0] == OBJECT_OPEN
  {
  }

  lemma ReadsScalar(token: Token, t: Syntax, depth: nat)
    requires Good(t) && InLimits(t, depth) && token == SyntaxTokens(t)[0]
    requires !t.EmptyArray? && !t.FullArray? && !t.EmptyObject? && !t.FullObject?
    ensures token.kind != ArrayOpen && token.kind != ObjectOpen && Scalar(token) == Ok(Meaning(t)) && Lexemes(t) == 1
    ensures depth <= MAX_NESTING_DEPTH
  {
    hide DecodeString, ParseInt64, FormatInt, StringText, GoodChars, CharsMeaning, StringEndFrom;
    match t
    case NumberSyntax(n) => FormatIntAccepted(n);
    case StringSyntax(chars) =>
      var raw := StringText(chars);
      assert raw[0..0 + |raw|] == raw;
      StringIsRead(raw, 0, chars);
    case _ =>
  }

  // ------------------------------------------------------------------- arrays

  /** An opening mark, a gap and a closing mark. */
  lemma ReadsEmpty(tokens: seq<Token>, i: nat, open: Token, gap: bytes, close: Token)
    requires open.kind != Whitespace && close.kind != Whitespace && At(tokens, i, [open] + (GapTokens(gap) + [close]))
    ensures i + 1 + GapCount(gap) < |tokens| && tokens[i] == open && tokens[i + 1 + GapCount(gap)] == close
    ensures Skip(tokens, i) == i && Skip(tokens, i + 1) == i + 1 + GapCount(gap)
  {
    hide At;
    AtSplit(tokens, i, [open], GapTokens(gap) + [close]);
    AtSplit(tokens, i + 1, GapTokens(gap), [close]);
    AtIndex(tokens, i, [open], 0);
    AtIndex(tokens, i + 1 + GapCount(gap), [close], 0);
    SkipNothing(tokens, i);
    SkipsGap(tokens, i + 1, gap);
  }

  lemma ReadsEmptyArray(tokens: seq<Token>, i: nat, depth: nat, gap: bytes)
    requires At(tokens, i, SyntaxTokens(EmptyArray(gap)))
    ensures i < |tokens| && ArrayAt(tokens, i, depth) == Ok(Parsed(Array([]), i + 2 + GapCount(gap)))
  {
    hide At, ElemsAt, NewArray;
    ReadsEmpty(tokens, i, ARRAY_OPEN, gap, ARRAY_CLOSE);
    EmptyContainers();
  }

  lemma ReadsEmptyObject(tokens: seq<Token>, i: nat, depth: nat, gap: bytes)
    requires At(tokens, i, SyntaxTokens(EmptyObject(gap)))
    ensures i < |tokens| && ObjectAt(tokens, i, depth) == Ok(Parsed(Object([]), i + 2 + GapCount(gap)))
  {
    hide At, MembersAt, NewObject;
    ReadsEmpty(tokens, i, OBJECT_OPEN, gap, OBJECT_CLOSE);
    EmptyContainers();
  }

  /** A full array is its elements, from the first one on. */
  lemma ArrayOpens(tokens: seq<Token>, i: nat, depth: nat, elements: Elements)
    requires At(tokens, i, SyntaxTokens(FullArray(elements)))
    ensures i + 1 <= |tokens| && tokens[i] == ARRAY_OPEN && At(tokens, i + 1, ElementsTokens(elements))
    ensures ArrayAt(tokens, i, depth) == ElemsAt(tokens, i + 1, depth, [])
  {
    hide At, ElemsAt, ElementsTokens;
    AtSplit(tokens, i, [ARRAY_OPEN], ElementsTokens(elements));
    AtIndex(tokens, i, [ARRAY_OPEN], 0);
    SkipNothing(tokens, i);
    FirstElement(tokens, i + 1, elements);
    ElemsFromSkip(tokens, i + 1, depth, []);
  }

  lemma {:induction false} ReadsArray(tokens: seq<Token>, i: nat, depth: nat, t: Syntax)
    requires Stream(tokens) && Good(t) && InLimits(t, depth) && At(tokens, i, SyntaxTokens(t)) && (t.EmptyArray? || t.FullArray?)
    ensures i < |tokens| && ArrayAt(tokens, i, depth + 1) == Ok(Parsed(Meaning(t), i + Lexemes(t)))
    decreases t, 0
  {
    hide ArrayAt, At, Stream, ElementsTokens, GoodElements, ElementsInLimits, SyntaxTokens;
    match t
    case EmptyArray(gap) => ReadsEmptyArray(tokens, i, depth + 1, gap);
    case FullArray(elements) => ReadsFullArray(tokens, i, depth, elements);
  }

  lemma {:induction false} ReadsFullArray(tokens: seq<Token>, i: nat, depth: nat, elements: Elements)
    requires Stream(tokens) && GoodElements(elements) && ElementsInLimits(elements, depth + 1)
    requires |ElementValues(elements)| <= MAX_CONTAINER_MEMBERS && At(tokens, i, SyntaxTokens(FullArray(elements)))
    ensures i < |tokens|
    ensures ArrayAt(tokens, i, depth + 1) == Ok(Parsed(Array(ElementValues(elements)), i + 1 + ElementsLexemes(elements)))
    decreases elements, 1
  {
    hide ArrayAt, ElemsAt, At, Stream, ElementsTokens, GoodElements, ElementsInLimits, SyntaxTokens, Collected, ElementValues,
      ElementsLexemes;
    ArrayOpens(tokens, i, depth + 1, elements);
    NothingCollected(tokens, i, depth + 1);
    ReadsElements(tokens, i, i + 1, depth + 1, elements, []);
    assert [] + ElementValues(elements) == ElementValues(elements);
  }

  lemma NothingCollected(tokens: seq<Token>, open: nat, depth: nat)
    requires Stream(tokens) && open < |tokens| && tokens[open].kind != EofToken
    ensures Collected(tokens, open, open + 1, depth, [])
  {
    OneMoreToken(tokens, open);
  }

  lemma FirstElement(tokens: seq<Token>, i: nat, e: Elements)
    requires At(tokens, i, ElementsTokens(e))
    ensures i <= |tokens| && StartKind(KindAt(tokens, Skip(tokens, i)))
  {
    hide SyntaxTokens, At;
    var a, b, c := GapTokens(e.item.before), SyntaxTokens(e.item.value), GapTokens(e.item.after);
    var rest := if e.LastElement? then [ARRAY_CLOSE] else [COMMA_TOKEN] + ElementsTokens(e.rest);
    AtSplit(tokens, i, a + (b + c), rest);
    AtSplit(tokens, i, a, b + c);
    AtSplit(tokens, i + |a|, b, c);
    FirstLexeme(tokens, i + |a|, e.item.value);
    SkipsGap(tokens, i, e.item.before);
  }

  /** A value between gaps. */
  lemma {:induction false} ReadsItem(tokens: seq<Token>, i: nat, depth: nat, item: Item) returns (next: nat)
    requires Stream(tokens) && GoodItem(item) && InLimits(item.value, depth) && At(tokens, i, ItemTokens(item))
    requires KindAt(tokens, i + ItemLexemes(item)) != Whitespace
    ensures i < next <= i + ItemLexemes(item) <= |tokens|
    ensures ValueAt(tokens, i, depth) == Ok(Parsed(Meaning(item.value), next))
    ensures Skip(tokens, next) == i + ItemLexemes(item)
    decreases item
  {
    hide At, ValueAt, Stream, SyntaxTokens, Good, InLimits, Meaning;
    var a, b, c := GapTokens(item.before), SyntaxTokens(item.value), GapTokens(item.after);
    AtSplit(tokens, i, a, b + c);
    AtSplit(tokens, i + |a|, b, c);
    FirstLexeme(tokens, i + |a|, item.value);
    SkipsGap(tokens, i, item.before);
    ReadsSyntax(tokens, i + |a|, depth, item.value);
    ValueFromSkip(tokens, i, depth);
    next := i + |a| + |b|;
    SkipsGap(tokens, next, item.after);
  }

  /** Collected elements always print, so the recheck of an array never refuses. */
  lemma ArrayAdmitted(tokens: seq<Token>, open: nat, j: nat, depth: nat, all: seq<Value>)
    requires Stream(tokens) && open < j < |tokens| && 0 < depth && all != [] && |all| <= MAX_CONTAINER_MEMBERS
    requires forall n :: 0 <= n < |all| ==> WellFormed(all[n]) && depth + Height(all[n]) <= MAX_NESTING_DEPTH
    requires Sum(all, EncodedLength) + |all| <= RawSum(tokens, j) - RawSum(tokens, open)
    requires Sum(all, TokenCount) + |all| <= j - open
    requires RawSum(tokens, j + 1) >= RawSum(tokens, j) + 1
    ensures NewArray(all) == Ok(Array(all))
  {
    hide Encode, TokensOf, Sum, RawSum, CanonicalBytes, GoodTokens;
    ArraySizes(all);
    SizesBound(Array(all));
    assert WellFormed(all[0]) && depth + Height(all[0]) <= MAX_NESTING_DEPTH;
    HeightElemsBound(all, 0, MAX_NESTING_DEPTH - depth + 1);
    RawSumMonotone(tokens, j + 1, |tokens|);
    PrintableExactly(Array(all));
  }

  /** What the element loop does with a value and the mark behind it. */
  lemma ElementTurn(tokens: seq<Token>, i: nat, depth: nat, values: seq<Value>, v: Value, next: nat)
    requires i < next <= |tokens| && |values| < MAX_CONTAINER_MEMBERS && ValueAt(tokens, i, depth) == Ok(Parsed(v, next))
    ensures var j := Skip(tokens, next);
            && (KindAt(tokens, j) == ArrayClose ==> ElemsAt(tokens, i, depth, values) == Finish(NewArray(values + [v]), j + 1))
            && (KindAt(tokens, j) == CommaMark ==>
                  j + 1 <= |tokens| && ElemsAt(tokens, i, depth, values) == ElemsAt(tokens, j + 1, depth, values + [v]))
  {
    hide ValueAt, NewArray;
  }

  lemma {:induction false} ReadsElements(tokens: seq<Token>, open: nat, i: nat, depth: nat, e: Elements, values: seq<Value>)
    requires Stream(tokens) && 0 < depth && GoodElements(e) && ElementsInLimits(e, depth) && At(tokens, i, ElementsTokens(e))
    requires |values| + |ElementValues(e)| <= MAX_CONTAINER_MEMBERS
    requires Collected(tokens, open, i, depth, values)
    ensures i <= |tokens|
    ensures ElemsAt(tokens, i, depth, values) == Ok(Parsed(Array(values + ElementValues(e)), i + ElementsLexemes(e)))
    decreases e, 0
  {
    hide At, ValueAt, ElemsAt, Stream, Meaning, GoodItem, ItemTokens, NewArray, Collected, WellFormed, RawSum, Sum, InLimits, Skip,
      Height, Encode, TokensOf, GoodTokens, ItemLexemes;
    var item := e.item;
    var tail := if e.LastElement? then [ARRAY_CLOSE] else [COMMA_TOKEN] + ElementsTokens(e.rest);
    var j := i + ItemLexemes(item);
    AtSplit(tokens, i, ItemTokens(item), tail);
    AtIndex(tokens, j, tail, 0);
    var next := ReadsItem(tokens, i, depth, item);
    var v := Meaning(item.value);
    ElementTurn(tokens, i, depth, values, v, next);
    var all := values + [v];
    ElementCollected(tokens, open, i, j, next, depth, values, v);
    match e
    case LastElement(_) =>
      ArrayAdmitted(tokens, open, j, depth, all);
    case NextElement(_, rest) =>
      AtSplit(tokens, j, [COMMA_TOKEN], ElementsTokens(rest));
      CollectedComma(tokens, open, j, depth, all);
      ConcatAssoc(values, [v], ElementValues(rest));
      ReadsElements(tokens, open, j + 1, depth, rest, all);
  }

  lemma ElementCollected(tokens: seq<Token>, open: nat, i: nat, j: nat, next: nat, depth: nat, values: seq<Value>, v: Value)
    requires Stream(tokens) && Collected(tokens, open, i, depth, values) && i <= |tokens|
    requires ValueAt(tokens, i, depth) == Ok(Parsed(v, next)) && next <= j < |tokens| && tokens[j].kind != EofToken
    ensures var all := values + [v];
            && (forall n :: 0 <= n < |all| ==> WellFormed(all[n]) && depth + Height(all[n]) <= MAX_NESTING_DEPTH)
            && Sum(all, EncodedLength) + |all| <= RawSum(tokens, j) - RawSum(tokens, open)
            && Sum(all, TokenCount) + |all| <= j - open
            && open < j && RawSum(tokens, j + 1) >= RawSum(tokens, j) + 1
  {
    hide ValueAt, Collected, WellFormed, RawSum, Sum, Height, Encode, TokensOf, GoodTokens, Bounded;
    ValueBounded(tokens, i, depth);
    CollectValue(tokens, open, i, next, j, depth, values, v);
    OneMoreToken(tokens, j);
  }

  // ------------------------------------------------------------------ objects

  lemma ObjectOpens(tokens: seq<Token>, i: nat, depth: nat, fields: Fields)
    requires At(tokens, i, SyntaxTokens(FullObject(fields)))
    ensures i + 1 <= |tokens| && At(tokens, i + 1, FieldsTokens(fields))
    ensures ObjectAt(tokens, i, depth) == MembersAt(tokens, i + 1, depth, [], {})
  {
    hide At, MembersAt, FieldsTokens;
    AtSplit(tokens, i, [OBJECT_OPEN], FieldsTokens(fields));
    AtIndex(tokens, i, [OBJECT_OPEN], 0);
    SkipNothing(tokens, i);
    FirstField(tokens, i + 1, fields);
    MembersFromSkip(tokens, i + 1, depth, [], {});
  }

  lemma {:induction false} ReadsObject(tokens: seq<Token>, i: nat, depth: nat, t: Syntax)
    requires Stream(tokens) && Good(t) && InLimits(t, depth) && At(tokens, i, SyntaxTokens(t)) && (t.EmptyObject? || t.FullObject?)
    ensures i < |tokens| && ObjectAt(tokens, i, depth + 1) == Ok(Parsed(Meaning(t), i + Lexemes(t)))
    decreases t, 0
  {
    hide ObjectAt, At, Stream, FieldsTokens, GoodFields, FieldsInLimits, SortBy, SyntaxTokens;
    match t
    case EmptyObject(gap) => ReadsEmptyObject(tokens, i, depth + 1, gap);
    case FullObject(fields) =>
      ObjectOpens(tokens, i, depth + 1, fields);
      ReadsFields(tokens, i + 1, depth + 1, fields, [], {});
      assert [] + FieldMembers(fields) == FieldMembers(fields);
  }

  lemma FirstField(tokens: seq<Token>, i: nat, f: Fields)
    requires At(tokens, i, FieldsTokens(f))
    ensures i <= |tokens| && StartKind(KindAt(tokens, Skip(tokens, i)))
  {
    hide At, ItemTokens;
    var field := f.field;
    var a, b := GapTokens(field.before), [Token(StringToken, StringText(field.name))];
    var c := GapTokens(field.middle) + [COLON_TOKEN];
    var rest := if f.LastField? then [OBJECT_CLOSE] else [COMMA_TOKEN] + FieldsTokens(f.rest);
    AtSplit(tokens, i, FieldTokens(field), rest);
    AtSplit(tokens, i, a + (b + c), ItemTokens(field.item));
    AtSplit(tokens, i, a, b + c);
    AtSplit(tokens, i + |a|, b, c);
    AtIndex(tokens, i + |a|, b, 0);
    SkipsGap(tokens, i, field.before);
  }

  lemma ReadsName(tokens: seq<Token>, i: nat, f: Field, seen: set<bytes>)
    requires GoodChars(f.name) && CharsMeaning(f.name) !in seen && At(tokens, i, NameTokens(f))
    ensures i < |tokens| && NameAt(tokens, i, seen) == Ok(ParsedName(CharsMeaning(f.name), i + |NameTokens(f)|))
  {
    hide At, DecodeString, CharsText, GoodChars, StringText, StringEndFrom, ValidUtf8;
    var a, b, c := GapTokens(f.before), [Token(StringToken, StringText(f.name))], GapTokens(f.middle);
    AtSplit(tokens, i, a, b + (c + [COLON_TOKEN]));
    AtSplit(tokens, i + |a|, b, c + [COLON_TOKEN]);
    AtSplit(tokens, i + |a| + 1, c, [COLON_TOKEN]);
    AtIndex(tokens, i + |a|, b, 0);
    AtIndex(tokens, i + |a| + 1 + |c|, [COLON_TOKEN], 0);
    SkipsGap(tokens, i, f.before);
    SkipsGap(tokens, i + |a| + 1, f.middle);
    var raw := StringText(f.name);
    assert At(raw, 0, raw) by { WholeAt(raw); }
    StringIsRead(raw, 0, f.name);
    MeaningIsValid(f.name);
  }

  lemma WholeAt(s: bytes)
    ensures At(s, 0, s)
  {
  }

  lemma {:induction false} ReadsField(tokens: seq<Token>, i: nat, depth: nat, f: Field, seen: set<bytes>) returns (next: nat)
    requires Stream(tokens) && GoodField(f) && InLimits(f.item.value, depth) && At(tokens, i, FieldTokens(f))
    requires CharsMeaning(f.name) !in seen && KindAt(tokens, i + FieldLexemes(f)) != Whitespace
    ensures i < next <= i + FieldLexemes(f) <= |tokens|
    ensures MemberAt(tokens, i, depth, seen) == Ok(ParsedMember(FieldMember(f), next))
    ensures Skip(tokens, next) == i + FieldLexemes(f)
    decreases f
  {
    hide At, Stream, NameTokens, ItemTokens, GoodItem, InLimits, Meaning, NameAt, ValueAt, CharsMeaning, GoodChars;
    AtSplit(tokens, i, NameTokens(f), ItemTokens(f.item));
    NameCount(f);
    ReadsName(tokens, i, f, seen);
    next := ReadsItem(tokens, i + |NameTokens(f)|, depth, f.item);
  }

  lemma NameCount(f: Field)
    ensures |NameTokens(f)| + ItemLexemes(f.item) == FieldLexemes(f)
  {
  }

  /** The names to come are new, and differ from one another. */
  ghost predicate NewNames(members: seq<Member>, seen: set<bytes>)
  {
    NamesDiffer(members) && forall m <- members :: m.name !in seen
  }

  lemma NewNamesNext(m: Member, rest: seq<Member>, seen: set<bytes>)
    requires NewNames([m] + rest, seen)
    ensures m.name !in seen && NewNames(rest, seen + {m.name})
  {
    var all := [m] + rest;
    assert m == all[0] && m in all;
    forall i, j | 0 <= i < j < |rest| ensures rest[i].name != rest[j].name {
      assert all[i + 1].name != all[j + 1].name;
    }
    forall x <- rest ensures x.name !in seen + {m.name} {
      var i :| 0 <= i < |rest| && rest[i] == x;
      assert all[0].name != all[i + 1].name && x in all;
    }
  }

  /** What the member loop does with a member and the mark behind it. */
  lemma FieldTurn(tokens: seq<Token>, i: nat, depth: nat, members: seq<Member>, seen: set<bytes>, m: Member, next: nat)
    requires i < next <= |tokens| && |members| < MAX_CONTAINER_MEMBERS
    requires MemberAt(tokens, i, depth, seen) == Ok(ParsedMember(m, next))
    ensures var j := Skip(tokens, next);
            && (KindAt(tokens, j) == ObjectClose ==>
                  MembersAt(tokens, i, depth, members, seen) == Ok(Parsed(OrderedObject(members + [m]), j + 1)))
            && (KindAt(tokens, j) == CommaMark ==>
                  j + 1 <= |tokens|
                  && MembersAt(tokens, i, depth, members, seen) == MembersAt(tokens, j + 1, depth, members + [m], seen + {m.name}))
  {
    hide MemberAt, OrderedObject;
  }

  lemma {:induction false} ReadsFields(tokens: seq<Token>, i: nat, depth: nat, f: Fields, members: seq<Member>, seen: set<bytes>)
    requires Stream(tokens) && GoodFields(f) && FieldsInLimits(f, depth) && At(tokens, i, FieldsTokens(f))
    requires |members| + |FieldMembers(f)| <= MAX_CONTAINER_MEMBERS && NewNames(FieldMembers(f), seen)
    ensures i <= |tokens|
    ensures MembersAt(tokens, i, depth, members, seen)
         == Ok(Parsed(OrderedObject(members + FieldMembers(f)), i + FieldsLexemes(f)))
    decreases f
  {
    hide At, Stream, FieldTokens, GoodField, InLimits, MemberAt, MembersAt, OrderedObject, NewNames, FieldMember, Skip, FieldLexemes;
    var field := f.field;
    var m := FieldMember(field);
    var tail := if f.LastField? then [OBJECT_CLOSE] else [COMMA_TOKEN] + FieldsTokens(f.rest);
    var j := i + FieldLexemes(field);
    AtSplit(tokens, i, FieldTokens(field), tail);
    AtIndex(tokens, j, tail, 0);
    assert [m] + [] == [m];
    NewNamesNext(m, if f.LastField? then [] else FieldMembers(f.rest), seen);
    NameOfField(field);
    var next := ReadsField(tokens, i, depth, field, seen);
    FieldTurn(tokens, i, depth, members, seen, m, next);
    match f
    case LastField(_) =>
    case NextField(_, rest) =>
      AtSplit(tokens, j, [COMMA_TOKEN], FieldsTokens(rest));
      ConcatAssoc(members, [m], FieldMembers(rest));
      ReadsFields(tokens, j + 1, depth, rest, members + [m], seen + {m.name});
  }

  lemma NameOfField(f: Field)
    ensures FieldMember(f).name == CharsMeaning(f.name)
  {
  }
}
