/** Every text that is read is in the grammar, with the value it was read as: the parser accepts exactly
    the spellings within its limits, and reads them as what they mean. */
module CanonSpelled {
  import opened Bytes
  import opened Sorting
  import opened CanonLimits
  import opened Decimal
  import opened Utf8
  import opened CanonValue
  import opened CanonScan
  import opened CanonParse
  import opened CanonStrings
  import opened CanonTokens
  import opened CanonReparse
  import opened CanonAccepted
  import opened CanonTheorems
  import opened CanonGrammar
  import opened CanonChars
  import opened CanonReads
  import opened CanonMeanings

  // --------------------------------------------------------------- spelled tokens

  ghost predicate IsString(cs: seq<Char>, raw: bytes)
  {
    GoodChars(cs) && raw == StringText(cs)
  }

  ghost predicate IsNumber(n: int, raw: bytes)
  {
    SafeInteger(n) && raw == FormatInt(n)
  }

  /** The raw bytes are spelled as the kind says. */
  ghost predicate SpelledToken(t: Token)
  {
    match t.kind
    case Whitespace => t.raw != [] && Gap(t.raw)
    case ObjectOpen => t == OBJECT_OPEN
    case ObjectClose => t == OBJECT_CLOSE
    case ArrayOpen => t == ARRAY_OPEN
    case ArrayClose => t == ARRAY_CLOSE
    case ColonMark => t == COLON_TOKEN
    case CommaMark => t == COMMA_TOKEN
    case StringToken => exists cs :: IsString(cs, t.raw)
    case IntegerToken => exists n :: IsNumber(n, t.raw)
    case NullToken => t.raw == NULL_LITERAL
    case TrueToken => t.raw == TRUE_LITERAL
    case FalseToken => t.raw == FALSE_LITERAL
    case EofToken => t.raw == []
  }

  ghost predicate SpelledTokens(tokens: seq<Token>)
  {
    forall t <- tokens :: SpelledToken(t)
  }

  lemma {:induction false} WhitespaceIsGap(input: bytes, i: nat)
    requires i <= |input|
    ensures Gap(input[i..WhitespaceEnd(input, i)])
    decreases |input| - i
  {
    if i < |input| && IsWhitespace(input[i]) {
      WhitespaceIsGap(input, i + 1);
      var end := WhitespaceEnd(input, i + 1);
      assert input[i..end] == [input[i]] + input[i + 1..end];
    }
  }

  lemma ScannedTokenIsSpelled(input: bytes, i: nat)
    requires i < |input| && ValidUtf8From(input, i) && TokenAt(input, i).Ok?
    ensures SpelledToken(TokenAt(input, i).value)
  {
    hide StringEndFrom, ValidUtf8From, IntegerLexeme, ScalarEnd, GoodChars, StringText, FormatInt, ParseInt64, Gap;
    var t := TokenAt(input, i).value;
    if t.kind == StringToken {
      StringTokenStart(input, i);
      var cs := ScannedIsSpelled(input, i);
      assert IsString(cs, t.raw);
    } else if t.kind == IntegerToken {
      IntegerLexemeExact(t.raw);
      var n :| SafeInteger(n) && t.raw == FormatInt(n);
      assert IsNumber(n, t.raw);
    } else if t.kind == Whitespace {
      WhitespaceIsGap(input, i);
    }
  }

  lemma {:induction false} TokensFromSpelled(input: bytes, i: nat, tokens: seq<Token>)
    requires i <= |input| && ValidUtf8From(input, i) && SpelledTokens(tokens) && TokensFrom(input, i, tokens).Ok?
    ensures SpelledTokens(TokensFrom(input, i, tokens).value)
    decreases |input| - i
  {
    hide ValidUtf8From, TokenAt, SpelledToken;
    if i == |input| {
      EofIsSpelled();
    } else {
      ScannedTokenIsSpelled(input, i);
      ScannedTokenIsGood(input, i);
      TokensFromSpelled(input, i + |TokenAt(input, i).value.raw|, tokens + [TokenAt(input, i).value]);
    }
  }

  lemma EofIsSpelled()
    ensures SpelledToken(EOF)
  {
  }

  // --------------------------------------------------------------- raw ranges

  ghost function RawOf(tokens: seq<Token>, i: nat, j: nat): bytes
    requires i <= j <= |tokens|
    decreases j
  {
    if i == j then [] else RawOf(tokens, i, j - 1) + tokens[j - 1].raw
  }

  lemma {:induction false} RawSplit(tokens: seq<Token>, i: nat, j: nat, k: nat)
    requires i <= j <= k <= |tokens|
    ensures RawOf(tokens, i, k) == RawOf(tokens, i, j) + RawOf(tokens, j, k)
    decreases k
  {
    if j < k {
      RawSplit(tokens, i, j, k - 1);
      ConcatAssoc(RawOf(tokens, i, j), RawOf(tokens, j, k - 1), tokens[k - 1].raw);
    }
  }

  lemma RawOne(tokens: seq<Token>, i: nat)
    requires i < |tokens|
    ensures RawOf(tokens, i, i + 1) == tokens[i].raw
  {
    assert RawOf(tokens, i, i) == [];
  }

  /** A token and what comes behind it. */
  lemma RawHead(tokens: seq<Token>, i: nat, k: nat)
    requires i < k <= |tokens|
    ensures RawOf(tokens, i, k) == tokens[i].raw + RawOf(tokens, i + 1, k)
  {
    RawSplit(tokens, i, i + 1, k);
    RawOne(tokens, i);
  }

  lemma {:induction false} RawIsConcat(tokens: seq<Token>, n: nat)
    requires n <= |tokens|
    ensures RawOf(tokens, 0, n) == Concat(tokens[..n])
  {
    if n > 0 {
      RawIsConcat(tokens, n - 1);
      assert tokens[..n][..n - 1] == tokens[..n - 1];
    }
  }

  lemma {:induction false} SpellsGap(tokens: seq<Token>, i: nat)
    requires SpelledTokens(tokens) && i <= |tokens|
    ensures Skip(tokens, i) <= |tokens| && Gap(RawOf(tokens, i, Skip(tokens, i)))
    ensures GapCount(RawOf(tokens, i, Skip(tokens, i))) <= Skip(tokens, i) - i
    decreases |tokens| - i
  {
    if i < |tokens| && tokens[i].kind == Whitespace {
      SpellsGap(tokens, i + 1);
      RawHead(tokens, i, Skip(tokens, i));
      assert SpelledToken(tokens[i]);
    }
  }

  // -------------------------------------------------------------------- values

  /** The tree spells tokens `i..j` at a depth. */
  ghost predicate SpellsRange(tokens: seq<Token>, i: nat, j: nat, depth: nat, t: Syntax)
  {
    && i < j <= |tokens| && Good(t) && InLimits(t, depth) && SyntaxText(t) == RawOf(tokens, i, j) && Lexemes(t) <= j - i
  }

  lemma SpellsScalar(tokens: seq<Token>, i: nat, depth: nat) returns (t: Syntax)
    requires SpelledTokens(tokens) && i < |tokens| && Scalar(tokens[i]).Ok? && depth <= MAX_NESTING_DEPTH
    ensures SpellsRange(tokens, i, i + 1, depth, t) && Meaning(t) == Scalar(tokens[i]).value
  {
    hide DecodeString, ParseInt64, FormatInt, StringText, GoodChars, CharsMeaning, StringEndFrom, IntegerLexeme;
    RawOne(tokens, i);
    var token := tokens[i];
    assert SpelledToken(token);
    if token.kind == StringToken {
      var cs :| IsString(cs, token.raw);
      WholeAt(token.raw);
      StringIsRead(token.raw, 0, cs);
      t := StringSyntax(cs);
    } else if token.kind == IntegerToken {
      var n :| IsNumber(n, token.raw);
      FormatIntAccepted(n);
      t := NumberSyntax(n);
    } else {
      t := if token.kind == NullToken then NullSyntax else if token.kind == TrueToken then TrueSyntax else FalseSyntax;
    }
  }

  lemma {:induction false} SpellsValue(tokens: seq<Token>, i: nat, depth: nat) returns (t: Syntax)
    requires SpelledTokens(tokens) && i <= |tokens| && ValueAt(tokens, i, depth).Ok?
    ensures SpellsRange(tokens, Skip(tokens, i), ValueAt(tokens, i, depth).value.next, depth, t)
    ensures Meaning(t) == ValueAt(tokens, i, depth).value.value
    decreases |tokens| - i, 1
  {
    hide ArrayAt, ObjectAt, Scalar, SpelledToken, SpellsRange, Meaning;
    var j := Skip(tokens, i);
    if KindAt(tokens, j) == ArrayOpen {
      t := SpellsArray(tokens, j, depth);
    } else if KindAt(tokens, j) == ObjectOpen {
      t := SpellsObject(tokens, j, depth);
    } else {
      EofIsNoValue();
      t := SpellsScalar(tokens, j, depth);
    }
  }

  /** A value with the gaps around it. */
  ghost predicate SpellsItemRange(tokens: seq<Token>, i: nat, j: nat, depth: nat, item: Item)
  {
    && i < j <= |tokens| && GoodItem(item) && InLimits(item.value, depth) && ItemText(item) == RawOf(tokens, i, j)
    && ItemLexemes(item) <= j - i
  }

  lemma {:induction false} SpellsItem(tokens: seq<Token>, i: nat, depth: nat) returns (item: Item)
    requires SpelledTokens(tokens) && i <= |tokens| && ValueAt(tokens, i, depth).Ok?
    ensures SpellsItemRange(tokens, i, Skip(tokens, ValueAt(tokens, i, depth).value.next), depth, item)
    ensures Meaning(item.value) == ValueAt(tokens, i, depth).value.value
    decreases |tokens| - i, 2
  {
    hide ValueAt, SpelledToken, Good, InLimits, SyntaxText, Lexemes, Meaning, RawOf, Gap;
    var j := Skip(tokens, i);
    var next := ValueAt(tokens, i, depth).value.next;
    var k := Skip(tokens, next);
    SpellsGap(tokens, i);
    SpellsGap(tokens, next);
    var t := SpellsValue(tokens, i, depth);
    item := Item(RawOf(tokens, i, j), t, RawOf(tokens, next, k));
    RawSplit(tokens, j, next, k);
    RawSplit(tokens, i, j, k);
  }

  // -------------------------------------------------------------------- arrays

  /** Behind its opening mark an array is empty, or goes on with its elements. */
  lemma ArrayIs(tokens: seq<Token>, i: nat, depth: nat)
    requires i < |tokens| && tokens[i].kind == ArrayOpen
    ensures var k := Skip(tokens, i + 1);
            ArrayAt(tokens, i, depth)
            == if KindAt(tokens, k) == ArrayClose then Ok(Parsed(Array([]), k + 1)) else ElemsAt(tokens, i + 1, depth, [])
  {
    hide ElemsAt, NewArray;
    SkipNothing(tokens, i);
    ElemsFromSkip(tokens, i + 1, depth, []);
    EmptyContainers();
  }

  lemma ObjectIs(tokens: seq<Token>, i: nat, depth: nat)
    requires i < |tokens| && tokens[i].kind == ObjectOpen
    ensures var k := Skip(tokens, i + 1);
            ObjectAt(tokens, i, depth)
            == if KindAt(tokens, k) == ObjectClose then Ok(Parsed(Object([]), k + 1)) else MembersAt(tokens, i + 1, depth, [], {})
  {
    hide MembersAt, NewObject;
    SkipNothing(tokens, i);
    MembersFromSkip(tokens, i + 1, depth, [], {});
    EmptyContainers();
  }

  /** Opening mark, gap, closing mark. */
  lemma SpellsEmpty(tokens: seq<Token>, i: nat, depth: nat)
    requires SpelledTokens(tokens) && i < |tokens| && depth <= MAX_NESTING_DEPTH
    ensures var k := Skip(tokens, i + 1);
            && (tokens[i].kind == ArrayOpen && KindAt(tokens, k) == ArrayClose ==>
                  k < |tokens| && SpellsRange(tokens, i, k + 1, depth, EmptyArray(RawOf(tokens, i + 1, k))))
            && (tokens[i].kind == ObjectOpen && KindAt(tokens, k) == ObjectClose ==>
                  k < |tokens| && SpellsRange(tokens, i, k + 1, depth, EmptyObject(RawOf(tokens, i + 1, k))))
  {
    hide RawOf, Gap, SpelledTokens, Skip;
    var k := Skip(tokens, i + 1);
    SpellsGap(tokens, i + 1);
    ElementMark(tokens, i);
    if k < |tokens| {
      ElementMark(tokens, k);
      EmptyRaw(tokens, i, k);
    }
  }

  lemma {:induction false} SpellsArray(tokens: seq<Token>, i: nat, depth: nat) returns (t: Syntax)
    requires SpelledTokens(tokens) && i < |tokens| && tokens[i].kind == ArrayOpen && depth <= MAX_NESTING_DEPTH
    requires ArrayAt(tokens, i, depth + 1).Ok?
    ensures SpellsRange(tokens, i, ArrayAt(tokens, i, depth + 1).value.next, depth, t)
    ensures Meaning(t) == ArrayAt(tokens, i, depth + 1).value.value
    decreases |tokens| - i, 0
  {
    hide ArrayAt, ElemsAt, RawOf, SpellsRange, SpelledTokens, Skip;
    ArrayIs(tokens, i, depth + 1);
    var k := Skip(tokens, i + 1);
    if KindAt(tokens, k) == ArrayClose {
      SpellsEmpty(tokens, i, depth);
      t := EmptyArray(RawOf(tokens, i + 1, k));
    } else {
      hide Meaning;
      t := SpellsFullArray(tokens, i, depth);
    }
  }

  lemma {:induction false} SpellsFullArray(tokens: seq<Token>, i: nat, depth: nat) returns (t: Syntax)
    requires SpelledTokens(tokens) && i < |tokens| && tokens[i].kind == ArrayOpen && depth <= MAX_NESTING_DEPTH
    requires ElemsAt(tokens, i + 1, depth + 1, []).Ok?
    ensures SpellsRange(tokens, i, ElemsAt(tokens, i + 1, depth + 1, []).value.next, depth, t)
    ensures Meaning(t) == ElemsAt(tokens, i + 1, depth + 1, []).value.value
    decreases |tokens| - i - 1, 5
  {
    hide ElemsAt, RawOf, GoodElements, ElementsText, ElementsInLimits, SpelledTokens, ElementsLexemes, ElementValues;
    ElementMark(tokens, i);
    var elements := SpellsElements(tokens, i + 1, depth + 1, []);
    t := FullArray(elements);
    assert [] + ElementValues(elements) == ElementValues(elements);
    RawHead(tokens, i, ElemsAt(tokens, i + 1, depth + 1, []).value.next);
  }

  lemma EmptyRaw(tokens: seq<Token>, i: nat, k: nat)
    requires i < k < |tokens|
    ensures RawOf(tokens, i, k + 1) == tokens[i].raw + (RawOf(tokens, i + 1, k) + tokens[k].raw)
  {
    hide RawOf;
    RawHead(tokens, i, k + 1);
    RawSplit(tokens, i + 1, k, k + 1);
    RawOne(tokens, k);
  }

  ghost predicate SpellsElementsRange(tokens: seq<Token>, i: nat, j: nat, depth: nat, e: Elements)
  {
    && i < j <= |tokens| && GoodElements(e) && ElementsInLimits(e, depth) && ElementsText(e) == RawOf(tokens, i, j)
    && ElementsLexemes(e) <= j - i
  }

  /** One item and its mark, in front of the rest. */
  lemma ItemThenMark(tokens: seq<Token>, i: nat, j: nat, depth: nat, item: Item, rest: Option<Elements>, k: nat)
    requires SpellsItemRange(tokens, i, j, depth, item) && j < k <= |tokens|
    requires rest.None? ==> tokens[j] == ARRAY_CLOSE && k == j + 1
    requires rest.Some? ==> tokens[j] == COMMA_TOKEN && SpellsElementsRange(tokens, j + 1, k, depth, rest.value)
    ensures SpellsElementsRange(tokens, i, k, depth, if rest.None? then LastElement(item) else NextElement(item, rest.value))
  {
    hide RawOf, GoodItem, InLimits, ItemText, ItemLexemes;
    RawSplit(tokens, i, j, k);
    RawHead(tokens, j, k);
    if rest.None? {
      RawOne(tokens, j);
    }
  }

  /** An accepted element loop starts with a value and its mark. */
  lemma ElementsAre(tokens: seq<Token>, i: nat, depth: nat, values: seq<Value>)
    requires i <= |tokens| && ElemsAt(tokens, i, depth, values).Ok?
    ensures |values| < MAX_CONTAINER_MEMBERS && ValueAt(tokens, i, depth).Ok?
    ensures var p := ValueAt(tokens, i, depth).value;
            var j := Skip(tokens, p.next);
            && i < p.next <= j < |tokens| && (tokens[j].kind == CommaMark || tokens[j].kind == ArrayClose)
            && (tokens[j].kind == ArrayClose ==>
                  ElemsAt(tokens, i, depth, values) == Ok(Parsed(Array(values + [p.value]), j + 1)))
            && (tokens[j].kind == CommaMark ==>
                  ElemsAt(tokens, i, depth, values) == ElemsAt(tokens, j + 1, depth, values + [p.value]))
  {
    hide ValueAt, CanonicalBytes;
  }

  lemma {:induction false} SpellsElements(tokens: seq<Token>, i: nat, depth: nat, values: seq<Value>) returns (e: Elements)
    requires SpelledTokens(tokens) && i <= |tokens| && ElemsAt(tokens, i, depth, values).Ok?
    ensures SpellsElementsRange(tokens, i, ElemsAt(tokens, i, depth, values).value.next, depth, e)
    ensures ElemsAt(tokens, i, depth, values).value.value == Array(values + ElementValues(e))
    ensures |values| + |ElementValues(e)| <= MAX_CONTAINER_MEMBERS
    decreases |tokens| - i, 3
  {
    hide ValueAt, ElemsAt, SpelledToken, SpellsItemRange, SpellsElementsRange, Meaning, Skip;
    ElementsAre(tokens, i, depth, values);
    var p := ValueAt(tokens, i, depth).value;
    var j := Skip(tokens, p.next);
    var item := SpellsItem(tokens, i, depth);
    var all := values + [p.value];
    if KindAt(tokens, j) == CommaMark {
      var rest := SpellsElements(tokens, j + 1, depth, all);
      ElementMark(tokens, j);
      e := NextElement(item, rest);
      ConcatAssoc(values, [p.value], ElementValues(rest));
      RangeGrows(tokens, j + 1, ElemsAt(tokens, j + 1, depth, all).value.next, depth, rest);
      ItemThenMark(tokens, i, j, depth, item, Some(rest), ElemsAt(tokens, j + 1, depth, all).value.next);
    } else {
      ElementMark(tokens, j);
      e := LastElement(item);
      ItemThenMark(tokens, i, j, depth, item, None, j + 1);
    }
  }

  lemma RangeGrows(tokens: seq<Token>, i: nat, j: nat, depth: nat, e: Elements)
    requires SpellsElementsRange(tokens, i, j, depth, e)
    ensures i < j <= |tokens|
  {
  }

  lemma ElementMark(tokens: seq<Token>, j: nat)
    requires SpelledTokens(tokens) && j < |tokens|
    ensures tokens[j].kind == CommaMark ==> tokens[j] == COMMA_TOKEN
    ensures tokens[j].kind == ArrayClose ==> tokens[j] == ARRAY_CLOSE
    ensures tokens[j].kind == ObjectClose ==> tokens[j] == OBJECT_CLOSE
    ensures tokens[j].kind == ColonMark ==> tokens[j] == COLON_TOKEN
    ensures tokens[j].kind == ObjectOpen ==> tokens[j] == OBJECT_OPEN
    ensures tokens[j].kind == ArrayOpen ==> tokens[j] == ARRAY_OPEN
  {
    assert SpelledToken(tokens[j]);
  }

  // ------------------------------------------------------------------- objects

  lemma {:induction false} SpellsObject(tokens: seq<Token>, i: nat, depth: nat) returns (t: Syntax)
    requires SpelledTokens(tokens) && i < |tokens| && tokens[i].kind == ObjectOpen && depth <= MAX_NESTING_DEPTH
    requires ObjectAt(tokens, i, depth + 1).Ok?
    ensures SpellsRange(tokens, i, ObjectAt(tokens, i, depth + 1).value.next, depth, t)
    ensures Meaning(t) == ObjectAt(tokens, i, depth + 1).value.value
    decreases |tokens| - i, 0
  {
    hide ObjectAt, MembersAt, RawOf, SpellsRange, SpelledTokens, Skip;
    ObjectIs(tokens, i, depth + 1);
    var k := Skip(tokens, i + 1);
    if KindAt(tokens, k) == ObjectClose {
      SpellsEmpty(tokens, i, depth);
      t := EmptyObject(RawOf(tokens, i + 1, k));
    } else {
      hide Meaning;
      ElementMark(tokens, i);
      t := SpellsFullObject(tokens, i, depth);
    }
  }

  lemma {:induction false} SpellsFullObject(tokens: seq<Token>, i: nat, depth: nat) returns (t: Syntax)
    requires SpelledTokens(tokens) && i < |tokens| && tokens[i] == OBJECT_OPEN && depth <= MAX_NESTING_DEPTH
    requires MembersAt(tokens, i + 1, depth + 1, [], {}).Ok?
    ensures SpellsRange(tokens, i, MembersAt(tokens, i + 1, depth + 1, [], {}).value.next, depth, t)
    ensures Meaning(t) == MembersAt(tokens, i + 1, depth + 1, [], {}).value.value
    decreases |tokens| - i - 1, 5
  {
    hide MembersAt, RawOf, GoodFields, FieldsText, FieldsInLimits, SortBy, SpelledTokens, FieldsLexemes, FieldMembers;
    var fields := SpellsFields(tokens, i + 1, depth + 1, [], {});
    t := FullObject(fields);
    assert [] + FieldMembers(fields) == FieldMembers(fields);
    RawHead(tokens, i, MembersAt(tokens, i + 1, depth + 1, [], {}).value.next);
  }

  ghost predicate SpellsFieldRange(tokens: seq<Token>, i: nat, j: nat, depth: nat, f: Field)
  {
    && i < j <= |tokens| && GoodField(f) && InLimits(f.item.value, depth) && FieldText(f) == RawOf(tokens, i, j)
    && FieldLexemes(f) <= j - i
  }

  ghost predicate SpellsFieldsRange(tokens: seq<Token>, i: nat, j: nat, depth: nat, f: Fields)
  {
    && i < j <= |tokens| && GoodFields(f) && FieldsInLimits(f, depth) && FieldsText(f) == RawOf(tokens, i, j)
    && FieldsLexemes(f) <= j - i
  }

  lemma NameIs(tokens: seq<Token>, i: nat, seen: set<bytes>)
    requires i <= |tokens| && NameAt(tokens, i, seen).Ok?
    ensures var p, j := NameAt(tokens, i, seen).value, Skip(tokens, i);
            && i <= j < |tokens| && tokens[j].kind == StringToken && DecodeString(tokens[j].raw) == Ok(p.name) && p.name !in seen
            && var k := Skip(tokens, j + 1); j < k < |tokens| && tokens[k].kind == ColonMark && p.next == k + 1
  {
    hide DecodeString, ValidUtf8;
  }

  /** Gap, name, gap and colon. */
  lemma SpellsName(tokens: seq<Token>, i: nat, seen: set<bytes>) returns (before: bytes, name: seq<Char>, middle: bytes)
    requires SpelledTokens(tokens) && i <= |tokens| && NameAt(tokens, i, seen).Ok?
    ensures var p := NameAt(tokens, i, seen).value;
            && i < p.next <= |tokens| && p.name == CharsMeaning(name) && p.name !in seen
            && Gap(before) && GoodChars(name) && Gap(middle)
            && RawOf(tokens, i, p.next) == before + (StringText(name) + (middle + [COLON]))
            && GapCount(before) + 1 + GapCount(middle) + 1 <= p.next - i
  {
    hide DecodeString, SpelledToken, RawOf, Gap, StringText, GoodChars, CharsMeaning, NameAt, Skip;
    NameIs(tokens, i, seen);
    var j := Skip(tokens, i);
    var k := Skip(tokens, j + 1);
    before, middle := RawOf(tokens, i, j), RawOf(tokens, j + 1, k);
    SpellsGap(tokens, i);
    SpellsGap(tokens, j + 1);
    name := NameSpelled(tokens[j]) by {
      assert SpelledToken(tokens[j]);
    }
    ElementMark(tokens, k);
    RawSplit(tokens, j + 1, k, k + 1);
    RawOne(tokens, k);
    RawHead(tokens, j, k + 1);
    RawSplit(tokens, i, j, k + 1);
  }

  lemma NameSpelled(t: Token) returns (name: seq<Char>)
    requires t.kind == StringToken && SpelledToken(t)
    ensures IsString(name, t.raw) && DecodeString(t.raw) == Ok(CharsMeaning(name))
  {
    hide DecodeString, StringText, GoodChars, CharsMeaning, StringEndFrom;
    name :| IsString(name, t.raw);
    WholeAt(t.raw);
    StringIsRead(t.raw, 0, name);
  }

  lemma {:induction false} SpellsField(tokens: seq<Token>, i: nat, depth: nat, seen: set<bytes>) returns (f: Field)
    requires SpelledTokens(tokens) && i <= |tokens| && MemberAt(tokens, i, depth, seen).Ok?
    ensures SpellsFieldRange(tokens, i, Skip(tokens, MemberAt(tokens, i, depth, seen).value.next), depth, f)
    ensures FieldMember(f) == MemberAt(tokens, i, depth, seen).value.member && FieldMember(f).name !in seen
    decreases |tokens| - i, 3
  {
    hide NameAt, ValueAt, SpelledToken, Skip, RawOf, Gap, GoodChars, CharsMeaning, StringText, GoodItem, InLimits, ItemText, ItemLexemes,
      Meaning;
    var named := NameAt(tokens, i, seen).value;
    var before, name, middle := SpellsName(tokens, i, seen);
    var item := SpellsItem(tokens, named.next, depth);
    f := Field(before, name, middle, item);
    var k := Skip(tokens, MemberAt(tokens, i, depth, seen).value.next);
    RawSplit(tokens, i, named.next, k);
    FieldParts(f);
  }

  lemma FieldThenMark(tokens: seq<Token>, i: nat, j: nat, depth: nat, f: Field, rest: Option<Fields>, k: nat)
    requires SpellsFieldRange(tokens, i, j, depth, f) && j < k <= |tokens|
    requires rest.None? ==> tokens[j] == OBJECT_CLOSE && k == j + 1
    requires rest.Some? ==> tokens[j] == COMMA_TOKEN && SpellsFieldsRange(tokens, j + 1, k, depth, rest.value)
    ensures SpellsFieldsRange(tokens, i, k, depth, if rest.None? then LastField(f) else NextField(f, rest.value))
  {
    hide RawOf, GoodField, InLimits, FieldText, FieldLexemes;
    RawSplit(tokens, i, j, k);
    RawHead(tokens, j, k);
    if rest.None? {
      RawOne(tokens, j);
    }
  }

  lemma NewNamesPrepend(m: Member, rest: seq<Member>, seen: set<bytes>)
    requires m.name !in seen && NewNames(rest, seen + {m.name})
    ensures NewNames([m] + rest, seen)
  {
    var all := [m] + rest;
    forall i, j | 0 <= i < j < |all| ensures all[i].name != all[j].name {
      assert all[j] == rest[j - 1] && rest[j - 1] in rest;
    }
  }

  lemma NoNewNames(m: Member, seen: set<bytes>)
    requires m.name !in seen
    ensures NewNames([m], seen)
  {
  }

  /** An accepted member loop starts with a member and its mark. */
  lemma MembersAre(tokens: seq<Token>, i: nat, depth: nat, members: seq<Member>, seen: set<bytes>)
    requires i <= |tokens| && MembersAt(tokens, i, depth, members, seen).Ok?
    ensures |members| < MAX_CONTAINER_MEMBERS && MemberAt(tokens, i, depth, seen).Ok?
    ensures var p := MemberAt(tokens, i, depth, seen).value;
            var j := Skip(tokens, p.next);
            && i < p.next <= j < |tokens| && (tokens[j].kind == CommaMark || tokens[j].kind == ObjectClose)
            && (tokens[j].kind == ObjectClose ==>
                  MembersAt(tokens, i, depth, members, seen) == Ok(Parsed(OrderedObject(members + [p.member]), j + 1)))
            && (tokens[j].kind == CommaMark ==>
                  MembersAt(tokens, i, depth, members, seen)
                  == MembersAt(tokens, j + 1, depth, members + [p.member], seen + {p.member.name}))
  {
    hide MemberAt, OrderedObject;
  }

  lemma {:induction false} SpellsFields(tokens: seq<Token>, i: nat, depth: nat, members: seq<Member>, seen: set<bytes>)
    returns (f: Fields)
    requires SpelledTokens(tokens) && i <= |tokens| && MembersAt(tokens, i, depth, members, seen).Ok?
    ensures SpellsFieldsRange(tokens, i, MembersAt(tokens, i, depth, members, seen).value.next, depth, f)
    ensures MembersAt(tokens, i, depth, members, seen).value.value == OrderedObject(members + FieldMembers(f))
    ensures |members| + |FieldMembers(f)| <= MAX_CONTAINER_MEMBERS && NewNames(FieldMembers(f), seen)
    decreases |tokens| - i, 4
  {
    hide MemberAt, MembersAt, SpelledToken, SpellsFieldRange, SpellsFieldsRange, FieldMember, Skip, OrderedObject, NewNames;
    MembersAre(tokens, i, depth, members, seen);
    var p := MemberAt(tokens, i, depth, seen).value;
    var j := Skip(tokens, p.next);
    var field := SpellsField(tokens, i, depth, seen);
    var all := members + [p.member];
    ElementMark(tokens, j);
    if KindAt(tokens, j) == CommaMark {
      var rest := SpellsFields(tokens, j + 1, depth, all, seen + {p.member.name});
      var next := MembersAt(tokens, j + 1, depth, all, seen + {p.member.name}).value.next;
      f := NextField(field, rest);
      ConcatAssoc(members, [p.member], FieldMembers(rest));
      NewNamesPrepend(p.member, FieldMembers(rest), seen);
      FieldThenMark(tokens, i, j, depth, field, Some(rest), next);
    } else {
      f := LastField(field);
      NoNewNames(p.member, seen);
      FieldThenMark(tokens, i, j, depth, field, None, j + 1);
    }
  }

  // ------------------------------------------------------------------ the theorem

  lemma {:induction false} OnlyLastIsEof(input: bytes, i: nat, tokens: seq<Token>)
    requires i <= |input| && TokensFrom(input, i, tokens).Ok? && forall t <- tokens :: t.kind != EofToken
    ensures var all := TokensFrom(input, i, tokens).value;
            |all| > 0 && all[|all| - 1] == EOF && forall k :: 0 <= k < |all| - 1 ==> all[k].kind != EofToken
    decreases |input| - i
  {
    hide TokenAt;
    if i < |input| {
      OnlyLastIsEof(input, i + |TokenAt(input, i).value.raw|, tokens + [TokenAt(input, i).value]);
    }
  }

  /** What the scanner leaves: spelled tokens that make up the input, and one end marker. */
  lemma ScanLeaves(input: bytes)
    requires Tokens(input).Ok?
    ensures var tokens := Tokens(input).value;
            && SpelledTokens(tokens) && 0 < |tokens| <= MAX_TOKEN_COUNT && tokens[|tokens| - 1] == EOF
            && (forall k :: 0 <= k < |tokens| - 1 ==> tokens[k].kind != EofToken)
            && RawOf(tokens, 0, |tokens|) == input && |input| <= MAX_INPUT_BYTES
  {
    hide TokensFrom, ValidUtf8From, SpelledToken, Concat;
    var tokens := Tokens(input).value;
    TokensFromSpelled(input, 0, []);
    OnlyLastIsEof(input, 0, []);
    ScanIsLossless(input);
    RawIsConcat(tokens, |tokens|);
    assert tokens[..|tokens|] == tokens;
  }

  /** What is accepted is spelled, within the limits, and means what it was read as. */
  lemma AcceptedIsSpelled(input: bytes) returns (d: Item)
    requires ParseBytes(input).Ok?
    ensures IsSpelling(d, input, ParseBytes(input).value) && WithinLimits(d)
  {
    hide TokensFrom, ValueAt, SpelledToken, Skip, RawOf, GoodItem, InLimits, ItemText, ItemLexemes, Meaning, Tokens;
    var tokens := Tokens(input).value;
    ScanLeaves(input);
    d := SpellsItem(tokens, 0, 0);
    var next := ValueAt(tokens, 0, 0).value.next;
    var k := Skip(tokens, next);
    NoValueEndsAfterEof(tokens, 0, 0);
    EndOfTokens(tokens, next, k);
    RawSplit(tokens, 0, k, |tokens|);
    assert input == RawOf(tokens, 0, k) + [];
  }

  lemma EndOfTokens(tokens: seq<Token>, next: nat, k: nat)
    requires 0 < |tokens| && tokens[|tokens| - 1] == EOF && forall n :: 0 <= n < |tokens| - 1 ==> tokens[n].kind != EofToken
    requires 0 < next <= |tokens| && tokens[next - 1].kind != EofToken && k == Skip(tokens, next) && KindAt(tokens, k) == EofToken
    ensures k == |tokens| - 1 && RawOf(tokens, k, |tokens|) == []
  {
    RawOne(tokens, |tokens| - 1);
  }

  /** Spellings are valid UTF-8. */
  lemma {:induction false} SyntaxIsValid(t: Syntax)
    requires Good(t)
    ensures ValidUtf8(SyntaxText(t))
    decreases t
  {
    hide ValidUtf8, ValidUtf8From, StringText, FormatInt, ElementsText, FieldsText, GoodElements, GoodFields, GoodChars;
    LiteralsAreValid();
    match t
    case NumberSyntax(n) => IntegersAreValid(n);
    case StringSyntax(chars) => StringIsValid(chars);
    case EmptyArray(gap) =>
      GapIsValid(gap);
      ValidUtf8Concat(gap, [BRACKET_CLOSE]);
      ValidUtf8Concat([BRACKET_OPEN], gap + [BRACKET_CLOSE]);
    case FullArray(elements) =>
      ElementsAreValid(elements);
      ValidUtf8Concat([BRACKET_OPEN], ElementsText(elements));
    case EmptyObject(gap) =>
      GapIsValid(gap);
      ValidUtf8Concat(gap, [BRACE_CLOSE]);
      ValidUtf8Concat([BRACE_OPEN], gap + [BRACE_CLOSE]);
    case FullObject(fields) =>
      FieldsAreValid(fields);
      ValidUtf8Concat([BRACE_OPEN], FieldsText(fields));
    case _ =>
  }

  lemma GapIsValid(g: bytes)
    requires Gap(g)
    ensures ValidUtf8(g)
  {
    hide ValidUtf8;
    forall i | 0 <= i < |g| ensures g[i] < 0x80 {
      assert g[i] in g;
    }
    AsciiIsValid(g);
  }

  lemma {:induction false} StringIsValid(cs: seq<Char>)
    requires GoodChars(cs)
    ensures ValidUtf8(StringText(cs))
  {
    hide ValidUtf8, CharsText;
    CharsAreValid(cs);
    AsciiIsValid([QUOTE]);
    ValidUtf8Concat([QUOTE], CharsText(cs));
    ValidUtf8Concat([QUOTE] + CharsText(cs), [QUOTE]);
  }

  lemma {:induction false} CharsAreValid(cs: seq<Char>)
    requires GoodChars(cs)
    ensures ValidUtf8(CharsText(cs))
  {
    hide ValidUtf8, GoodChar;
    if cs == [] {
      AsciiIsValid([]);
    } else {
      CharIsValid(cs[0]);
      CharsAreValid(cs[1..]);
      ValidUtf8Concat(cs[0].text, CharsText(cs[1..]));
    }
  }

  lemma DigitIsAscii(b: byte, d: int)
    requires DigitSpells(b, d)
    ensures b < 0x80
  {
    DigitIsHex(b, d);
  }

  lemma UnitIsAscii(t: bytes, n: int)
    requires UnitSpells(t, n)
    ensures forall k :: 0 <= k < |t| ==> t[k] < 0x80
  {
    hide DigitSpells;
    DigitIsAscii(t[2], n / 0x1000);
    DigitIsAscii(t[3], n / 0x100 % 0x10);
    DigitIsAscii(t[4], n / 0x10 % 0x10);
    DigitIsAscii(t[5], n % 0x10);
  }

  lemma CharIsValid(c: Char)
    requires GoodChar(c)
    ensures ValidUtf8(c.text)
  {
    hide ValidUtf8, EncodeRune, UnitSpells;
    var t := c.text;
    if RawSpells(t, c.scalar) {
      EncodedRuneIsValid(c.scalar);
    } else if PairSpells(t, c.scalar) {
      UnitIsAscii(t[..6], 0xD800 + (c.scalar - 0x10000) / 0x400);
      UnitIsAscii(t[6..], 0xDC00 + (c.scalar - 0x10000) % 0x400);
      assert t == t[..6] + t[6..];
      AsciiIsValid(t);
    } else if SimpleSpells(t, c.scalar) {
      AsciiIsValid(t);
    } else {
      UnitIsAscii(t, c.scalar);
      AsciiIsValid(t);
    }
  }

  lemma {:induction false} ItemIsValid(item: Item)
    requires GoodItem(item)
    ensures ValidUtf8(ItemText(item))
    decreases item
  {
    hide ValidUtf8, SyntaxText, Good, Gap;
    GapIsValid(item.before);
    GapIsValid(item.after);
    SyntaxIsValid(item.value);
    ValidUtf8Concat(SyntaxText(item.value), item.after);
    ValidUtf8Concat(item.before, SyntaxText(item.value) + item.after);
  }

  lemma {:induction false} ElementsAreValid(e: Elements)
    requires GoodElements(e)
    ensures ValidUtf8(ElementsText(e))
    decreases e
  {
    hide ValidUtf8, ItemText, GoodItem;
    LiteralsAreValid();
    CommaIsValid();
    ItemIsValid(e.item);
    match e
    case LastElement(item) => ValidUtf8Concat(ItemText(item), [BRACKET_CLOSE]);
    case NextElement(item, rest) =>
      ElementsAreValid(rest);
      ValidUtf8Concat([COMMA], ElementsText(rest));
      ValidUtf8Concat(ItemText(item), [COMMA] + ElementsText(rest));
  }

  lemma CommaIsValid()
    ensures ValidUtf8([COMMA])
  {
    hide ValidUtf8;
    AsciiIsValid([COMMA]);
  }

  lemma {:induction false} FieldIsValid(f: Field)
    requires GoodField(f)
    ensures ValidUtf8(FieldText(f))
    decreases f
  {
    hide ValidUtf8, ItemText, GoodItem, StringText, Gap, GoodChars;
    LiteralsAreValid();
    GapIsValid(f.before);
    StringIsValid(f.name);
    GapIsValid(f.middle);
    ItemIsValid(f.item);
    ValidUtf8Concat([COLON], ItemText(f.item));
    ValidUtf8Concat(f.middle, [COLON] + ItemText(f.item));
    ValidUtf8Concat(StringText(f.name), f.middle + ([COLON] + ItemText(f.item)));
    ValidUtf8Concat(f.before, StringText(f.name) + (f.middle + ([COLON] + ItemText(f.item))));
  }

  lemma {:induction false} FieldsAreValid(f: Fields)
    requires GoodFields(f)
    ensures ValidUtf8(FieldsText(f))
    decreases f
  {
    hide ValidUtf8, FieldText, GoodField;
    LiteralsAreValid();
    CommaIsValid();
    FieldIsValid(f.field);
    match f
    case LastField(field) => ValidUtf8Concat(FieldText(field), [BRACE_CLOSE]);
    case NextField(field, rest) =>
      FieldsAreValid(rest);
      ValidUtf8Concat([COMMA], FieldsText(rest));
      ValidUtf8Concat(FieldText(field), [COMMA] + FieldsText(rest));
  }

  lemma NothingBefore(ts: seq<Token>)
    ensures [] + ts == ts
  {
  }

  /** A spelling within the byte and the lexeme ceiling is scanned as its lexemes. */
  lemma SpellingScans(d: Item)
    requires GoodItem(d) && |ItemText(d)| <= MAX_INPUT_BYTES && ItemLexemes(d) <= MAX_TOKEN_COUNT - 1
    ensures Tokens(ItemText(d)) == Ok(ItemTokens(d) + [EOF])
  {
    hide TokensFrom, GoodItem, ItemText, ItemTokens, ValidUtf8;
    var input := ItemText(d);
    ItemIsValid(d);
    WholeAt(input);
    ScansItem(input, 0, d);
    assert ScansAfter(input, 0, |input|, ItemTokens(d), []);
    NothingBefore(ItemTokens(d));
    EndOfInput(input, ItemTokens(d));
  }

  /** Every spelling within the limits is accepted, and read as what it means. */
  lemma SpelledIsAccepted(d: Item)
    requires GoodItem(d) && WithinLimits(d)
    ensures ParseBytes(ItemText(d)) == Ok(Meaning(d.value))
  {
    hide TokensFrom, GoodItem, ItemText, ItemTokens, ItemLexemes, Meaning, InLimits, Tokens, ValueAt, Stream, ValidUtf8From;
    SpellingScans(d);
    var tokens := ItemTokens(d) + [EOF];
    ScannedStream(ItemText(d));
    assert tokens[0..0 + |ItemTokens(d)|] == ItemTokens(d);
    var next := ReadsItem(tokens, 0, 0, d);
  }

  lemma ScannedStream(input: bytes)
    requires Tokens(input).Ok?
    ensures Stream(Tokens(input).value)
  {
    hide TokensFrom, ValidUtf8From, GoodToken, RawSum, Concat;
    var tokens := Tokens(input).value;
    TokensFromGood(input, 0, []);
    ScanIsLossless(input);
    RawSumIsLength(tokens, |tokens|);
    assert tokens[..|tokens|] == tokens;
  }

  /** The parser accepts exactly the spellings within its limits, each with the value it spells. */
  lemma ParsesExactly(x: bytes, v: Value)
    ensures ParseBytes(x) == Ok(v) <==> exists d :: IsSpelling(d, x, v) && WithinLimits(d)
  {
    hide ParseBytes, IsSpelling, WithinLimits;
    if ParseBytes(x) == Ok(v) {
      var d := AcceptedIsSpelled(x);
    }
    if d :| IsSpelling(d, x, v) && WithinLimits(d) {
      SpellingParses(d, x, v);
    }
  }

  lemma SpellingParses(d: Item, x: bytes, v: Value)
    requires IsSpelling(d, x, v) && WithinLimits(d)
    ensures ParseBytes(x) == Ok(v)
  {
    hide ParseBytes, GoodItem, ItemText, Meaning, WithinLimits;
    SpelledIsAccepted(d);
  }
}
