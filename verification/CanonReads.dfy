/** Every text of the grammar is read: scanning a spelling yields its lexemes, and parsing these yields
    the meaning. */
module CanonReads {
  import opened Bytes
  import opened Sorting
  import opened CanonLimits
  import opened Decimal
  import opened Utf8
  import opened CanonValue
  import opened CanonScan
  import opened CanonParse
  import opened CanonStrings
  import opened CanonMeasures
  import opened CanonTokens
  import opened CanonReparse
  import opened CanonSizes
  import opened CanonAccepted
  import opened CanonGrammar
  import opened CanonChars

  // ------------------------------------------------------------ the lexemes as tokens

  ghost function GapTokens(g: bytes): (ts: seq<Token>)
    ensures |ts| == GapCount(g)
  {
    if g == [] then [] else [Token(Whitespace, g)]
  }

  ghost function SyntaxTokens(t: Syntax): (ts: seq<Token>)
    ensures |ts| == Lexemes(t) && ts != []
  {
    match t
    case NullSyntax => [Token(NullToken, NULL_LITERAL)]
    case TrueSyntax => [Token(TrueToken, TRUE_LITERAL)]
    case FalseSyntax => [Token(FalseToken, FALSE_LITERAL)]
    case NumberSyntax(n) => [Token(IntegerToken, FormatInt(n))]
    case StringSyntax(chars) => [Token(StringToken, StringText(chars))]
    case EmptyArray(gap) => [ARRAY_OPEN] + (GapTokens(gap) + [ARRAY_CLOSE])
    case FullArray(elements) => [ARRAY_OPEN] + ElementsTokens(elements)
    case EmptyObject(gap) => [OBJECT_OPEN] + (GapTokens(gap) + [OBJECT_CLOSE])
    case FullObject(fields) => [OBJECT_OPEN] + FieldsTokens(fields)
  }

  ghost function ItemTokens(item: Item): (ts: seq<Token>)
    ensures |ts| == ItemLexemes(item)
  {
    GapTokens(item.before) + (SyntaxTokens(item.value) + GapTokens(item.after))
  }

  ghost function ElementsTokens(e: Elements): (ts: seq<Token>)
    ensures |ts| == ElementsLexemes(e)
  {
    match e
    case LastElement(item) => ItemTokens(item) + [ARRAY_CLOSE]
    case NextElement(item, rest) => ItemTokens(item) + ([COMMA_TOKEN] + ElementsTokens(rest))
  }

  ghost function NameTokens(f: Field): (ts: seq<Token>)
  {
    GapTokens(f.before) + ([Token(StringToken, StringText(f.name))] + (GapTokens(f.middle) + [COLON_TOKEN]))
  }

  ghost function FieldTokens(f: Field): (ts: seq<Token>)
    ensures |ts| == FieldLexemes(f)
  {
    NameTokens(f) + ItemTokens(f.item)
  }

  ghost function FieldsTokens(f: Fields): (ts: seq<Token>)
    ensures |ts| == FieldsLexemes(f)
  {
    match f
    case LastField(field) => FieldTokens(field) + [OBJECT_CLOSE]
    case NextField(field, rest) => FieldTokens(field) + ([COMMA_TOKEN] + FieldsTokens(rest))
  }

  // ----------------------------------------------------------------- scanning

  /** No gap goes on here. */
  predicate Solid(input: bytes, j: nat)
  {
    j >= |input| || !Blank(input[j])
  }

  /** A mark follows, or the end. */
  predicate Closed(input: bytes, j: nat)
  {
    j >= |input| || input[j] == COMMA || input[j] == BRACKET_CLOSE || input[j] == BRACE_CLOSE
  }

  lemma {:induction false} GapEnd(input: bytes, i: nat, g: bytes)
    requires Gap(g) && At(input, i, g) && Solid(input, i + |g|)
    ensures WhitespaceEnd(input, i) == i + |g|
    decreases |g|
  {
    if g != [] {
      AtIndex(input, i, g, 0);
      assert g[0] in g && g == [g[0]] + g[1..];
      AtSplit(input, i, [g[0]], g[1..]);
      GapEnd(input, i + 1, g[1..]);
    }
  }

  lemma ScansGap(input: bytes, i: nat, g: bytes)
    requires i <= |input| && Gap(g) && At(input, i, g) && Solid(input, i + |g|)
    ensures Scans(input, i, i + |g|, GapTokens(g))
  {
    hide TokensFrom, Scans;
    if g == [] {
      ScansNothing(input, i);
    } else {
      GapEnd(input, i, g);
      AtIndex(input, i, g, 0);
      assert g[0] in g;
      ScansOne(input, i, Token(Whitespace, g));
    }
  }

  /** What a value starts with. */
  predicate StartsValue(b: byte)
  {
    !Blank(b) && b != COMMA && b != BRACKET_CLOSE && b != BRACE_CLOSE
  }

  lemma FirstByte(t: Syntax)
    ensures SyntaxText(t) != [] && StartsValue(SyntaxText(t)[0])
  {
    hide FormatInt, CharsText, ElementsText, FieldsText;
    if t.NumberSyntax? {
      FormatIntDigits(t.n);
    }
  }

  /** A gap, or a mark, ends a scalar. */
  lemma GapEnds(input: bytes, j: nat, g: bytes)
    requires Gap(g) && At(input, j, g) && Closed(input, j + |g|)
    ensures EndsAt(input, j)
  {
    if g != [] {
      AtIndex(input, j, g, 0);
      assert g[0] in g;
    }
  }

  lemma ScansWord(input: bytes, i: nat, v: Value)
    requires v.Null? || v.Bool?
    requires At(input, i, Encode(v)) && EndsAt(input, i + |Encode(v)|)
    ensures Scans(input, i, i + |Encode(v)|, TokensOf(v))
  {
    ScansLiteral(input, i, v);
  }

  lemma ScansString(input: bytes, i: nat, cs: seq<Char>)
    requires GoodChars(cs) && At(input, i, StringText(cs))
    ensures Scans(input, i, i + |StringText(cs)|, [Token(StringToken, StringText(cs))])
  {
    hide StringText, StringEndFrom, DecodeString, TokensFrom, Scans, TokenAt, GoodChars;
    StringIsRead(input, i, cs);
    QuotedToken(input, i, StringText(cs));
    ScansOne(input, i, Token(StringToken, StringText(cs)));
  }

  lemma {:induction false} ScansSyntax(input: bytes, i: nat, t: Syntax)
    requires Good(t) && At(input, i, SyntaxText(t)) && EndsAt(input, i + |SyntaxText(t)|)
    ensures Scans(input, i, i + |SyntaxText(t)|, SyntaxTokens(t))
    decreases t
  {
    hide Scans, TokensFrom, At, EndsAt, StringText, GoodChars, ElementsText, FieldsText, FormatInt;
    match t
    case NullSyntax => ScansWord(input, i, Null);
    case TrueSyntax => ScansWord(input, i, Bool(true));
    case FalseSyntax => ScansWord(input, i, Bool(false));
    case NumberSyntax(n) => ScansInteger(input, i, n);
    case StringSyntax(chars) => ScansString(input, i, chars);
    case EmptyArray(gap) => ScansEmpty(input, i, BRACKET_OPEN, gap, BRACKET_CLOSE);
    case EmptyObject(gap) => ScansEmpty(input, i, BRACE_OPEN, gap, BRACE_CLOSE);
    case FullArray(elements) =>
      AtSplit(input, i, [BRACKET_OPEN], ElementsText(elements));
      ScansMark(input, i, BRACKET_OPEN);
      ScansElements(input, i + 1, elements);
      ScansThen(input, i, i + 1, i + 1 + |ElementsText(elements)|, [ARRAY_OPEN], ElementsTokens(elements));
    case FullObject(fields) =>
      AtSplit(input, i, [BRACE_OPEN], FieldsText(fields));
      ScansMark(input, i, BRACE_OPEN);
      ScansFields(input, i + 1, fields);
      ScansThen(input, i, i + 1, i + 1 + |FieldsText(fields)|, [OBJECT_OPEN], FieldsTokens(fields));
  }

  function MarkToken(b: byte): Token
    requires Punctuation(b).Some?
  {
    Token(Punctuation(b).value, [b])
  }

  lemma ScansMark(input: bytes, i: nat, b: byte)
    requires At(input, i, [b]) && Punctuation(b).Some?
    ensures i + 1 <= |input| && input[i] == b && Scans(input, i, i + 1, [MarkToken(b)])
  {
    hide TokensFrom, Scans;
    ScansPunctuation(input, i, b);
  }

  lemma ScansEmpty(input: bytes, i: nat, open: byte, gap: bytes, close: byte)
    requires Punctuation(open).Some? && Punctuation(close).Some? && Gap(gap)
    requires At(input, i, [open] + (gap + [close]))
    ensures Scans(input, i, i + |gap| + 2, [MarkToken(open)] + (GapTokens(gap) + [MarkToken(close)]))
  {
    hide Scans, TokensFrom, At, Gap;
    AtSplit(input, i, [open], gap + [close]);
    AtSplit(input, i + 1, gap, [close]);
    ScansMark(input, i, open);
    ScansMark(input, i + 1 + |gap|, close);
    assert Solid(input, i + 1 + |gap|);
    ScansGap(input, i + 1, gap);
    ScansThen(input, i + 1, i + 1 + |gap|, i + 2 + |gap|, GapTokens(gap), [MarkToken(close)]);
    ScansThen(input, i, i + 1, i + 2 + |gap|, [MarkToken(open)], GapTokens(gap) + [MarkToken(close)]);
  }

  lemma {:induction false} ScansItem(input: bytes, i: nat, item: Item)
    requires i <= |input| && GoodItem(item) && At(input, i, ItemText(item)) && Closed(input, i + |ItemText(item)|)
    ensures Scans(input, i, i + |ItemText(item)|, ItemTokens(item))
    decreases item
  {
    hide Scans, TokensFrom, At, SyntaxText, SyntaxTokens, Good, Gap, EndsAt;
    var a, b, c := item.before, SyntaxText(item.value), item.after;
    AtSplit(input, i, a, b + c);
    AtSplit(input, i + |a|, b, c);
    FirstByte(item.value);
    AtIndex(input, i + |a|, b, 0);
    ScansGap(input, i, a);
    GapEnds(input, i + |a| + |b|, c);
    ScansSyntax(input, i + |a|, item.value);
    ScansGap(input, i + |a| + |b|, c);
    ScansThen(input, i + |a|, i + |a| + |b|, i + |a| + |b| + |c|, SyntaxTokens(item.value), GapTokens(c));
    ScansThen(input, i, i + |a|, i + |a| + |b| + |c|, GapTokens(a), SyntaxTokens(item.value) + GapTokens(c));
  }

  lemma {:induction false} ScansElements(input: bytes, i: nat, e: Elements)
    requires i <= |input| && GoodElements(e) && At(input, i, ElementsText(e))
    ensures Scans(input, i, i + |ElementsText(e)|, ElementsTokens(e))
    decreases e
  {
    hide Scans, TokensFrom, At, ItemText, ItemTokens, GoodItem;
    var a := ItemText(e.item);
    match e
    case LastElement(item) =>
      AtSplit(input, i, a, [BRACKET_CLOSE]);
      ScansMark(input, i + |a|, BRACKET_CLOSE);
      ScansItem(input, i, item);
      ScansThen(input, i, i + |a|, i + |a| + 1, ItemTokens(item), [ARRAY_CLOSE]);
    case NextElement(item, rest) =>
      var more := ElementsText(rest);
      AtSplit(input, i, a, [COMMA] + more);
      AtSplit(input, i + |a|, [COMMA], more);
      ScansMark(input, i + |a|, COMMA);
      ScansItem(input, i, item);
      ScansElements(input, i + |a| + 1, rest);
      ScansThen(input, i + |a|, i + |a| + 1, i + |a| + 1 + |more|, [COMMA_TOKEN], ElementsTokens(rest));
      ScansThen(input, i, i + |a|, i + |a| + 1 + |more|, ItemTokens(item), [COMMA_TOKEN] + ElementsTokens(rest));
  }

  /** Gap, name, gap and colon. */
  function NameText(f: Field): bytes
  {
    f.before + (StringText(f.name) + (f.middle + [COLON]))
  }

  lemma FieldParts(f: Field)
    ensures FieldText(f) == NameText(f) + ItemText(f.item)
  {
    hide StringText, ItemText;
    ConcatAssoc(f.middle, [COLON], ItemText(f.item));
    ConcatAssoc(StringText(f.name), f.middle + [COLON], ItemText(f.item));
    ConcatAssoc(f.before, StringText(f.name) + (f.middle + [COLON]), ItemText(f.item));
  }

  lemma ScansName(input: bytes, i: nat, f: Field)
    requires i <= |input| && Gap(f.before) && GoodChars(f.name) && Gap(f.middle) && At(input, i, NameText(f))
    ensures Scans(input, i, i + |NameText(f)|, NameTokens(f))
  {
    hide Scans, TokensFrom, At, CharsText, Gap, GoodChars, StringEndFrom;
    var a, b, c := f.before, StringText(f.name), f.middle;
    AtSplit(input, i, a, b + (c + [COLON]));
    AtSplit(input, i + |a|, b, c + [COLON]);
    AtSplit(input, i + |a| + |b|, c, [COLON]);
    StringIsRead(input, i + |a|, f.name);
    ScansMark(input, i + |a| + |b| + |c|, COLON);
    ScansGap(input, i, a);
    ScansString(input, i + |a|, f.name);
    ScansGap(input, i + |a| + |b|, c);
    var name := [Token(StringToken, b)];
    ScansThen(input, i + |a| + |b|, i + |a| + |b| + |c|, i + |a| + |b| + |c| + 1, GapTokens(c), [COLON_TOKEN]);
    ScansThen(input, i + |a|, i + |a| + |b|, i + |a| + |b| + |c| + 1, name, GapTokens(c) + [COLON_TOKEN]);
    ScansThen(input, i, i + |a|, i + |a| + |b| + |c| + 1, GapTokens(a), name + (GapTokens(c) + [COLON_TOKEN]));
  }

  lemma {:induction false} ScansField(input: bytes, i: nat, f: Field)
    requires i <= |input| && GoodField(f) && At(input, i, FieldText(f)) && Closed(input, i + |FieldText(f)|)
    ensures Scans(input, i, i + |FieldText(f)|, FieldTokens(f))
    decreases f
  {
    hide Scans, TokensFrom, At, ItemText, ItemTokens, GoodItem, NameText, NameTokens, FieldText, GoodChars, Gap;
    FieldParts(f);
    var a := NameText(f);
    AtSplit(input, i, a, ItemText(f.item));
    ScansName(input, i, f);
    ScansItem(input, i + |a|, f.item);
    ScansThen(input, i, i + |a|, i + |a| + |ItemText(f.item)|, NameTokens(f), ItemTokens(f.item));
  }

  lemma {:induction false} ScansFields(input: bytes, i: nat, f: Fields)
    requires i <= |input| && GoodFields(f) && At(input, i, FieldsText(f))
    ensures Scans(input, i, i + |FieldsText(f)|, FieldsTokens(f))
    decreases f
  {
    hide Scans, TokensFrom, At, FieldText, FieldTokens, GoodField;
    var a := FieldText(f.field);
    match f
    case LastField(field) =>
      AtSplit(input, i, a, [BRACE_CLOSE]);
      ScansMark(input, i + |a|, BRACE_CLOSE);
      ScansField(input, i, field);
      ScansThen(input, i, i + |a|, i + |a| + 1, FieldTokens(field), [OBJECT_CLOSE]);
    case NextField(field, rest) =>
      var more := FieldsText(rest);
      AtSplit(input, i, a, [COMMA] + more);
      AtSplit(input, i + |a|, [COMMA], more);
      ScansMark(input, i + |a|, COMMA);
      ScansField(input, i, field);
      ScansFields(input, i + |a| + 1, rest);
      ScansThen(input, i + |a|, i + |a| + 1, i + |a| + 1 + |more|, [COMMA_TOKEN], FieldsTokens(rest));
      ScansThen(input, i, i + |a|, i + |a| + 1 + |more|, FieldTokens(field), [COMMA_TOKEN] + FieldsTokens(rest));
  }
}
