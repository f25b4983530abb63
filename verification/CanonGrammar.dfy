/** The grammar of the accepted texts, read off RFC 8259 with the restrictions of the canonical profile:
    a tree for every spelling, the text it stands for and the value it means. Nothing here mentions the
    scanner, the string decoder or the parser. */
module CanonGrammar {
  import opened Bytes
  import opened Sorting
  import opened CanonLimits
  import opened Decimal
  import opened Utf8
  import opened CanonValue

  // ------------------------------------------------------ characters of a string

  /** A spelling and the scalar value it stands for. */
  datatype Char = Char(text: bytes, scalar: int)

  const LOWER_DIGITS: bytes := [48, 49, 50, 51, 52, 53, 54, 55, 56, 57, 97, 98, 99, 100, 101, 102]
  const UPPER_DIGITS: bytes := [48, 49, 50, 51, 52, 53, 54, 55, 56, 57, 65, 66, 67, 68, 69, 70]

  predicate DigitSpells(b: byte, d: int)
  {
    0 <= d < 16 && (b == LOWER_DIGITS[d] || b == UPPER_DIGITS[d])
  }

  /** `\uXXXX`, the most significant digit first. */
  predicate UnitSpells(t: bytes, n: int)
  {
    && |t| == 6 && t[0] == BACKSLASH && t[1] == LOWER_U && 0 <= n < 0x10000
    && DigitSpells(t[2], n / 0x1000) && DigitSpells(t[3], n / 0x100 % 0x10)
    && DigitSpells(t[4], n / 0x10 % 0x10) && DigitSpells(t[5], n % 0x10)
  }

  /** The character itself, in UTF-8. */
  predicate RawSpells(t: bytes, c: int)
  {
    IsScalar(c) && c >= 0x20 && c != 0x22 && c != 0x5C && t == EncodeRune(c)
  }

  predicate SimpleSpells(t: bytes, c: int)
  {
    |t| == 2 && t[0] == BACKSLASH && Shorthand(t[1], c)
  }

  /** The letter behind the backslash, and what it stands for. */
  predicate Shorthand(letter: byte, c: int)
  {
    || (letter == 0x22 && c == 0x22) // quotation mark
    || (letter == 0x5C && c == 0x5C) // reverse solidus
    || (letter == 0x2F && c == 0x2F) // solidus
    || (letter == 0x62 && c == 0x08) // b, backspace
    || (letter == 0x66 && c == 0x0C) // f, form feed
    || (letter == 0x6E && c == 0x0A) // n, line feed
    || (letter == 0x72 && c == 0x0D) // r, carriage return
    || (letter == 0x74 && c == 0x09) // t, tab
  }

  /** A character outside the basic plane as its UTF-16 surrogates. */
  predicate PairSpells(t: bytes, c: int)
  {
    && |t| == 12 && 0x10000 <= c <= 0x10FFFF
    && UnitSpells(t[..6], 0xD800 + (c - 0x10000) / 0x400) && UnitSpells(t[6..], 0xDC00 + (c - 0x10000) % 0x400)
  }

  predicate GoodChar(c: Char)
  {
    || RawSpells(c.text, c.scalar) || SimpleSpells(c.text, c.scalar)
    || (UnitSpells(c.text, c.scalar) && !IsSurrogate(c.scalar)) || PairSpells(c.text, c.scalar)
  }

  predicate GoodChars(cs: seq<Char>)
  {
    forall c <- cs :: GoodChar(c)
  }

  function CharsText(cs: seq<Char>): bytes
  {
    if cs == [] then [] else cs[0].text + CharsText(cs[1..])
  }

  /** The UTF-8 of the spelled scalar values. */
  function CharsMeaning(cs: seq<Char>): bytes
  {
    if cs == [] then [] else EncodeRune(cs[0].scalar) + CharsMeaning(cs[1..])
  }

  function StringText(cs: seq<Char>): bytes
  {
    [QUOTE] + CharsText(cs) + [QUOTE]
  }

  // ------------------------------------------------------------------ the trees

  datatype Syntax =
    | NullSyntax
    | TrueSyntax
    | FalseSyntax
    | NumberSyntax(n: int)
    | StringSyntax(chars: seq<Char>)
    | EmptyArray(gap: bytes)
    | FullArray(elements: Elements)
    | EmptyObject(gap: bytes)
    | FullObject(fields: Fields)

  /** A value between gaps. */
  datatype Item = Item(before: bytes, value: Syntax, after: bytes)

  datatype Elements = LastElement(item: Item) | NextElement(item: Item, rest: Elements)

  datatype Field = Field(before: bytes, name: seq<Char>, middle: bytes, item: Item)

  datatype Fields = LastField(field: Field) | NextField(field: Field, rest: Fields)

  predicate Blank(b: byte)
  {
    b == 0x20 || b == 0x09 || b == 0x0A || b == 0x0D
  }

  predicate Gap(g: bytes)
  {
    forall b <- g :: Blank(b)
  }

  // ------------------------------------------------------------------- the text

  function SyntaxText(t: Syntax): bytes
  {
    match t
    case NullSyntax => NULL_LITERAL
    case TrueSyntax => TRUE_LITERAL
    case FalseSyntax => FALSE_LITERAL
    case NumberSyntax(n) => FormatInt(n)
    case StringSyntax(chars) => StringText(chars)
    case EmptyArray(gap) => [BRACKET_OPEN] + (gap + [BRACKET_CLOSE])
    case FullArray(elements) => [BRACKET_OPEN] + ElementsText(elements)
    case EmptyObject(gap) => [BRACE_OPEN] + (gap + [BRACE_CLOSE])
    case FullObject(fields) => [BRACE_OPEN] + FieldsText(fields)
  }

  function ItemText(item: Item): bytes
  {
    item.before + (SyntaxText(item.value) + item.after)
  }

  function ElementsText(e: Elements): bytes
  {
    match e
    case LastElement(item) => ItemText(item) + [BRACKET_CLOSE]
    case NextElement(item, rest) => ItemText(item) + ([COMMA] + ElementsText(rest))
  }

  function FieldText(f: Field): bytes
  {
    f.before + (StringText(f.name) + (f.middle + ([COLON] + ItemText(f.item))))
  }

  function FieldsText(f: Fields): bytes
  {
    match f
    case LastField(field) => FieldText(field) + [BRACE_CLOSE]
    case NextField(field, rest) => FieldText(field) + ([COMMA] + FieldsText(rest))
  }

  // ------------------------------------------------------------------ the value

  function Meaning(t: Syntax): Value
  {
    match t
    case NullSyntax => Null
    case TrueSyntax => Bool(true)
    case FalseSyntax => Bool(false)
    case NumberSyntax(n) => Integer(n)
    case StringSyntax(chars) => Text(CharsMeaning(chars))
    case EmptyArray(_) => Array([])
    case FullArray(elements) => Array(ElementValues(elements))
    case EmptyObject(_) => Object([])
    case FullObject(fields) => Object(SortBy(FieldMembers(fields), MemberName))
  }

  function ElementValues(e: Elements): (r: seq<Value>)
    ensures r != []
  {
    match e
    case LastElement(item) => [Meaning(item.value)]
    case NextElement(item, rest) => [Meaning(item.value)] + ElementValues(rest)
  }

  function FieldMember(f: Field): Member
  {
    Member(CharsMeaning(f.name), Meaning(f.item.value))
  }

  /** The members as they are written. */
  function FieldMembers(f: Fields): (r: seq<Member>)
    ensures r != []
  {
    match f
    case LastField(field) => [FieldMember(field)]
    case NextField(field, rest) => [FieldMember(field)] + FieldMembers(rest)
  }

  // ------------------------------------------------------------- what is allowed

  /** Gaps are blank, integers safe, characters spelled, and no object names a member twice. */
  predicate Good(t: Syntax)
  {
    match t
    case NumberSyntax(n) => SafeInteger(n)
    case StringSyntax(chars) => GoodChars(chars)
    case EmptyArray(gap) => Gap(gap)
    case FullArray(elements) => GoodElements(elements)
    case EmptyObject(gap) => Gap(gap)
    case FullObject(fields) => GoodFields(fields) && NamesDiffer(FieldMembers(fields))
    case _ => true
  }

  predicate NamesDiffer(members: seq<Member>)
  {
    forall i, j :: 0 <= i < j < |members| ==> members[i].name != members[j].name
  }

  predicate GoodItem(item: Item)
  {
    Gap(item.before) && Good(item.value) && Gap(item.after)
  }

  predicate GoodElements(e: Elements)
  {
    match e
    case LastElement(item) => GoodItem(item)
    case NextElement(item, rest) => GoodItem(item) && GoodElements(rest)
  }

  predicate GoodField(f: Field)
  {
    Gap(f.before) && GoodChars(f.name) && Gap(f.middle) && GoodItem(f.item)
  }

  predicate GoodFields(f: Fields)
  {
    match f
    case LastField(field) => GoodField(field)
    case NextField(field, rest) => GoodField(field) && GoodFields(rest)
  }

  // ------------------------------------------------------------------ the limits

  /** A value at this depth keeps the depth and the member ceiling. */
  predicate InLimits(t: Syntax, depth: nat)
  {
    && depth <= MAX_NESTING_DEPTH
    && match t
       case FullArray(elements) =>
         |ElementValues(elements)| <= MAX_CONTAINER_MEMBERS && ElementsInLimits(elements, depth + 1)
       case FullObject(fields) =>
         |FieldMembers(fields)| <= MAX_CONTAINER_MEMBERS && FieldsInLimits(fields, depth + 1)
       case _ => true
  }

  predicate ElementsInLimits(e: Elements, depth: nat)
  {
    match e
    case LastElement(item) => InLimits(item.value, depth)
    case NextElement(item, rest) => InLimits(item.value, depth) && ElementsInLimits(rest, depth)
  }

  predicate FieldsInLimits(f: Fields, depth: nat)
  {
    match f
    case LastField(field) => InLimits(field.item.value, depth)
    case NextField(field, rest) => InLimits(field.item.value, depth) && FieldsInLimits(rest, depth)
  }

  function GapCount(g: bytes): nat
  {
    if g == [] then 0 else 1
  }

  /** The words, numbers, strings, marks and non-empty gaps of the text. */
  function Lexemes(t: Syntax): nat
  {
    match t
    case EmptyArray(gap) => 2 + GapCount(gap)
    case FullArray(elements) => 1 + ElementsLexemes(elements)
    case EmptyObject(gap) => 2 + GapCount(gap)
    case FullObject(fields) => 1 + FieldsLexemes(fields)
    case _ => 1
  }

  function ItemLexemes(item: Item): nat
  {
    GapCount(item.before) + Lexemes(item.value) + GapCount(item.after)
  }

  function ElementsLexemes(e: Elements): nat
  {
    match e
    case LastElement(item) => ItemLexemes(item) + 1
    case NextElement(item, rest) => ItemLexemes(item) + 1 + ElementsLexemes(rest)
  }

  function FieldLexemes(f: Field): nat
  {
    GapCount(f.before) + 1 + GapCount(f.middle) + 1 + ItemLexemes(f.item)
  }

  function FieldsLexemes(f: Fields): nat
  {
    match f
    case LastField(field) => FieldLexemes(field) + 1
    case NextField(field, rest) => FieldLexemes(field) + 1 + FieldsLexemes(rest)
  }

  // ---------------------------------------------------------------- the relation

  /** The text is blank, a spelling of the value, blank. */
  ghost predicate Spells(x: bytes, v: Value)
  {
    exists d :: IsSpelling(d, x, v)
  }

  ghost predicate IsSpelling(d: Item, x: bytes, v: Value)
  {
    GoodItem(d) && ItemText(d) == x && Meaning(d.value) == v
  }

  /** The spelling keeps the byte, lexeme, depth and member ceilings. */
  predicate WithinLimits(d: Item)
  {
    |ItemText(d)| <= MAX_INPUT_BYTES && ItemLexemes(d) <= MAX_TOKEN_COUNT - 1 && InLimits(d.value, 0)
  }
}
