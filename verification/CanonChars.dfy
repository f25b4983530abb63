/** Strings: what the scanner admits and the decoder reads are exactly the spellings of the grammar. */
module CanonChars {
  import opened Bytes
  import opened CanonLimits
  import opened Decimal
  import opened Utf8
  import opened CanonValue
  import opened CanonScan
  import opened CanonParse
  import opened CanonStrings
  import opened CanonGrammar

  lemma DigitIsHex(b: byte, d: int)
    ensures DigitSpells(b, d) <==> IsHex(b) && HexValue(b) == d
  {
  }

  lemma OneDigit(q: nat, d: nat, n: int)
    requires d < 16
    ensures n == q * 16 + d <==> n / 16 == q && n % 16 == d
  {
  }

  lemma FourDigits(a: nat, b: nat, c: nat, d: nat, n: int)
    requires a < 16 && b < 16 && c < 16 && d < 16
    ensures n == ((a * 16 + b) * 16 + c) * 16 + d <==>
      0 <= n < 0x10000 && a == n / 0x1000 && b == n / 0x100 % 0x10 && c == n / 0x10 % 0x10 && d == n % 0x10
  {
    OneDigit((a * 16 + b) * 16 + c, d, n);
    OneDigit(a * 16 + b, c, n / 16);
    OneDigit(a, b, n / 16 / 16);
    assert n / 16 / 16 == n / 0x100 && n / 16 / 16 / 16 == n / 0x1000;
  }

  /** `\uXXXX` at `i`, as the scanner and the decoder read it. */
  lemma UnitIsQuad(input: bytes, i: nat, n: int)
    requires i + 6 <= |input|
    ensures UnitSpells(input[i..i + 6], n) <==>
      input[i] == BACKSLASH && input[i + 1] == LOWER_U && HexDigitsAt(input, i + 2) && HexQuad(input, i + 2) == n
  {
    hide DigitSpells, IsHex, HexValue;
    var t := input[i..i + 6];
    assert t[0] == input[i] && t[1] == input[i + 1] && t[2] == input[i + 2] && t[3] == input[i + 3] && t[4] == input[i + 4]
           && t[5] == input[i + 5];
    FourDigits(HexValue(t[2]), HexValue(t[3]), HexValue(t[4]), HexValue(t[5]), n);
    DigitIsHex(t[2], n / 0x1000);
    DigitIsHex(t[3], n / 0x100 % 0x10);
    DigitIsHex(t[4], n / 0x10 % 0x10);
    DigitIsHex(t[5], n % 0x10);
  }

  // -------------------------------------------------- a spelled character is read

  /** One turn of the scanner and of the decoder reads this spelling, with this meaning. */
  ghost predicate Read(input: bytes, i: nat, t: bytes, meaning: bytes)
  {
    && t != [] && i + |t| <= |input| && StringEndFrom(input, i) == StringEndFrom(input, i + |t|)
    && (i + |t| < |input| ==> DecodePiece(input, i) == Ok(Piece(meaning, i + |t|)))
  }

  lemma RawIsRead(input: bytes, i: nat, t: bytes, c: int)
    requires RawSpells(t, c) && At(input, i, t)
    ensures Read(input, i, t, EncodeRune(c))
  {
    hide EncodeRune, RuneLenAt;
    EncodedRuneIsValid(c);
    assert t[0..0 + |t|] == t;
    RuneLenLocal(t, 0, input, i);
    AtIndex(input, i, t, 0);
    if |t| == 1 {
      assert t[0] < 0x80;
      OneByteRune(c);
    } else {
      LongRuneBytes(t, 0);
    }
  }

  lemma OneByteRune(c: int)
    requires IsScalar(c)
    ensures EncodeRune(c)[0] < 0x80 ==> EncodeRune(c) == [c] && c < 0x80
  {
  }

  lemma SimpleIsRead(input: bytes, i: nat, t: bytes, c: int)
    requires SimpleSpells(t, c) && At(input, i, t)
    ensures Read(input, i, t, EncodeRune(c))
  {
    AtIndex(input, i, t, 0);
    AtIndex(input, i, t, 1);
    EscapeIsPassed(input, i);
  }

  /** The scanner passes an escape as a whole. */
  lemma EscapeIsPassed(input: bytes, i: nat)
    requires i < |input| && input[i] == BACKSLASH && EscapeLength(input, i).Ok?
    ensures StringEndFrom(input, i) == StringEndFrom(input, i + EscapeLength(input, i).value)
  {
    hide EscapeLength;
  }

  lemma UnitIsRead(input: bytes, i: nat, t: bytes, c: int)
    requires UnitSpells(t, c) && !IsSurrogate(c) && At(input, i, t)
    ensures Read(input, i, t, EncodeRune(c))
  {
    hide HexQuad, HexDigitsAt, EncodeRune, UnitSpells;
    assert |t| == 6 by { SixLong(t, c); }
    UnitIsQuad(input, i, c);
    EscapeIsPassed(input, i);
  }

  lemma SixLong(t: bytes, c: int)
    requires UnitSpells(t, c)
    ensures |t| == 6
  {
  }

  lemma PairIsRead(input: bytes, i: nat, t: bytes, c: int)
    requires PairSpells(t, c) && At(input, i, t)
    ensures Read(input, i, t, EncodeRune(c))
  {
    hide HexQuad, HexDigitsAt, EncodeRune, UnitSpells;
    var high, low := 0xD800 + (c - 0x10000) / 0x400, 0xDC00 + (c - 0x10000) % 0x400;
    assert t == t[..6] + t[6..];
    AtSplit(input, i, t[..6], t[6..]);
    UnitIsQuad(input, i, high);
    UnitIsQuad(input, i + 6, low);
    EscapeIsPassed(input, i);
  }

  lemma CharIsRead(input: bytes, i: nat, c: Char)
    requires GoodChar(c) && At(input, i, c.text)
    ensures Read(input, i, c.text, EncodeRune(c.scalar))
  {
    hide RawSpells, SimpleSpells, UnitSpells, PairSpells, Read;
    if RawSpells(c.text, c.scalar) {
      RawIsRead(input, i, c.text, c.scalar);
    } else if SimpleSpells(c.text, c.scalar) {
      SimpleIsRead(input, i, c.text, c.scalar);
    } else if PairSpells(c.text, c.scalar) {
      PairIsRead(input, i, c.text, c.scalar);
    } else {
      UnitIsRead(input, i, c.text, c.scalar);
    }
  }

  /** The scanner ends a spelled string at its closing quotation mark. */
  lemma {:induction false} CharsScan(input: bytes, i: nat, cs: seq<Char>)
    requires GoodChars(cs) && At(input, i, CharsText(cs)) && At(input, i + |CharsText(cs)|, [QUOTE])
    ensures StringEndFrom(input, i) == Ok(i + |CharsText(cs)| + 1)
    decreases |cs|
  {
    hide StringEndFrom, DecodePiece, GoodChar, At;
    if cs == [] {
      AtIndex(input, i, [QUOTE], 0);
      QuoteCloses(input, i);
    } else {
      AtSplit(input, i, cs[0].text, CharsText(cs[1..]));
      CharIsRead(input, i, cs[0]);
      CharsScan(input, i + |cs[0].text|, cs[1..]);
    }
  }

  lemma QuoteCloses(input: bytes, i: nat)
    requires i < |input| && input[i] == QUOTE
    ensures StringEndFrom(input, i) == Ok(i + 1)
  {
  }

  /** The decoder reads their meaning. */
  lemma {:induction false} CharsDecode(raw: bytes, i: nat, cs: seq<Char>, decoded: bytes)
    requires |raw| >= 2 && GoodChars(cs) && At(raw, i, CharsText(cs)) && i + |CharsText(cs)| == |raw| - 1
    ensures DecodeFrom(raw, i, decoded) == Ok(decoded + CharsMeaning(cs))
    decreases |cs|
  {
    hide StringEndFrom, DecodePiece, GoodChar, DecodeFrom, EncodeRune, At;
    if cs == [] {
      assert decoded + [] == decoded;
      DecodeFromEnd(raw, i, decoded);
    } else {
      var piece, rest := EncodeRune(cs[0].scalar), CharsMeaning(cs[1..]);
      AtSplit(raw, i, cs[0].text, CharsText(cs[1..]));
      CharIsRead(raw, i, cs[0]);
      DecodeFromStep(raw, i, decoded, Piece(piece, i + |cs[0].text|));
      CharsDecode(raw, i + |cs[0].text|, cs[1..], decoded + piece);
      ConcatAssoc(decoded, piece, rest);
    }
  }

  /** A spelled string is one token, and its meaning is what it decodes to. */
  lemma StringIsRead(input: bytes, i: nat, cs: seq<Char>)
    requires GoodChars(cs) && At(input, i, StringText(cs))
    ensures i < |input| && input[i] == QUOTE && StringEndFrom(input, i + 1) == Ok(i + |StringText(cs)|)
    ensures DecodeString(StringText(cs)) == Ok(CharsMeaning(cs))
  {
    hide StringEndFrom, DecodeString, GoodChars, CharsText, At;
    var body := CharsText(cs);
    AtSplit(input, i, [QUOTE] + body, [QUOTE]);
    AtSplit(input, i, [QUOTE], body);
    AtIndex(input, i, [QUOTE], 0);
    CharsScan(input, i + 1, cs);
    StringDecodes(cs);
  }

  lemma StringDecodes(cs: seq<Char>)
    requires GoodChars(cs)
    ensures DecodeString(StringText(cs)) == Ok(CharsMeaning(cs))
  {
    hide DecodeFrom, GoodChars, CharsText;
    var raw, body := StringText(cs), CharsText(cs);
    assert raw[1..1 + |body|] == body;
    CharsDecode(raw, 1, cs, []);
    assert [] + CharsMeaning(cs) == CharsMeaning(cs);
  }

  lemma {:induction false} MeaningIsValid(cs: seq<Char>)
    ensures ValidUtf8(CharsMeaning(cs))
  {
    hide EncodeRune, ValidUtf8;
    if cs == [] {
      AsciiIsValid([]);
    } else {
      MeaningIsValid(cs[1..]);
      EncodedRuneIsValid(cs[0].scalar);
      ValidUtf8Concat(EncodeRune(cs[0].scalar), CharsMeaning(cs[1..]));
    }
  }

  // -------------------------------------------- what is scanned is spelled by characters

  lemma PlainCharAt(input: bytes, i: nat) returns (c: Char)
    requires i < |input| && RuneLenAt(input, i) > 0 && input[i] >= 0x20 && input[i] != QUOTE && input[i] != BACKSLASH
    ensures RawSpells(c.text, c.scalar) && At(input, i, c.text) && |c.text| == RuneLenAt(input, i)
  {
    hide EncodeRune;
    DecodeThenEncode(input, i);
    var n := RuneLenAt(input, i);
    c := Char(input[i..i + n], DecodeRune(input, i).value);
    if n == 1 {
      assert c.scalar == input[i];
    } else {
      LargeRune(input, i);
    }
  }

  lemma LargeRune(input: bytes, i: nat)
    requires i < |input| && RuneLenAt(input, i) > 1
    ensures DecodeRune(input, i).value >= 0x80
  {
  }

  lemma EscapedCharAt(input: bytes, i: nat) returns (c: Char)
    requires i < |input| && input[i] == BACKSLASH && EscapeLength(input, i).Ok?
    ensures GoodChar(c) && At(input, i, c.text) && |c.text| == EscapeLength(input, i).value
  {
    hide HexQuad, HexDigitsAt, UnitSpells, EncodeRune;
    var n := EscapeLength(input, i).value;
    var t := input[i..i + n];
    if n == 2 {
      c := Char(t, SimpleEscapeValue(input[i + 1]));
    } else if n == 6 {
      UnitIsQuad(input, i, HexQuad(input, i + 2));
      c := Char(t, HexQuad(input, i + 2));
    } else {
      var high, low := HexQuad(input, i + 2), HexQuad(input, i + 8);
      UnitIsQuad(input, i, high);
      UnitIsQuad(input, i + 6, low);
      var scalar := PairValue(high, low);
      assert (scalar - 0x10000) / 0x400 == high - 0xD800 && (scalar - 0x10000) % 0x400 == low - 0xDC00;
      assert t[..6] == input[i..i + 6] && t[6..] == input[i + 6..i + 12];
      c := Char(t, scalar);
    }
  }

  /** One turn of the scanner passes one spelled character. */
  lemma CharAt(input: bytes, i: nat) returns (c: Char)
    requires i < |input| && ValidUtf8From(input, i) && StringEndFrom(input, i).Ok? && input[i] != QUOTE
    ensures GoodChar(c) && At(input, i, c.text) && c.text != [] && i + |c.text| <= |input|
    ensures StringEndFrom(input, i + |c.text|) == StringEndFrom(input, i) && ValidUtf8From(input, i + |c.text|)
  {
    hide EscapeLength, RuneLenAt, RawSpells, DecodeRune, EncodeRune;
    if input[i] == BACKSLASH {
      c := EscapedCharAt(input, i);
      EscapeIsPassed(input, i);
      EscapeIsAscii(input, i);
      AsciiAdvance(input, i, |c.text|);
    } else {
      c := PlainCharAt(input, i);
    }
  }

  lemma {:induction false} CharsAt(input: bytes, i: nat) returns (cs: seq<Char>)
    requires i <= |input| && ValidUtf8From(input, i) && StringEndFrom(input, i).Ok?
    ensures GoodChars(cs) && At(input, i, CharsText(cs) + [QUOTE])
    ensures StringEndFrom(input, i) == Ok(i + |CharsText(cs)| + 1)
    decreases |input| - i
  {
    hide StringEndFrom, GoodChar, ValidUtf8From;
    StringEndsAfter(input, i);
    if input[i] == QUOTE {
      cs := [];
      QuoteCloses(input, i);
      assert CharsText(cs) + [QUOTE] == [QUOTE];
    } else {
      var c := CharAt(input, i);
      var rest := CharsAt(input, i + |c.text|);
      cs := [c] + rest;
      ConcatAssoc(c.text, CharsText(rest), [QUOTE]);
      AtSplit(input, i, c.text, CharsText(rest) + [QUOTE]);
    }
  }

  /** Every string token of valid text is spelled by characters. */
  lemma ScannedIsSpelled(input: bytes, i: nat) returns (cs: seq<Char>)
    requires i < |input| && input[i] == QUOTE && ValidUtf8From(input, i + 1) && StringEndFrom(input, i + 1).Ok?
    ensures GoodChars(cs) && input[i..StringEndFrom(input, i + 1).value] == StringText(cs)
  {
    hide StringEndFrom, GoodChars, ValidUtf8From, CharsText;
    cs := CharsAt(input, i + 1);
    ConcatAssoc([QUOTE], CharsText(cs), [QUOTE]);
    AtSplit(input, i, [QUOTE], CharsText(cs) + [QUOTE]);
    assert input[i..i + 1] == [QUOTE];
  }

  // ------------------------------------------------------ what the printer writes

  /** The canonical spelling of a character: itself where that is allowed, else the letter escape, else the
      unit escape in lower-case digits. */
  ghost predicate ShortChar(c: Char)
  {
    if RawSpells(EncodeRune(c.scalar), c.scalar) then c.text == EncodeRune(c.scalar)
    else if exists letter: byte :: Shorthand(letter, c.scalar) then SimpleSpells(c.text, c.scalar)
    else UnitSpells(c.text, c.scalar) && forall k :: 2 <= k < 6 ==> c.text[k] in LOWER_DIGITS
  }

  lemma PrintedByte(b: byte)
    requires b < 0x80
    ensures ShortChar(Char(EscapeByte(b), b)) && GoodChar(Char(EscapeByte(b), b)) && EncodeRune(b) == [b]
  {
    hide DigitSpells, UnitSpells;
    if b == 0x22 || b == 0x5C || b == 8 || b == 12 || b == 10 || b == 13 || b == 9 {
      ShorthandByte(b);
    } else if b < 0x20 {
      UnitByte(b);
    }
  }

  lemma ShorthandByte(b: byte)
    requires b == 0x22 || b == 0x5C || b == 8 || b == 12 || b == 10 || b == 13 || b == 9
    ensures SimpleSpells(EscapeByte(b), b) && exists letter: byte :: Shorthand(letter, b)
  {
    assert Shorthand(EscapeByte(b)[1], b);
  }

  lemma UnitByte(b: byte)
    requires b < 0x20 && b != 8 && b != 12 && b != 10 && b != 13 && b != 9
    ensures UnitSpells(EscapeByte(b), b) && forall k :: 2 <= k < 6 ==> EscapeByte(b)[k] in LOWER_DIGITS
    ensures forall letter: byte :: !Shorthand(letter, b)
  {
    hide DigitSpells, LowerHex, LOWER_DIGITS;
    assert EscapeByte(b) == [BACKSLASH, LOWER_U, 48, 48, LowerHex(b / 16), LowerHex(b % 16)];
    UnitIsSpelled(EscapeByte(b), b);
  }

  lemma UnitIsSpelled(t: bytes, b: byte)
    requires b < 0x20 && t == [BACKSLASH, LOWER_U, 48, 48, LowerHex(b / 16), LowerHex(b % 16)]
    ensures UnitSpells(t, b) && forall k :: 2 <= k < 6 ==> t[k] in LOWER_DIGITS
  {
    hide DigitSpells, LowerHex, LOWER_DIGITS;
    assert (b as int) / 0x1000 == 0 && (b as int) / 0x100 == 0 && (b as int) / 0x10 < 0x10;
    LowerDigit(0);
    LowerDigit(b / 16);
    LowerDigit(b % 16);
  }

  lemma LowerDigit(d: nat)
    requires d < 16
    ensures DigitSpells(LowerHex(d), d) && LowerHex(d) in LOWER_DIGITS && LowerHex(0) == 48
  {
    assert LowerHex(d) == LOWER_DIGITS[d];
  }

  lemma PrintedChar(s: bytes) returns (c: Char)
    requires s != [] && RuneLenAt(s, 0) > 0
    ensures c.text == PrintedHead(s) && EncodeRune(c.scalar) == s[..RuneLenAt(s, 0)] && GoodChar(c) && ShortChar(c)
  {
    hide EscapeByte, EncodeRune, DecodeRune, UnitSpells;
    var n := RuneLenAt(s, 0);
    if n == 1 {
      PrintedByte(s[0]);
      c := Char(EscapeByte(s[0]), s[0]);
      assert s[..1] == [s[0]];
    } else {
      DecodeThenEncode(s, 0);
      LargeRune(s, 0);
      c := Char(s[..n], DecodeRune(s, 0).value);
      assert s[0..n] == s[..n];
    }
  }

  /** Every printed string is spelled character by character in the canonical way. */
  lemma {:induction false} PrintedIsShort(s: bytes) returns (cs: seq<Char>)
    requires ValidUtf8(s)
    ensures GoodChars(cs) && CharsText(cs) == Escape(s) && CharsMeaning(cs) == s && forall c <- cs :: ShortChar(c)
    decreases |s|
  {
    hide Escape, PrintedHead, GoodChar, ShortChar, EncodeRune, ValidUtf8, RuneLenAt;
    if s == [] {
      cs := [];
      assert Escape(s) == [] by { NothingEscaped(); }
    } else {
      ValidUtf8Head(s);
      EscapeFirst(s);
      var n := RuneLenAt(s, 0);
      var c := PrintedChar(s);
      var rest := PrintedIsShort(s[n..]);
      cs := [c] + rest;
      assert s == s[..n] + s[n..];
    }
  }

  lemma NothingEscaped()
    ensures Escape([]) == []
  {
  }
}
