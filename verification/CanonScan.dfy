/** The lossless tokenizer (scan.go, token.go). */
module CanonScan {
  import opened Bytes
  import opened CanonLimits
  import opened Decimal
  import opened Utf8
  import opened CanonValue

  datatype TokenKind =
    | Whitespace
    | ObjectOpen
    | ObjectClose
    | ArrayOpen
    | ArrayClose
    | ColonMark
    | CommaMark
    | StringToken
    | IntegerToken
    | NullToken
    | TrueToken
    | FalseToken
    | EofToken

  datatype Token = Token(kind: TokenKind, raw: bytes)

  const EOF: Token := Token(EofToken, [])

  predicate IsWhitespace(b: byte)
  {
    b == 32 || b == TAB || b == LINE_FEED || b == RETURN
  }

  predicate IsDelimiter(b: byte)
  {
    IsWhitespace(b) || b == BRACE_OPEN || b == BRACE_CLOSE || b == BRACKET_OPEN || b == BRACKET_CLOSE
    || b == COLON || b == COMMA
  }

  predicate IsHex(b: byte)
  {
    48 <= b <= 57 || 97 <= b <= 102 || 65 <= b <= 70
  }

  function HexValue(b: byte): (n: nat)
    ensures n < 16
  {
    if 48 <= b <= 57 then b - 48 else if 97 <= b <= 102 then b - 87 else if 65 <= b <= 70 then b - 55 else 0
  }

  function HexQuad(s: bytes, i: nat): (n: nat)
    requires i + 4 <= |s|
    ensures n < 0x10000
  {
    ((HexValue(s[i]) * 16 + HexValue(s[i + 1])) * 16 + HexValue(s[i + 2])) * 16 + HexValue(s[i + 3])
  }

  /** `decodeHexQuad`: shifting a 16-bit accumulator left by four and filling its low bits. */
  method DecodeHexQuad(raw: bytes) returns (value: nat)
    requires |raw| == 4
    ensures value == HexQuad(raw, 0)
  {
    value := 0;
    var index := 0;
    while index < |raw|
      invariant 0 <= index <= 4
      invariant value == (if index == 0 then 0
                          else if index == 1 then HexValue(raw[0])
                          else if index == 2 then HexValue(raw[0]) * 16 + HexValue(raw[1])
                          else if index == 3
                          then (HexValue(raw[0]) * 16 + HexValue(raw[1])) * 16 + HexValue(raw[2])
                          else HexQuad(raw, 0))
    {
      value := value * 16 % 0x10000 + HexValue(raw[index]);
      index := index + 1;
    }
  }

  predicate HexDigitsAt(s: bytes, i: nat)
    requires i + 4 <= |s|
  {
    IsHex(s[i]) && IsHex(s[i + 1]) && IsHex(s[i + 2]) && IsHex(s[i + 3])
  }

  // ---------------------------------------------------------------- strings

  predicate SimpleEscape(b: byte)
  {
    b == QUOTE || b == BACKSLASH || b == SLASH || b == LOWER_B || b == LOWER_F || b == LOWER_N || b == LOWER_R
    || b == LOWER_T
  }

  /** Length of the escape at `i`, where the input has a backslash. */
  function EscapeLength(input: bytes, i: nat): (r: Checked<nat>)
    requires i < |input|
    ensures r.Ok? ==> 2 <= r.value && i + r.value <= |input|
  {
    if i + 1 >= |input| then Err(UnexpectedEof)
    else if SimpleEscape(input[i + 1]) then Ok(2)
    else if input[i + 1] != LOWER_U then Err(InvalidEscape)
    else if i + 6 > |input| then Err(UnexpectedEof)
    else if !HexDigitsAt(input, i + 2) then Err(InvalidEscape)
    else
      var first := HexQuad(input, i + 2);
      if 0xD800 <= first <= 0xDBFF then
        var second := i + 6;
        if second + 6 > |input| || input[second] != BACKSLASH || input[second + 1] != LOWER_U then Err(LoneSurrogate)
        else if !HexDigitsAt(input, second + 2) then Err(InvalidEscape)
        else
          var low := HexQuad(input, second + 2);
          if low < 0xDC00 || low > 0xDFFF then Err(LoneSurrogate) else Ok(12)
      else if 0xDC00 <= first <= 0xDFFF then Err(LoneSurrogate)
      else Ok(6)
  }

  /** The end of the string whose body continues at `i`. */
  function StringEndFrom(input: bytes, i: nat): (r: Checked<nat>)
    decreases |input| - i
    ensures r.Ok? ==> i < r.value <= |input| && input[r.value - 1] == QUOTE
  {
    if i >= |input| then Err(UnexpectedEof)
    else
      var b := input[i];
      if b == QUOTE then Ok(i + 1)
      else if b < 0x20 then Err(ControlCharacter)
      else if b == BACKSLASH then
        match EscapeLength(input, i)
        case Err(e) => Err(e)
        case Ok(n) => StringEndFrom(input, i + n)
      else if b < RUNE_SELF then StringEndFrom(input, i + 1)
      else StringEndFrom(input, i + DecodeRune(input, i).size)
  }

  /** The checks `scanString` makes on one escape. */
  method ScanEscape(input: bytes, offset: nat) returns (r: Checked<nat>)
    requires offset < |input|
    ensures r == EscapeLength(input, offset)
  {
    if offset + 1 >= |input| {
      return Err(UnexpectedEof);
    }
    var escape := input[offset + 1];
    if SimpleEscape(escape) {
      return Ok(2);
    }
    if escape != LOWER_U {
      return Err(InvalidEscape);
    }
    if offset + 6 > |input| {
      return Err(UnexpectedEof);
    }
    var hex := CheckHexDigits(input, offset + 2);
    if !hex {
      return Err(InvalidEscape);
    }
    var first := DecodeHexQuad(input[offset + 2..offset + 6]);
    assert first == HexQuad(input, offset + 2);
    if 0xD800 <= first <= 0xDBFF {
      var secondOffset := offset + 6;
      if secondOffset + 6 > |input| || input[secondOffset] != BACKSLASH || input[secondOffset + 1] != LOWER_U {
        return Err(LoneSurrogate);
      }
      hex := CheckHexDigits(input, secondOffset + 2);
      if !hex {
        return Err(InvalidEscape);
      }
      var second := DecodeHexQuad(input[secondOffset + 2..secondOffset + 6]);
      assert second == HexQuad(input, secondOffset + 2);
      if second < 0xDC00 || second > 0xDFFF {
        return Err(LoneSurrogate);
      }
      return Ok(12);
    }
    if 0xDC00 <= first <= 0xDFFF {
      return Err(LoneSurrogate);
    }
    return Ok(6);
  }

  method CheckHexDigits(input: bytes, start: nat) returns (r: bool)
    requires start + 4 <= |input|
    ensures r == HexDigitsAt(input, start)
  {
    var index := start;
    while index < start + 4
      invariant start <= index <= start + 4
      invariant forall k :: start <= k < index ==> IsHex(input[k])
    {
      if !IsHex(input[index]) {
        return false;
      }
      index := index + 1;
    }
    return true;
  }

  method ScanString(input: bytes, start: nat) returns (r: Checked<nat>)
    ensures r == StringEndFrom(input, start + 1)
  {
    var offset := start + 1;
    while offset < |input|
      invariant StringEndFrom(input, start + 1) == StringEndFrom(input, offset)
      decreases |input| - offset
    {
      var b := input[offset];
      if b == QUOTE {
        return Ok(offset + 1);
      } else if b < 0x20 {
        return Err(ControlCharacter);
      } else if b == BACKSLASH {
        var escape := ScanEscape(input, offset);
        if escape.Err? {
          return Err(escape.error);
        }
        offset := offset + escape.value;
      } else if b < RUNE_SELF {
        offset := offset + 1;
      } else {
        var size := DecodeRune(input, offset).size;
        offset := offset + size;
      }
    }
    return Err(UnexpectedEof);
  }

  // ---------------------------------------------------------------- tokens

  function WhitespaceEnd(input: bytes, i: nat): (r: nat)
    requires i <= |input|
    ensures i <= r <= |input|
    decreases |input| - i
  {
    if i < |input| && IsWhitespace(input[i]) then WhitespaceEnd(input, i + 1) else i
  }

  function ScalarEnd(input: bytes, i: nat): (r: nat)
    requires i <= |input|
    ensures i <= r <= |input|
    ensures forall k :: i <= k < r ==> !IsDelimiter(input[k])
    ensures r < |input| ==> IsDelimiter(input[r])
    decreases |input| - i
  {
    if i < |input| && !IsDelimiter(input[i]) then ScalarEnd(input, i + 1) else i
  }

  predicate NumberStart(b: byte)
  {
    b == SIGN_MINUS || b == SIGN_PLUS || IsDigit(b)
  }

  function Literal(input: bytes, i: nat, kind: TokenKind, literal: bytes): (r: Checked<Token>)
    requires i < |input|
    ensures r.Ok? ==> i + |literal| <= |input| && r.value == Token(kind, literal)
                      && input[i..i + |literal|] == literal
  {
    if input[i..ScalarEnd(input, i)] == literal then Ok(Token(kind, literal)) else Err(InvalidLiteral)
  }

  /** The kind of a one-byte token. */
  function Punctuation(b: byte): Option<TokenKind>
  {
    if b == BRACE_OPEN then Some(ObjectOpen)
    else if b == BRACE_CLOSE then Some(ObjectClose)
    else if b == BRACKET_OPEN then Some(ArrayOpen)
    else if b == BRACKET_CLOSE then Some(ArrayClose)
    else if b == COLON then Some(ColonMark)
    else if b == COMMA then Some(CommaMark)
    else None
  }

  /** The token that starts at `i`. */
  function TokenAt(input: bytes, i: nat): (r: Checked<Token>)
    requires i < |input|
    ensures r.Ok? ==> r.value.raw != [] && At(input, i, r.value.raw) && r.value.kind != EofToken
  {
    var b := input[i];
    if IsWhitespace(b) then Ok(Token(Whitespace, input[i..WhitespaceEnd(input, i + 1)]))
    else if Punctuation(b).Some? then Ok(Token(Punctuation(b).value, [b]))
    else if b == QUOTE then
      match StringEndFrom(input, i + 1)
      case Err(e) => Err(e)
      case Ok(end) => Ok(Token(StringToken, input[i..end]))
    else if NumberStart(b) then
      var raw := input[i..ScalarEnd(input, i)];
      match IntegerLexeme(raw)
      case Err(e) => Err(e)
      case Ok(_) => Ok(Token(IntegerToken, raw))
    else if b == LOWER_N then Literal(input, i, NullToken, NULL_LITERAL)
    else if b == LOWER_T then Literal(input, i, TrueToken, TRUE_LITERAL)
    else if b == LOWER_F then Literal(input, i, FalseToken, FALSE_LITERAL)
    else if b == 78 || b == 73 then Err(UnsupportedNumber)
    else Err(UnexpectedByte)
  }

  /** Tokens from offset `i` on, after those already collected. */
  function TokensFrom(input: bytes, i: nat, tokens: seq<Token>): Checked<seq<Token>>
    requires i <= |input|
    decreases |input| - i
  {
    if i == |input| then Ok(tokens + [EOF])
    else if |tokens| >= MAX_TOKEN_COUNT - 1 then Err(TokenLimit)
    else
      match TokenAt(input, i)
      case Err(e) => Err(e)
      case Ok(t) => TokensFrom(input, i + |t.raw|, tokens + [t])
  }

  function Tokens(input: bytes): Checked<seq<Token>>
  {
    if |input| > MAX_INPUT_BYTES then Err(InputLimit)
    else if !ValidUtf8(input) then Err(InvalidUtf8)
    else TokensFrom(input, 0, [])
  }

  method FindScalarEnd(input: bytes, start: nat) returns (offset: nat)
    requires start <= |input|
    ensures offset == ScalarEnd(input, start)
  {
    offset := start;
    while offset < |input| && !IsDelimiter(input[offset])
      invariant start <= offset <= |input|
      invariant ScalarEnd(input, start) == ScalarEnd(input, offset)
    {
      offset := offset + 1;
    }
  }

  /** One turn of the scan loop: the dispatch on the byte at `start`. */
  method ScanToken(input: bytes, start: nat) returns (r: Checked<Token>)
    requires start < |input|
    ensures r == TokenAt(input, start)
  {
    var b := input[start];
    var offset := start;
    if IsWhitespace(b) {
      offset := offset + 1;
      while offset < |input| && IsWhitespace(input[offset])
        invariant start < offset <= |input|
        invariant WhitespaceEnd(input, start + 1) == WhitespaceEnd(input, offset)
      {
        offset := offset + 1;
      }
      return Ok(Token(Whitespace, input[start..offset]));
    } else if Punctuation(b).Some? {
      offset := offset + 1;
      assert input[start..offset] == [b];
      return Ok(Token(Punctuation(b).value, input[start..offset]));
    } else if b == QUOTE {
      var end := ScanString(input, start);
      if end.Err? {
        return Err(end.error);
      }
      return Ok(Token(StringToken, input[start..end.value]));
    } else if NumberStart(b) {
      offset := FindScalarEnd(input, start);
      var valid := ValidateIntegerLexeme(input[start..offset]);
      if valid.Err? {
        return Err(valid.error);
      }
      return Ok(Token(IntegerToken, input[start..offset]));
    } else if b == LOWER_N {
      offset := FindScalarEnd(input, start);
      if input[start..offset] != NULL_LITERAL {
        return Err(InvalidLiteral);
      }
      return Ok(Token(NullToken, input[start..offset]));
    } else if b == LOWER_T {
      offset := FindScalarEnd(input, start);
      if input[start..offset] != TRUE_LITERAL {
        return Err(InvalidLiteral);
      }
      return Ok(Token(TrueToken, input[start..offset]));
    } else if b == LOWER_F {
      offset := FindScalarEnd(input, start);
      if input[start..offset] != FALSE_LITERAL {
        return Err(InvalidLiteral);
      }
      return Ok(Token(FalseToken, input[start..offset]));
    } else if b == 78 || b == 73 {
      return Err(UnsupportedNumber);
    } else {
      return Err(UnexpectedByte);
    }
  }

  method Scan(input: bytes) returns (r: Checked<seq<Token>>)
    ensures r == Tokens(input)
  {
    if |input| > MAX_INPUT_BYTES {
      return Err(InputLimit);
    }
    var invalid := FirstInvalidUtf8(input);
    if invalid >= 0 {
      return Err(InvalidUtf8);
    }
    var tokens: seq<Token> := [];
    var offset := 0;
    while offset < |input|
      invariant 0 <= offset <= |input|
      invariant TokensFrom(input, 0, []) == TokensFrom(input, offset, tokens)
    {
      if |tokens| >= MAX_TOKEN_COUNT - 1 {
        return Err(TokenLimit);
      }
      var token := ScanToken(input, offset);
      if token.Err? {
        return Err(token.error);
      }
      tokens := tokens + [token.value];
      offset := offset + |token.value.raw|;
    }
    return Ok(tokens + [EOF]);
  }

  // ---------------------------------------------------------------- losslessness

  function Concat(tokens: seq<Token>): bytes
  {
    if tokens == [] then [] else Concat(tokens[..|tokens| - 1]) + tokens[|tokens| - 1].raw
  }

  lemma ConcatSnoc(tokens: seq<Token>, t: Token)
    ensures Concat(tokens + [t]) == Concat(tokens) + t.raw
  {
    assert (tokens + [t])[..|tokens|] == tokens;
  }

  lemma {:induction false} TokensFromLossless(input: bytes, i: nat, tokens: seq<Token>)
    requires i <= |input| && Concat(tokens) == input[..i]
    requires TokensFrom(input, i, tokens).Ok?
    ensures Concat(TokensFrom(input, i, tokens).value) == input
    ensures |TokensFrom(input, i, tokens).value| <= |tokens| + (|input| - i) + 1
    ensures |tokens| < MAX_TOKEN_COUNT ==> |TokensFrom(input, i, tokens).value| <= MAX_TOKEN_COUNT
    decreases |input| - i
  {
    if i == |input| {
      ConcatSnoc(tokens, EOF);
      assert input[..i] == input;
    } else {
      var t := TokenAt(input, i).value;
      ConcatSnoc(tokens, t);
      assert input[..i] + input[i..i + |t.raw|] == input[..i + |t.raw|];
      TokensFromLossless(input, i + |t.raw|, tokens + [t]);
    }
  }

  /** Concatenating the raw bytes of the tokens reproduces the input, and the token stream with
      its final end marker stays within the published ceiling. */
  lemma ScanIsLossless(input: bytes)
    requires Tokens(input).Ok?
    ensures Concat(Tokens(input).value) == input
    ensures |Tokens(input).value| <= MAX_TOKEN_COUNT
  {
    TokensFromLossless(input, 0, []);
  }
}
