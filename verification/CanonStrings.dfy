/** String tokens: the scanner, the decoder and the printer agree (section 7 of RFC 8259). */
module CanonStrings {
  import opened Bytes
  import opened CanonLimits
  import opened Decimal
  import opened Utf8
  import opened CanonValue
  import opened CanonScan
  import opened CanonParse

  // ------------------------------------------------- what is scanned can be decoded

  /** A decoded piece: one character, no longer than its source even after printing. */
  ghost predicate GoodPiece(p: bytes, sourceLength: nat)
  {
    p != [] && RuneLenAt(p, 0) == |p| <= sourceLength && |Escape(p)| <= sourceLength
  }

  lemma EscapeOne(b: byte)
    ensures Escape([b]) == EscapeByte(b)
  {
    assert Escape([b]) == EscapeByte(b) + Escape([b][1..]);
  }

  lemma EncodedRunePiece(r: int)
    requires IsScalar(r)
    ensures GoodPiece(EncodeRune(r), if r < 0x10000 then 6 else 12)
  {
    EncodedRuneIsValid(r);
    if r < 0x80 {
      EscapeOne(r);
    } else {
      EscapeHighBytes(EncodeRune(r));
    }
  }

  /** The raw token `input[start..end]` reads like the input. */
  lemma RawIndex(input: bytes, start: nat, end: nat, k: nat)
    requires start <= k < end <= |input|
    ensures input[start..end][k - start] == input[k]
  {
  }

  /** An escape the scanner admits is decoded, without a read beyond the token. */
  lemma DecodeScannedEscape(input: bytes, start: nat, i: nat, end: nat)
    requires start < i < |input| && input[i] == BACKSLASH && EscapeLength(input, i).Ok?
    requires i + EscapeLength(input, i).value < end <= |input|
    ensures var r := DecodePiece(input[start..end], i - start);
            && r.Ok?
            && r.value.next == i - start + EscapeLength(input, i).value
            && GoodPiece(r.value.decoded, EscapeLength(input, i).value)
  {
    hide HexQuad, EncodeRune, Escape, RuneLenAt, HexDigitsAt;
    var raw := input[start..end];
    RawIndex(input, start, end, i);
    RawIndex(input, start, end, i + 1);
    if SimpleEscape(input[i + 1]) {
      EscapeOne(SimpleEscapeValue(input[i + 1]));
    } else {
      ScannedQuad(input, start, end, i + 2);
      var first := HexQuad(input, i + 2);
      if IsSurrogate(first) {
        RawIndex(input, start, end, i + 6);
        RawIndex(input, start, end, i + 7);
        ScannedQuad(input, start, end, i + 8);
        EncodedRunePiece(PairValue(first, HexQuad(input, i + 8)));
      } else {
        EncodedRunePiece(first);
      }
    }
  }

  lemma ScannedQuad(input: bytes, start: nat, end: nat, k: nat)
    requires start <= k && k + 4 <= end <= |input|
    ensures HexQuad(input[start..end], k - start) == HexQuad(input, k)
  {
    RawIndex(input, start, end, k);
    RawIndex(input, start, end, k + 1);
    RawIndex(input, start, end, k + 2);
    RawIndex(input, start, end, k + 3);
  }

  /** One character the scanner passes over outside an escape is copied by the decoder. */
  lemma DecodeScannedCharacter(input: bytes, start: nat, i: nat, end: nat)
    requires start < i < |input| && RuneLenAt(input, i) > 0
    requires input[i] != BACKSLASH && input[i] != QUOTE && input[i] >= 0x20
    requires i + RuneLenAt(input, i) < end <= |input|
    ensures var r := DecodePiece(input[start..end], i - start);
            && r.Ok?
            && r.value.next == i - start + RuneLenAt(input, i)
            && GoodPiece(r.value.decoded, RuneLenAt(input, i))
  {
    hide Escape, DecodeRune, RuneLenAt;
    var raw := input[start..end];
    var n := RuneLenAt(input, i);
    var piece := input[i..i + n];
    RawIndex(input, start, end, i);
    SliceOfSlice(input, start, end, i - start, i - start + n);
    assert At(raw, i - start, piece);
    RuneLenLocal(input, i, raw, i - start);
    assert piece[0..n] == piece;
    RuneLenLocal(input, i, piece, 0);
    if n == 1 {
      assert piece == [input[i]];
      EscapeOne(input[i]);
    } else {
      LongRuneBytes(input, i);
      EscapeHighBytes(piece);
    }
  }

  /** One turn of the scanner and of the decoder, inside a scanned string. */
  lemma DecodeScannedStep(input: bytes, start: nat, i: nat) returns (n: nat, piece: bytes)
    requires start < i < |input| && input[i] != QUOTE && ValidUtf8From(input, i) && StringEndFrom(input, i).Ok?
    ensures 0 < n && i + n < |input|
    ensures StringEndFrom(input, i + n) == StringEndFrom(input, i) && ValidUtf8From(input, i + n)
    ensures DecodePiece(input[start..StringEndFrom(input, i).value], i - start) == Ok(Piece(piece, i + n - start))
    ensures GoodPiece(piece, n)
  {
    hide DecodePiece, GoodPiece, EscapeLength, DecodeRune, RuneLenAt;
    var end := StringEndFrom(input, i).value;
    if input[i] == BACKSLASH {
      n := EscapeLength(input, i).value;
      EscapeIsAscii(input, i);
      AsciiAdvance(input, i, n);
      assert StringEndFrom(input, i) == StringEndFrom(input, i + n);
      DecodeScannedEscape(input, start, i, end);
    } else {
      n := RuneLenAt(input, i);
      assert StringEndFrom(input, i) == StringEndFrom(input, i + n);
      DecodeScannedCharacter(input, start, i, end);
    }
    piece := DecodePiece(input[start..end], i - start).value.decoded;
  }

  lemma DecodeFromStep(raw: bytes, offset: nat, decoded: bytes, piece: Piece)
    requires offset + 1 < |raw| && DecodePiece(raw, offset) == Ok(piece)
    ensures DecodeFrom(raw, offset, decoded) == DecodeFrom(raw, piece.next, decoded + piece.decoded)
  {
    hide DecodePiece;
  }

  lemma DecodeFromEnd(raw: bytes, offset: nat, decoded: bytes)
    requires |raw| >= 2 && (offset == |raw| - 1 || offset + |Escape([])| == |raw| - 1)
    ensures DecodeFrom(raw, offset, decoded) == Ok(decoded)
  {
  }

  lemma StringEndsAfter(input: bytes, i: nat)
    requires StringEndFrom(input, i).Ok?
    ensures i < StringEndFrom(input, i).value <= |input|
    ensures input[i] == QUOTE ==> StringEndFrom(input, i).value == i + 1
    ensures input[i] != QUOTE ==> i + 1 < StringEndFrom(input, i).value
  {
  }

  lemma QuoteEndsString(input: bytes, i: nat)
    requires i < |input| && input[i] == QUOTE && ValidUtf8From(input, i)
    ensures ValidUtf8From(input, i + 1) && ValidUtf8([]) && Escape([]) == []
  {
  }

  /** A good piece in front of good text. */
  lemma PrependPiece(piece: bytes, n: nat, rest: bytes)
    requires GoodPiece(piece, n) && ValidUtf8(rest)
    ensures ValidUtf8(piece + rest)
    ensures |piece + rest| <= n + |rest|
    ensures |Escape(piece + rest)| <= n + |Escape(rest)|
  {
    hide Escape, RuneLenAt, ValidUtf8From;
    ValidUtf8Prepend(piece, rest);
    EscapeConcat(piece, rest);
  }

  /** From any point inside a scanned string the decoder finishes without a refusal; the text it
      adds is valid UTF-8 and, even printed again, no longer than the source it came from. */
  lemma {:induction false} DecodeScannedFrom(input: bytes, start: nat, i: nat, end: nat, decoded: bytes)
      returns (d: bytes)
    requires start < i <= |input| && ValidUtf8From(input, i) && StringEndFrom(input, i) == Ok(end)
    ensures i < end <= |input| && ValidUtf8From(input, end)
    ensures DecodeFrom(input[start..end], i - start, decoded) == Ok(decoded + d)
    ensures ValidUtf8(d) && |d| <= end - 1 - i && |Escape(d)| <= end - 1 - i
    decreases |input| - i
  {
    hide DecodeFrom, StringEndFrom, ValidUtf8, ValidUtf8From, DecodePiece, GoodPiece, Escape;
    StringEndsAfter(input, i);
    var raw := input[start..end];
    if input[i] == QUOTE {
      d := [];
      assert decoded + d == decoded;
      DecodeFromEnd(raw, i - start, decoded);
      QuoteEndsString(input, i);
    } else {
      var n, piece := DecodeScannedStep(input, start, i);
      var rest := DecodeScannedFrom(input, start, i + n, end, decoded + piece);
      d := piece + rest;
      DecodeFromStep(raw, i - start, decoded, Piece(piece, i + n - start));
      ConcatAssoc(decoded, piece, rest);
      PrependPiece(piece, n, rest);
    }
  }

  lemma EscapeIsAscii(input: bytes, i: nat)
    requires i < |input| && input[i] == BACKSLASH && EscapeLength(input, i).Ok?
    ensures forall k :: i <= k < i + EscapeLength(input, i).value ==> input[k] < 0x80
  {
  }

  /** ASCII bytes keep the scan on a character boundary. */
  lemma {:induction false} AsciiAdvance(s: bytes, i: nat, n: nat)
    requires i + n <= |s| && ValidUtf8From(s, i)
    requires forall k :: i <= k < i + n ==> s[k] < 0x80
    ensures ValidUtf8From(s, i + n)
    decreases n
  {
    if n > 0 {
      AsciiAdvance(s, i + 1, n - 1);
    }
  }

  /** Every string token the scanner accepts in valid UTF-8 input is decoded, without refusal and
      without a read beyond the token, to valid UTF-8 shorter than the token. */
  lemma ScannedStringDecodes(input: bytes, start: nat)
    requires start < |input| && input[start] == QUOTE && ValidUtf8From(input, start + 1)
    requires StringEndFrom(input, start + 1).Ok?
    ensures var end := StringEndFrom(input, start + 1).value;
            var decoded := DecodeString(input[start..end]);
            && ValidUtf8From(input, end)
            && decoded.Ok?
            && ValidUtf8(decoded.value)
            && |decoded.value| + 2 <= end - start
            && |Quote(decoded.value)| <= end - start
  {
    hide DecodeFrom, StringEndFrom, ValidUtf8From, Escape;
    var end := StringEndFrom(input, start + 1).value;
    StringEndsAfter(input, start + 1);
    var d := DecodeScannedFrom(input, start, start + 1, end, []);
    RawIndex(input, start, end, start);
    RawIndex(input, start, end, end - 1);
    assert [] + d == d;
  }

  // ------------------------------------------------- what is printed scans and decodes back

  /** What the printer writes for the first character of a text. */
  ghost function PrintedHead(s: bytes): bytes
    requires s != []
  {
    if s[0] < 0x80 then EscapeByte(s[0]) else s[..RuneLenAt(s, 0)]
  }

  lemma EscapeFirst(s: bytes)
    requires s != [] && RuneLenAt(s, 0) > 0
    ensures Escape(s) == PrintedHead(s) + Escape(s[RuneLenAt(s, 0)..])
  {
    hide RuneLenAt, EscapeByte, Escape;
    var n := RuneLenAt(s, 0);
    assert s == s[..n] + s[n..];
    EscapeConcat(s[..n], s[n..]);
    if n == 1 {
      assert s[..1] == [s[0]];
      EscapeOne(s[0]);
    } else {
      LongRuneBytes(s, 0);
      EscapeHighBytes(s[..n]);
    }
  }

  lemma EscapedByteAt(input: bytes, i: nat, b: byte)
    requires At(input, i, EscapeByte(b)) && b < 0x80
    ensures i < |input|
    ensures |EscapeByte(b)| == 1 ==> input[i] == b && b >= 0x20 && b != QUOTE && b != BACKSLASH
    ensures |EscapeByte(b)| > 1 ==>
              && input[i] == BACKSLASH
              && EscapeLength(input, i) == Ok(|EscapeByte(b)|)
    ensures |EscapeByte(b)| > 1 && i + |EscapeByte(b)| < |input| ==>
              DecodePiece(input, i) == Ok(Piece([b], i + |EscapeByte(b)|))
  {
    var e := EscapeByte(b);
    AtIndex(input, i, e, 0);
    if |e| > 1 {
      AtIndex(input, i, e, 1);
    }
    if |e| == 6 {
      AtIndex(input, i, e, 2);
      AtIndex(input, i, e, 3);
      AtIndex(input, i, e, 4);
      AtIndex(input, i, e, 5);
      LowerHexValue(b / 16);
      LowerHexValue(b % 16);
      assert HexQuad(input, i + 2) == b;
    }
  }

  lemma LowerHexValue(n: int)
    requires 0 <= n < 16
    ensures IsHex(LowerHex(n)) && HexValue(LowerHex(n)) == n
  {
  }

  /** One turn of the scanner over what the printer wrote for one character. */
  lemma ScanEscapedStep(input: bytes, i: nat, s: bytes)
    requires s != [] && RuneLenAt(s, 0) > 0 && At(input, i, PrintedHead(s))
    ensures StringEndFrom(input, i) == StringEndFrom(input, i + |PrintedHead(s)|)
  {
    hide EscapeByte, EscapeLength, RuneLenAt, DecodeRune;
    var n := RuneLenAt(s, 0);
    if n == 1 {
      EscapedByteAt(input, i, s[0]);
    } else {
      assert s[0..0 + n] == s[..n];
      RuneLenLocal(s, 0, input, i);
      AtIndex(input, i, s[..n], 0);
      LongRuneBytes(s, 0);
    }
  }

  lemma ScanEscapedEnd(input: bytes, i: nat)
    requires At(input, i + |Escape([])|, [QUOTE])
    ensures Escape([]) == [] && StringEndFrom(input, i) == Ok(i + 1)
  {
    AtIndex(input, i, [QUOTE], 0);
  }

  lemma {:induction false} ScanEscaped(input: bytes, i: nat, s: bytes)
    requires ValidUtf8(s) && At(input, i, Escape(s)) && At(input, i + |Escape(s)|, [QUOTE])
    ensures StringEndFrom(input, i) == Ok(i + |Escape(s)| + 1)
    decreases |s|
  {
    hide StringEndFrom, Escape, EscapeByte, RuneLenAt, At, PrintedHead, ValidUtf8, ValidUtf8From;
    if s == [] {
      ScanEscapedEnd(input, i);
    } else {
      ValidUtf8Head(s);
      EscapeFirst(s);
      var n := RuneLenAt(s, 0);
      AtSplit(input, i, PrintedHead(s), Escape(s[n..]));
      ScanEscapedStep(input, i, s);
      ScanEscaped(input, i + |PrintedHead(s)|, s[n..]);
    }
  }

  /** One turn of the decoder over what the printer wrote for one character. */
  lemma DecodeEscapedStep(raw: bytes, i: nat, s: bytes)
    requires s != [] && RuneLenAt(s, 0) > 0 && At(raw, i, PrintedHead(s)) && i + |PrintedHead(s)| < |raw|
    ensures DecodePiece(raw, i) == Ok(Piece(s[..RuneLenAt(s, 0)], i + |PrintedHead(s)|))
  {
    hide EscapeByte, EscapeLength, RuneLenAt, DecodeRune;
    var n := RuneLenAt(s, 0);
    if n == 1 {
      assert s[..1] == [s[0]];
      EscapedByteAt(raw, i, s[0]);
    } else {
      assert s[0..0 + n] == s[..n];
      RuneLenLocal(s, 0, raw, i);
      AtIndex(raw, i, s[..n], 0);
      LongRuneBytes(s, 0);
    }
  }

  lemma {:induction false} DecodeEscaped(raw: bytes, i: nat, s: bytes, decoded: bytes)
    requires |raw| >= 2 && ValidUtf8(s) && At(raw, i, Escape(s)) && i + |Escape(s)| == |raw| - 1
    ensures DecodeFrom(raw, i, decoded) == Ok(decoded + s)
    decreases |s|
  {
    hide DecodeFrom, DecodePiece, Escape, EscapeByte, RuneLenAt, PrintedHead, At, ValidUtf8, ValidUtf8From;
    if s == [] {
      assert decoded + s == decoded;
      DecodeFromEnd(raw, i, decoded);
    } else {
      ValidUtf8Head(s);
      EscapeFirst(s);
      var n := RuneLenAt(s, 0);
      AtSplit(raw, i, PrintedHead(s), Escape(s[n..]));
      DecodeEscapedStep(raw, i, s);
      DecodeFromStep(raw, i, decoded, Piece(s[..n], i + |PrintedHead(s)|));
      DecodeEscaped(raw, i + |PrintedHead(s)|, s[n..], decoded + s[..n]);
      ConcatAssoc(decoded, s[..n], s[n..]);
      assert s[..n] + s[n..] == s;
    }
  }

  lemma QuoteParts(input: bytes, i: nat, s: bytes)
    requires At(input, i, Quote(s))
    ensures At(input, i, [QUOTE]) && At(input, i + 1, Escape(s)) && At(input, i + 1 + |Escape(s)|, [QUOTE])
    ensures input[i] == QUOTE
  {
    AtSplit(input, i, [QUOTE] + Escape(s), [QUOTE]);
    AtSplit(input, i, [QUOTE], Escape(s));
    AtIndex(input, i, [QUOTE], 0);
  }

  lemma QuotedDecodes(s: bytes)
    requires ValidUtf8(s)
    ensures DecodeString(Quote(s)) == Ok(s)
  {
    var q := Quote(s);
    assert q[0..0 + |q|] == q;
    QuoteParts(q, 0, s);
    AtIndex(q, 1 + |Escape(s)|, [QUOTE], 0);
    DecodeEscaped(q, 1, s, []);
    assert [] + s == s;
  }

  /** Scanning what the printer wrote for a string consumes exactly that, and decoding it gives
      the string back. */
  lemma PrintedStringRoundTrips(input: bytes, i: nat, s: bytes)
    requires ValidUtf8(s) && At(input, i, Quote(s))
    ensures input[i] == QUOTE
    ensures StringEndFrom(input, i + 1) == Ok(i + |Quote(s)|)
    ensures DecodeString(Quote(s)) == Ok(s)
  {
    QuoteParts(input, i, s);
    ScanEscaped(input, i + 1, s);
    QuotedDecodes(s);
  }

  /** Printing keeps text valid UTF-8. */
  lemma {:induction false} EscapeIsValid(s: bytes)
    requires ValidUtf8(s)
    ensures ValidUtf8(Escape(s))
    decreases |s|
  {
    if s != [] {
      var n := RuneLenAt(s, 0);
      EscapeFirst(s);
      ValidUtf8Suffix(s, n);
      EscapeIsValid(s[n..]);
      PrintedHeadIsValid(s);
      ValidUtf8Concat(PrintedHead(s), Escape(s[n..]));
    }
  }

  lemma PrintedHeadIsValid(s: bytes)
    requires s != [] && RuneLenAt(s, 0) > 0
    ensures ValidUtf8(PrintedHead(s))
  {
    var n := RuneLenAt(s, 0);
    if n == 1 {
      AsciiIsValid(EscapeByte(s[0]));
    } else {
      hide ValidUtf8From;
      assert s[0..0 + n] == s[..n] == s[..n][0..n];
      RuneLenLocal(s, 0, s[..n], 0);
      ValidUtf8Prepend(s[..n], []);
      assert s[..n] + [] == s[..n];
      AsciiIsValid([]);
    }
  }

  lemma QuoteIsValid(s: bytes)
    requires ValidUtf8(s)
    ensures ValidUtf8(Quote(s))
  {
    EscapeIsValid(s);
    AsciiIsValid([QUOTE]);
    ValidUtf8Concat([QUOTE], Escape(s));
    ValidUtf8Concat([QUOTE] + Escape(s), [QUOTE]);
  }
}
