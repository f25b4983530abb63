/** UTF-8 as Go's unicode/utf8 package reads and writes it. The accepted sequences are those of
    the syntax in section 4 of RFC 3629. */
module Utf8 {
  import opened Bytes

  const RUNE_ERROR: int := 0xFFFD
  const RUNE_SELF: int := 0x80

  predicate Continuation(b: byte)
  {
    0x80 <= b <= 0xBF
  }

  /** Length of the well-formed sequence starting at `i`, or 0 when there is none. */
  function RuneLenAt(s: bytes, i: nat): (n: nat)
    requires i < |s|
    ensures n <= 4 && i + n <= |s|
    ensures n == 1 <==> s[i] < 0x80
  {
    var b := s[i];
    if b < 0x80 then 1
    else if 0xC2 <= b <= 0xDF then
      if i + 1 < |s| && Continuation(s[i + 1]) then 2 else 0
    else if 0xE0 <= b <= 0xEF then
      if i + 2 < |s| && ThreeByteSecond(b, s[i + 1]) && Continuation(s[i + 2]) then 3 else 0
    else if 0xF0 <= b <= 0xF4 then
      if i + 3 < |s| && FourByteSecond(b, s[i + 1]) && Continuation(s[i + 2]) && Continuation(s[i + 3])
      then 4 else 0
    else 0
  }

  predicate ThreeByteSecond(b: byte, c: byte)
  {
    if b == 0xE0 then 0xA0 <= c <= 0xBF else if b == 0xED then 0x80 <= c <= 0x9F else Continuation(c)
  }

  predicate FourByteSecond(b: byte, c: byte)
  {
    if b == 0xF0 then 0x90 <= c <= 0xBF else if b == 0xF4 then 0x80 <= c <= 0x8F else Continuation(c)
  }

  datatype Rune = Rune(value: int, size: nat)

  /** `utf8.DecodeRune(s[i:])`: an invalid start reads as the error rune of size one. */
  function DecodeRune(s: bytes, i: nat): (r: Rune)
    requires i < |s|
    ensures 1 <= r.size && i + r.size <= |s|
    ensures r.size == if RuneLenAt(s, i) == 0 then 1 else RuneLenAt(s, i)
  {
    var size := RuneLenAt(s, i);
    var lead: int := s[i];
    if size == 0 then Rune(RUNE_ERROR, 1)
    else if size == 1 then Rune(lead, 1)
    else if size == 2 then Rune((lead - 0xC0) * 64 + Payload(s[i + 1]), 2)
    else if size == 3 then Rune(((lead - 0xE0) * 64 + Payload(s[i + 1])) * 64 + Payload(s[i + 2]), 3)
    else
      Rune((((lead - 0xF0) * 64 + Payload(s[i + 1])) * 64 + Payload(s[i + 2])) * 64 + Payload(s[i + 3]), 4)
  }

  function Payload(b: byte): int
  {
    b - 0x80
  }

  predicate IsSurrogate(r: int)
  {
    0xD800 <= r <= 0xDFFF
  }

  /** A Unicode scalar value. */
  predicate IsScalar(r: int)
  {
    0 <= r <= 0x10FFFF && !IsSurrogate(r)
  }

  /** `utf8.AppendRune(nil, r)`; anything that is no scalar value becomes the error rune. */
  function EncodeRune(r: int): (e: bytes)
    ensures 1 <= |e| <= 4
  {
    if !IsScalar(r) then [0xEF, 0xBF, 0xBD]
    else if r < 0x80 then [r]
    else if r < 0x800 then [0xC0 + r / 64, 0x80 + r % 64]
    else if r < 0x10000 then [0xE0 + r / 64 / 64, 0x80 + r / 64 % 64, 0x80 + r % 64]
    else [0xF0 + r / 64 / 64 / 64, 0x80 + r / 64 / 64 % 64, 0x80 + r / 64 % 64, 0x80 + r % 64]
  }

  /** Decoding reads back what encoding wrote, whatever follows. */
  lemma EncodeThenDecode(r: int, t: bytes)
    requires IsScalar(r)
    ensures RuneLenAt(EncodeRune(r) + t, 0) == |EncodeRune(r)|
    ensures DecodeRune(EncodeRune(r) + t, 0) == Rune(r, |EncodeRune(r)|)
  {
    var e := EncodeRune(r);
    var s := e + t;
    assert s[0] == e[0];
    if r < 0x80 {
    } else if r < 0x800 {
      assert s[1] == e[1];
    } else if r < 0x10000 {
      assert s[1] == e[1] && s[2] == e[2];
    } else {
      assert s[1] == e[1] && s[2] == e[2] && s[3] == e[3];
    }
  }

  lemma SixBits(q: int, x: int)
    requires 0 <= x < 64
    ensures (q * 64 + x) / 64 == q && (q * 64 + x) % 64 == x
  {
  }

  lemma DecodeThenEncodeTwo(s: bytes, i: nat)
    requires i < |s| && RuneLenAt(s, i) == 2
    ensures IsScalar(DecodeRune(s, i).value)
    ensures EncodeRune(DecodeRune(s, i).value) == s[i..i + 2]
  {
    SixBits(s[i] - 0xC0, Payload(s[i + 1]));
  }

  lemma DecodeThenEncodeThree(s: bytes, i: nat)
    requires i < |s| && RuneLenAt(s, i) == 3
    ensures IsScalar(DecodeRune(s, i).value)
    ensures EncodeRune(DecodeRune(s, i).value) == s[i..i + 3]
  {
    var q: int := s[i] - 0xE0;
    SixBits(q, Payload(s[i + 1]));
    SixBits(q * 64 + Payload(s[i + 1]), Payload(s[i + 2]));
    assert EncodeRune(DecodeRune(s, i).value) == [s[i], s[i + 1], s[i + 2]];
  }

  lemma DecodeThenEncodeFour(s: bytes, i: nat)
    requires i < |s| && RuneLenAt(s, i) == 4
    ensures IsScalar(DecodeRune(s, i).value)
    ensures EncodeRune(DecodeRune(s, i).value) == s[i..i + 4]
  {
    var q: int := s[i] - 0xF0;
    var q1 := q * 64 + Payload(s[i + 1]);
    SixBits(q, Payload(s[i + 1]));
    SixBits(q1, Payload(s[i + 2]));
    SixBits(q1 * 64 + Payload(s[i + 2]), Payload(s[i + 3]));
    assert EncodeRune(DecodeRune(s, i).value) == [s[i], s[i + 1], s[i + 2], s[i + 3]];
  }

  /** The table of well-formed sequences admits nothing but encodings of scalar values. */
  lemma DecodeThenEncode(s: bytes, i: nat)
    requires i < |s| && RuneLenAt(s, i) > 0
    ensures IsScalar(DecodeRune(s, i).value)
    ensures EncodeRune(DecodeRune(s, i).value) == s[i..i + RuneLenAt(s, i)]
  {
    var n := RuneLenAt(s, i);
    if n == 1 {
    } else if n == 2 {
      DecodeThenEncodeTwo(s, i);
    } else if n == 3 {
      DecodeThenEncodeThree(s, i);
    } else {
      DecodeThenEncodeFour(s, i);
    }
  }

  predicate ValidUtf8From(s: bytes, i: nat)
    requires i <= |s|
    decreases |s| - i
  {
    i == |s| || (RuneLenAt(s, i) > 0 && ValidUtf8From(s, i + RuneLenAt(s, i)))
  }

  predicate ValidUtf8(s: bytes)
  {
    ValidUtf8From(s, 0)
  }

  function FirstInvalidFrom(s: bytes, i: nat): (r: int)
    requires i <= |s|
    decreases |s| - i
    ensures r == -1 <==> ValidUtf8From(s, i)
    ensures r != -1 ==> i <= r < |s| && RuneLenAt(s, r) == 0
  {
    if i == |s| then -1
    else if RuneLenAt(s, i) == 0 then i
    else FirstInvalidFrom(s, i + RuneLenAt(s, i))
  }

  /** The error rune read with size one marks exactly the malformed positions; a literal U+FFFD
      in the input has size three and is no error. */
  method FirstInvalidUtf8(input: bytes) returns (r: int)
    ensures r == FirstInvalidFrom(input, 0)
    ensures r == -1 <==> ValidUtf8(input)
  {
    var offset := 0;
    while offset < |input|
      invariant 0 <= offset <= |input|
      invariant FirstInvalidFrom(input, 0) == FirstInvalidFrom(input, offset)
    {
      var decoded := DecodeRune(input, offset);
      if decoded.value == RUNE_ERROR && decoded.size == 1 {
        return offset;
      }
      offset := offset + decoded.size;
    }
    return -1;
  }

  /** The length of a sequence depends on its own bytes only. */
  lemma RuneLenLocal(s: bytes, i: nat, t: bytes, j: nat)
    requires i < |s| && RuneLenAt(s, i) > 0 && At(t, j, s[i..i + RuneLenAt(s, i)])
    ensures j < |t| && RuneLenAt(t, j) == RuneLenAt(s, i)
  {
    var n := RuneLenAt(s, i);
    AtIndex(t, j, s[i..i + n], 0);
    if n >= 2 { AtIndex(t, j, s[i..i + n], 1); }
    if n >= 3 { AtIndex(t, j, s[i..i + n], 2); }
    if n >= 4 { AtIndex(t, j, s[i..i + n], 3); }
  }

  /** Every byte of a longer sequence lies outside ASCII. */
  lemma LongRuneBytes(s: bytes, i: nat)
    requires i < |s| && RuneLenAt(s, i) > 1
    ensures forall k :: i <= k < i + RuneLenAt(s, i) ==> s[k] >= 0x80
  {
  }

  lemma {:induction false} ValidUtf8Suffix(s: bytes, i: nat)
    requires i <= |s|
    ensures ValidUtf8From(s, i) <==> ValidUtf8(s[i..])
  {
    ValidUtf8Shift(s, i, s[i..], 0);
  }

  /** Valid text is one well-formed sequence and then valid text. */
  lemma ValidUtf8Head(s: bytes)
    requires s != [] && ValidUtf8(s)
    ensures RuneLenAt(s, 0) > 0 && ValidUtf8(s[RuneLenAt(s, 0)..])
  {
    ValidUtf8Suffix(s, RuneLenAt(s, 0));
  }

  /** Validity of a suffix does not depend on what precedes it. */
  lemma {:induction false} ValidUtf8Shift(s: bytes, i: nat, t: bytes, j: nat)
    requires i <= |s| && j <= |t| && s[i..] == t[j..]
    ensures ValidUtf8From(s, i) == ValidUtf8From(t, j)
    decreases |s| - i
  {
    assert |s| - i == |t| - j;
    if i < |s| {
      assert s[i..][0] == t[j..][0];
      if i + 1 < |s| { assert s[i..][1] == t[j..][1]; }
      if i + 2 < |s| { assert s[i..][2] == t[j..][2]; }
      if i + 3 < |s| { assert s[i..][3] == t[j..][3]; }
      var n := RuneLenAt(s, i);
      assert RuneLenAt(t, j) == n;
      if n > 0 {
        assert s[i + n..] == s[i..][n..] == t[j..][n..] == t[j + n..];
        ValidUtf8Shift(s, i + n, t, j + n);
      }
    }
  }

  /** A well-formed sequence in front of valid text is valid text. */
  lemma ValidUtf8Prepend(e: bytes, s: bytes)
    requires e != [] && RuneLenAt(e, 0) == |e| && ValidUtf8(s)
    ensures ValidUtf8(e + s)
    ensures RuneLenAt(e + s, 0) == |e|
  {
    assert e[0..0 + |e|] == e && (e + s)[0..|e|] == e;
    RuneLenLocal(e, 0, e + s, 0);
    assert (e + s)[|e|..] == s[0..];
    ValidUtf8Shift(e + s, |e|, s, 0);
  }

  lemma {:induction false} ValidUtf8Concat(a: bytes, b: bytes)
    requires ValidUtf8(a) && ValidUtf8(b)
    ensures ValidUtf8(a + b)
    decreases |a|
  {
    if a == [] {
      assert a + b == b;
    } else {
      var n := RuneLenAt(a, 0);
      ValidUtf8Suffix(a, n);
      ValidUtf8Concat(a[n..], b);
      assert a[0..0 + n] == a[..n];
      RuneLenLocal(a, 0, a[..n], 0);
      ValidUtf8Prepend(a[..n], a[n..] + b);
      assert a + b == a[..n] + (a[n..] + b);
    }
  }

  lemma {:induction false} AsciiIsValid(s: bytes)
    requires forall i :: 0 <= i < |s| ==> s[i] < 0x80
    ensures ValidUtf8(s)
  {
    if s != [] {
      AsciiIsValid(s[1..]);
      ValidUtf8Prepend([s[0]], s[1..]);
      assert s == [s[0]] + s[1..];
    }
  }

  lemma EncodedRuneIsValid(r: int)
    ensures ValidUtf8(EncodeRune(r)) && RuneLenAt(EncodeRune(r), 0) == |EncodeRune(r)|
  {
    if IsScalar(r) {
      EncodeThenDecode(r, []);
      assert EncodeRune(r) + [] == EncodeRune(r);
    }
    assert RuneLenAt(EncodeRune(r), 0) == |EncodeRune(r)|;
  }
}
