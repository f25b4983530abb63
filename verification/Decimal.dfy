/** Decimal spellings: `strconv.AppendInt`, `strconv.ParseInt` and the strict integer lexeme
    of scan.go, with the theorem that the accepted lexemes are exactly the shortest spellings
    of the integers JavaScript represents exactly. */
module Decimal {
  import opened Bytes
  import opened CanonLimits

  const DIGIT_ZERO: byte := 48
  const DIGIT_NINE: byte := 57
  const SIGN_MINUS: byte := 45
  const SIGN_PLUS: byte := 43

  predicate IsDigit(b: byte)
  {
    DIGIT_ZERO <= b <= DIGIT_NINE
  }

  predicate AllDigits(s: bytes)
  {
    forall i :: 0 <= i < |s| ==> IsDigit(s[i])
  }

  /** A nonempty digit string without a redundant leading zero. */
  predicate ShortestDigits(s: bytes)
  {
    s != [] && AllDigits(s) && (s[0] == DIGIT_ZERO ==> |s| == 1)
  }

  function DigitsValue(s: bytes): (n: nat)
    requires AllDigits(s)
  {
    if s == [] then 0 else DigitsValue(s[..|s| - 1]) * 10 + (s[|s| - 1] - DIGIT_ZERO)
  }

  function FormatNat(n: nat): (s: bytes)
    ensures s != [] && AllDigits(s)
  {
    if n < 10 then [DIGIT_ZERO + n] else FormatNat(n / 10) + [DIGIT_ZERO + n % 10]
  }

  function FormatInt(n: int): (s: bytes)
    ensures s != []
  {
    if n < 0 then [SIGN_MINUS] + FormatNat(-n) else FormatNat(n)
  }

  function Pow10(k: nat): (p: nat)
    ensures p >= 1
  {
    if k == 0 then 1 else 10 * Pow10(k - 1)
  }

  lemma {:induction false} FormatNatValue(n: nat)
    ensures DigitsValue(FormatNat(n)) == n
    ensures ShortestDigits(FormatNat(n))
    ensures n > 0 ==> FormatNat(n)[0] != DIGIT_ZERO
  {
    if n < 10 {
      assert FormatNat(n)[..0] == [];
    } else {
      var s := FormatNat(n);
      FormatNatValue(n / 10);
      assert s[..|s| - 1] == FormatNat(n / 10);
      assert s[0] == FormatNat(n / 10)[0];
    }
  }

  lemma TensAndUnits(v: nat, d: nat)
    requires d < 10
    ensures (v * 10 + d) / 10 == v && (v * 10 + d) % 10 == d
  {
  }

  lemma FormatSnoc(v: nat, d: nat)
    requires v > 0 && d < 10
    ensures FormatNat(v * 10 + d) == FormatNat(v) + [DIGIT_ZERO + d]
  {
    TensAndUnits(v, d);
  }

  lemma {:induction false} FormatOfDigits(s: bytes)
    requires ShortestDigits(s)
    ensures FormatNat(DigitsValue(s)) == s
    ensures s[0] != DIGIT_ZERO ==> DigitsValue(s) > 0
  {
    var p, d := s[..|s| - 1], s[|s| - 1] - DIGIT_ZERO;
    assert s == p + [s[|s| - 1]];
    if p == [] {
      assert DigitsValue(s) == d;
    } else {
      assert p[0] == s[0];
      FormatOfDigits(p);
      FormatSnoc(DigitsValue(p), d);
    }
  }

  lemma {:induction false} DigitsBound(s: bytes)
    requires AllDigits(s)
    ensures DigitsValue(s) < Pow10(|s|)
    ensures s != [] && s[0] != DIGIT_ZERO ==> DigitsValue(s) >= Pow10(|s| - 1)
  {
    if s == [] {
    } else {
      var p := s[..|s| - 1];
      DigitsBound(p);
      if p != [] {
        assert p[0] == s[0];
      }
    }
  }

  lemma Pow10Monotone(a: nat, b: nat)
    requires a <= b
    ensures Pow10(a) <= Pow10(b)
    decreases b - a
  {
    if a < b {
      Pow10Monotone(a + 1, b);
    }
  }

  lemma {:induction false} LessSnoc(p: bytes, x: byte, q: bytes, y: byte)
    requires |p| == |q|
    ensures Less(p + [x], q + [y]) <==> Less(p, q) || (p == q && x < y)
  {
    if p == [] {
    } else {
      assert (p + [x])[1..] == p[1..] + [x] && (q + [y])[1..] == q[1..] + [y];
      assert p == [p[0]] + p[1..] && q == [q[0]] + q[1..];
      LessSnoc(p[1..], x, q[1..], y);
    }
  }

  /** On digit strings of one length the bytewise order is the numeric order. */
  lemma {:induction false} LessIsNumeric(a: bytes, b: bytes)
    requires |a| == |b| && AllDigits(a) && AllDigits(b)
    ensures Less(a, b) <==> DigitsValue(a) < DigitsValue(b)
    ensures a == b <==> DigitsValue(a) == DigitsValue(b)
  {
    if a == [] {
    } else {
      var p, q := a[..|a| - 1], b[..|b| - 1];
      var x, y := a[|a| - 1], b[|b| - 1];
      assert a == p + [x] && b == q + [y];
      LessIsNumeric(p, q);
      LessSnoc(p, x, q, y);
    }
  }

  /** `strconv.ParseInt(raw, 10, 64)` on a signed digit string; None stands for its range error. */
  function ParseInt64(raw: bytes): (r: Option<int>)
  {
    var negative := raw != [] && raw[0] == SIGN_MINUS;
    var digits := if negative then raw[1..] else raw;
    if digits == [] || !AllDigits(digits) then None
    else
      var n: int := DigitsValue(digits);
      if negative then (if n > 0x8000_0000_0000_0000 then None else Some(-n))
      else if n > 0x7FFF_FFFF_FFFF_FFFF then None
      else Some(n)
  }

  // "9007199254740991"
  const MAX_SAFE_INTEGER_DIGITS: bytes := [57, 48, 48, 55, 49, 57, 57, 50, 53, 52, 55, 52, 48, 57, 57, 49]

  function DigitsFrom(raw: bytes, i: nat): (r: Checked<()>)
    requires i <= |raw|
    decreases |raw| - i
    ensures r.Ok? <==> AllDigits(raw[i..])
  {
    if i == |raw| then Ok(())
    else if !IsDigit(raw[i]) then assert !IsDigit(raw[i..][0]); Err(UnsupportedNumber)
    else
      assert raw[i..] == [raw[i]] + raw[i + 1..];
      DigitsFrom(raw, i + 1)
  }

  function IntegerLexeme(raw: bytes): (r: Checked<()>)
  {
    if raw == [] then Err(UnsupportedNumber)
    else if raw == [SIGN_MINUS, DIGIT_ZERO] then Err(NegativeZero)
    else if raw[0] == SIGN_PLUS then Err(UnsupportedNumber)
    else
      var start := if raw[0] == SIGN_MINUS then 1 else 0;
      if start == |raw| then Err(UnsupportedNumber)
      else if raw[start] == DIGIT_ZERO && |raw| - start > 1 then Err(UnsupportedNumber)
      else if DigitsFrom(raw, start).Err? then Err(UnsupportedNumber)
      else
        var digits := raw[start..];
        if |digits| > |MAX_SAFE_INTEGER_DIGITS|
           || (|digits| == |MAX_SAFE_INTEGER_DIGITS| && Less(MAX_SAFE_INTEGER_DIGITS, digits))
        then Err(UnsafeInteger)
        else Ok(())
  }

  method ValidateIntegerLexeme(raw: bytes) returns (r: Checked<()>)
    ensures r == IntegerLexeme(raw)
  {
    if |raw| == 0 {
      return Err(UnsupportedNumber);
    }
    if raw == [SIGN_MINUS, DIGIT_ZERO] {
      return Err(NegativeZero);
    }
    var digitStart := 0;
    if raw[0] == SIGN_MINUS {
      digitStart := 1;
    } else if raw[0] == SIGN_PLUS {
      return Err(UnsupportedNumber);
    }
    if digitStart == |raw| {
      return Err(UnsupportedNumber);
    }
    if raw[digitStart] == DIGIT_ZERO && |raw| - digitStart > 1 {
      return Err(UnsupportedNumber);
    }
    var index := digitStart;
    while index < |raw|
      invariant digitStart <= index <= |raw|
      invariant DigitsFrom(raw, digitStart) == DigitsFrom(raw, index)
    {
      if raw[index] < DIGIT_ZERO || raw[index] > DIGIT_NINE {
        return Err(UnsupportedNumber);
      }
      index := index + 1;
    }
    var digits := raw[digitStart..];
    if |digits| > |MAX_SAFE_INTEGER_DIGITS|
       || (|digits| == |MAX_SAFE_INTEGER_DIGITS| && Less(MAX_SAFE_INTEGER_DIGITS, digits)) {
      return Err(UnsafeInteger);
    }
    return Ok(());
  }

  predicate SafeInteger(n: int)
  {
    -MAX_SAFE_INTEGER <= n <= MAX_SAFE_INTEGER
  }

  /** Comparing length first and then bytes is comparing numbers. */
  lemma CompareDigits(top: bytes, digits: bytes)
    requires AllDigits(top) && top != [] && top[0] != DIGIT_ZERO && ShortestDigits(digits)
    ensures DigitsValue(digits) > DigitsValue(top) <==>
            |digits| > |top| || (|digits| == |top| && Less(top, digits))
  {
    DigitsBound(digits);
    DigitsBound(top);
    if |digits| == |top| {
      LessIsNumeric(top, digits);
    } else if |digits| > |top| {
      Pow10Monotone(|top|, |digits| - 1);
    } else {
      Pow10Monotone(|digits|, |top| - 1);
    }
  }

  lemma FourMoreDigits(p: bytes, a: byte, b: byte, c: byte, d: byte)
    requires AllDigits(p) && AllDigits([a, b, c, d])
    ensures AllDigits(p + [a, b, c, d])
    ensures DigitsValue(p + [a, b, c, d]) ==
            DigitsValue(p) * 10000 + (a - 48) * 1000 + (b - 48) * 100 + (c - 48) * 10 + (d - 48)
  {
    var p1, p2, p3, p4 := p + [a], p + [a, b], p + [a, b, c], p + [a, b, c, d];
    assert p1[..|p1| - 1] == p && p2[..|p2| - 1] == p1 && p3[..|p3| - 1] == p2 && p4[..|p4| - 1] == p3;
    assert DigitsValue(p1) == DigitsValue(p) * 10 + (a - 48);
    assert DigitsValue(p2) == DigitsValue(p1) * 10 + (b - 48);
    assert DigitsValue(p3) == DigitsValue(p2) * 10 + (c - 48);
    assert DigitsValue(p4) == DigitsValue(p3) * 10 + (d - 48);
  }

  lemma MaxSafeIntegerDigits()
    ensures AllDigits(MAX_SAFE_INTEGER_DIGITS) && DigitsValue(MAX_SAFE_INTEGER_DIGITS) == MAX_SAFE_INTEGER
  {
    var q0: bytes := [];
    var q1 := q0 + [57, 48, 48, 55];
    var q2 := q1 + [49, 57, 57, 50];
    var q3 := q2 + [53, 52, 55, 52];
    FourMoreDigits(q0, 57, 48, 48, 55);
    FourMoreDigits(q1, 49, 57, 57, 50);
    FourMoreDigits(q2, 53, 52, 55, 52);
    FourMoreDigits(q3, 48, 57, 57, 49);
    assert MAX_SAFE_INTEGER_DIGITS == q3 + [48, 57, 57, 49];
  }

  /** The length-then-bytes comparison with the largest safe integer is the numeric bound. */
  lemma SafeDigits(digits: bytes)
    requires ShortestDigits(digits)
    ensures DigitsValue(digits) > MAX_SAFE_INTEGER <==>
            |digits| > |MAX_SAFE_INTEGER_DIGITS|
            || (|digits| == |MAX_SAFE_INTEGER_DIGITS| && Less(MAX_SAFE_INTEGER_DIGITS, digits))
  {
    var top := MAX_SAFE_INTEGER_DIGITS;
    MaxSafeIntegerDigits();
    CompareDigits(top, digits);
  }

  /** The accepted integer lexemes are exactly the shortest spellings of the safe integers, and
      `ParseInt` never reports an overflow on them. */
  lemma IntegerLexemeExact(raw: bytes)
    ensures IntegerLexeme(raw).Ok? <==> exists n :: SafeInteger(n) && raw == FormatInt(n)
    ensures IntegerLexeme(raw).Ok? ==>
              && ParseInt64(raw).Some?
              && SafeInteger(ParseInt64(raw).value)
              && FormatInt(ParseInt64(raw).value) == raw
  {
    if IntegerLexeme(raw).Ok? {
      var start := if raw[0] == SIGN_MINUS then 1 else 0;
      var digits := raw[start..];
      assert digits[0] == raw[start];
      assert raw[0..] == raw;
      SafeDigits(digits);
      FormatOfDigits(digits);
      var n: int := if start == 1 then 0 - DigitsValue(digits) else DigitsValue(digits);
      if start == 1 {
        assert raw == [SIGN_MINUS] + digits;
        assert digits == [DIGIT_ZERO] ==> raw == [SIGN_MINUS, DIGIT_ZERO];
      }
      assert SafeInteger(n) && raw == FormatInt(n);
    }
    if n :| SafeInteger(n) && raw == FormatInt(n) {
      FormatIntAccepted(n);
    }
  }

  lemma FormatIntAccepted(n: int)
    requires SafeInteger(n)
    ensures IntegerLexeme(FormatInt(n)).Ok?
    ensures ParseInt64(FormatInt(n)) == Some(n)
  {
    var m := if n < 0 then -n else n;
    var digits := FormatNat(m);
    FormatNatValue(m);
    SafeDigits(digits);
    var raw := FormatInt(n);
    if n < 0 {
      assert raw[1..] == digits;
      assert digits[0] != DIGIT_ZERO && raw[1] == digits[0];
    } else {
      assert raw[0..] == digits;
      assert IsDigit(digits[0]);
    }
  }
}
