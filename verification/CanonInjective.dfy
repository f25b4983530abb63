/** The canonical encoding is injective on every well-formed value, also on those too large to
    parse back, so comparing encodings is comparing values. */
module CanonInjective {
  import opened Bytes
  import opened CanonLimits
  import opened Decimal
  import opened Utf8
  import opened CanonValue
  import opened CanonScan
  import opened CanonParse
  import opened CanonStrings
  import opened CanonMeasures
  import opened CanonTokens

  /** The first token where a value is printed is the value's first token. */
  lemma FirstTokenAt(input: bytes, i: nat, v: Value)
    requires WellFormed(v) && At(input, i, Encode(v)) && EndsAt(input, i + |Encode(v)|)
    ensures i < |input| && TokenAt(input, i) == Ok(TokensOf(v)[0])
  {
    hide TokenAt, TokensFrom, At, EndsAt, Quote, EncodeElems, EncodeMembers, ElemTokens, MemberTokens, FormatInt;
    match v
    case Null => LiteralTokenAt(input, i, v);
    case Bool(_) => LiteralTokenAt(input, i, v);
    case Integer(n) => IntegerTokenAt(input, i, n);
    case Text(s) =>
      PrintedStringRoundTrips(input, i, s);
      QuotedToken(input, i, Quote(s));
    case Array(elems) =>
      ConcatAssoc([BRACKET_OPEN], EncodeElems(elems, 0), [BRACKET_CLOSE]);
      PunctuationFirst(input, i, BRACKET_OPEN, EncodeElems(elems, 0) + [BRACKET_CLOSE]);
    case Object(members) =>
      ConcatAssoc([BRACE_OPEN], EncodeMembers(members, 0), [BRACE_CLOSE]);
      PunctuationFirst(input, i, BRACE_OPEN, EncodeMembers(members, 0) + [BRACE_CLOSE]);
  }

  lemma PunctuationFirst(input: bytes, i: nat, b: byte, rest: bytes)
    requires At(input, i, [b] + rest) && Punctuation(b).Some?
    ensures i < |input| && input[i] == b && TokenAt(input, i) == Ok(Token(Punctuation(b).value, [b]))
  {
    hide TokenAt;
    AtIndex(input, i, [b] + rest, 0);
    PunctuationToken(input, i);
  }

  lemma LiteralTokenAt(input: bytes, i: nat, v: Value)
    requires v.Null? || v.Bool?
    requires At(input, i, Encode(v)) && EndsAt(input, i + |Encode(v)|)
    ensures i < |input| && TokenAt(input, i) == Ok(TokensOf(v)[0])
  {
    ScalarEndAt(input, i, Encode(v));
    AtIndex(input, i, Encode(v), 0);
  }

  lemma IntegerTokenAt(input: bytes, i: nat, n: int)
    requires SafeInteger(n)
    requires At(input, i, FormatInt(n)) && EndsAt(input, i + |FormatInt(n)|)
    ensures i < |input| && TokenAt(input, i) == Ok(Token(IntegerToken, FormatInt(n)))
  {
    hide FormatInt, IntegerLexeme, ParseInt64;
    FormatIntDigits(n);
    ScalarEndAt(input, i, FormatInt(n));
    AtIndex(input, i, FormatInt(n), 0);
    FormatIntAccepted(n);
  }

  /** One token tells scalars apart. */
  lemma ScalarFromToken(v: Value, w: Value)
    requires WellFormed(v) && WellFormed(w) && TokensOf(v)[0] == TokensOf(w)[0]
    ensures !v.Array? && !v.Object? ==> v == w
    ensures v.Array? ==> w.Array?
    ensures v.Object? ==> w.Object?
  {
    hide FormatInt, ParseInt64, Quote, DecodeString, ValidUtf8From, ElemTokens, MemberTokens;
    if v.Integer? && w.Integer? {
      FormatIntAccepted(v.integer);
      FormatIntAccepted(w.integer);
    }
    if v.Text? && w.Text? {
      QuotedDecodes(v.text);
      QuotedDecodes(w.text);
    }
  }

  /** Two values printed at the same place are the same value. */
  lemma {:induction false} PrintedOnce(input: bytes, i: nat, v: Value, w: Value)
    requires WellFormed(v) && At(input, i, Encode(v)) && EndsAt(input, i + |Encode(v)|)
    requires WellFormed(w) && At(input, i, Encode(w)) && EndsAt(input, i + |Encode(w)|)
    ensures v == w
    decreases v, 0
  {
    hide TokenAt, TokensOf, At, EndsAt, EncodeElems, EncodeMembers;
    FirstTokenAt(input, i, v);
    FirstTokenAt(input, i, w);
    ScalarFromToken(v, w);
    if v.Array? {
      AtSplit(input, i, [BRACKET_OPEN], EncodeElems(v.elems, 0) + [BRACKET_CLOSE]);
      AtSplit(input, i, [BRACKET_OPEN], EncodeElems(w.elems, 0) + [BRACKET_CLOSE]);
      ConcatAssoc([BRACKET_OPEN], EncodeElems(v.elems, 0), [BRACKET_CLOSE]);
      ConcatAssoc([BRACKET_OPEN], EncodeElems(w.elems, 0), [BRACKET_CLOSE]);
      ElemsPrintedOnce(input, i + 1, v.elems, w.elems, 0);
    } else if v.Object? {
      AtSplit(input, i, [BRACE_OPEN], EncodeMembers(v.members, 0) + [BRACE_CLOSE]);
      AtSplit(input, i, [BRACE_OPEN], EncodeMembers(w.members, 0) + [BRACE_CLOSE]);
      ConcatAssoc([BRACE_OPEN], EncodeMembers(v.members, 0), [BRACE_CLOSE]);
      ConcatAssoc([BRACE_OPEN], EncodeMembers(w.members, 0), [BRACE_CLOSE]);
      MembersPrintedOnce(input, i + 1, v.members, w.members, 0);
    }
  }

  /** A printed value does not start with a closing bracket or a comma. */
  lemma FirstByte(input: bytes, i: nat, v: Value)
    requires WellFormed(v) && At(input, i, Encode(v))
    ensures i < |input| && input[i] != BRACKET_CLOSE && input[i] != COMMA
  {
    hide EncodeElems, EncodeMembers, Escape;
    AtIndex(input, i, Encode(v), 0);
    if v.Integer? {
      hide FormatInt;
      FormatIntDigits(v.integer);
    }
  }

  /** What the printer still writes from element `k` on, with the closing bracket. */
  lemma ElemsParts(input: bytes, i: nat, elems: seq<Value>, k: nat)
    requires k < |elems| && At(input, i, EncodeElems(elems, k) + [BRACKET_CLOSE])
    ensures At(input, i, Separator(k))
    ensures var j := i + |Separator(k)|;
            && At(input, j, Encode(elems[k])) && EndsAt(input, j + |Encode(elems[k])|)
            && At(input, j + |Encode(elems[k])|, EncodeElems(elems, k + 1) + [BRACKET_CLOSE])
  {
    hide Encode;
    var a, b, c := Separator(k), Encode(elems[k]), EncodeElems(elems, k + 1);
    ConcatAssoc(a + b, c, [BRACKET_CLOSE]);
    AtSplit(input, i, a + b, c + [BRACKET_CLOSE]);
    AtSplit(input, i, a, b);
    TailEnds(input, i + |a| + |b|, elems, k + 1);
  }

  lemma TailEnds(input: bytes, j: nat, elems: seq<Value>, k: nat)
    requires 0 < k <= |elems| && At(input, j, EncodeElems(elems, k) + [BRACKET_CLOSE])
    ensures EndsAt(input, j)
    ensures j < |input| && input[j] == if k == |elems| then BRACKET_CLOSE else COMMA
  {
    hide Encode;
    AtIndex(input, j, EncodeElems(elems, k) + [BRACKET_CLOSE], 0);
  }

  /** Whether another element follows shows at the first byte. */
  lemma ElemsFirstByte(input: bytes, i: nat, elems: seq<Value>, k: nat)
    requires k <= |elems| && At(input, i, EncodeElems(elems, k) + [BRACKET_CLOSE])
    requires forall n :: 0 <= n < |elems| ==> WellFormed(elems[n])
    ensures i < |input| && (input[i] == BRACKET_CLOSE <==> k == |elems|)
  {
    hide Encode, WellFormed, At, EncodeElems;
    if k == |elems| {
      NoElemsLeft(elems);
      AtIndex(input, i, EncodeElems(elems, k) + [BRACKET_CLOSE], 0);
    } else if k > 0 {
      TailEnds(input, i, elems, k);
    } else {
      ElemsParts(input, i, elems, k);
      FirstByte(input, i, elems[k]);
    }
  }

  lemma NoElemsLeft(elems: seq<Value>)
    ensures EncodeElems(elems, |elems|) == []
  {
  }

  lemma {:induction false} ElemsPrintedOnce(input: bytes, i: nat, es: seq<Value>, fs: seq<Value>, k: nat)
    requires k <= |es| && k <= |fs| && es[..k] == fs[..k]
    requires forall n :: 0 <= n < |es| ==> WellFormed(es[n])
    requires forall n :: 0 <= n < |fs| ==> WellFormed(fs[n])
    requires At(input, i, EncodeElems(es, k) + [BRACKET_CLOSE])
    requires At(input, i, EncodeElems(fs, k) + [BRACKET_CLOSE])
    ensures es == fs
    decreases es, 1, |es| - k
  {
    hide Encode, EncodeElems, WellFormed, At, EndsAt, Separator;
    ElemsFirstByte(input, i, es, k);
    ElemsFirstByte(input, i, fs, k);
    if k == |es| {
      assert es == es[..k] && fs == fs[..k];
    } else {
      ElemsParts(input, i, es, k);
      ElemsParts(input, i, fs, k);
      var j := i + |Separator(k)|;
      PrintedOnce(input, j, es[k], fs[k]);
      assert es[..k + 1] == es[..k] + [es[k]] && fs[..k + 1] == fs[..k] + [fs[k]];
      ElemsPrintedOnce(input, j + |Encode(es[k])|, es, fs, k + 1);
    }
  }

  // ---------------------------------------------------------------- objects

  lemma MembersParts(input: bytes, i: nat, members: seq<Member>, k: nat)
    requires k < |members| && At(input, i, EncodeMembers(members, k) + [BRACE_CLOSE])
    ensures At(input, i, Separator(k))
    ensures var j := i + |Separator(k)|;
            && At(input, j, EncodeMember(members[k])) && EndsAt(input, j + |EncodeMember(members[k])|)
            && At(input, j + |EncodeMember(members[k])|, EncodeMembers(members, k + 1) + [BRACE_CLOSE])
  {
    hide EncodeMember;
    var a, b, c := Separator(k), EncodeMember(members[k]), EncodeMembers(members, k + 1);
    ConcatAssoc(a + b, c, [BRACE_CLOSE]);
    AtSplit(input, i, a + b, c + [BRACE_CLOSE]);
    AtSplit(input, i, a, b);
    MemberTailEnds(input, i + |a| + |b|, members, k + 1);
  }

  lemma MemberTailEnds(input: bytes, j: nat, members: seq<Member>, k: nat)
    requires 0 < k <= |members| && At(input, j, EncodeMembers(members, k) + [BRACE_CLOSE])
    ensures EndsAt(input, j)
    ensures j < |input| && input[j] == if k == |members| then BRACE_CLOSE else COMMA
  {
    hide EncodeMember;
    AtIndex(input, j, EncodeMembers(members, k) + [BRACE_CLOSE], 0);
  }

  lemma MembersFirstByte(input: bytes, i: nat, members: seq<Member>, k: nat)
    requires k <= |members| && At(input, i, EncodeMembers(members, k) + [BRACE_CLOSE])
    ensures i < |input| && (input[i] == BRACE_CLOSE <==> k == |members|)
  {
    hide EncodeMember, At, EncodeMembers;
    if k == |members| {
      NoMembersLeft(members);
      AtIndex(input, i, EncodeMembers(members, k) + [BRACE_CLOSE], 0);
    } else if k > 0 {
      MemberTailEnds(input, i, members, k);
    } else {
      MembersParts(input, i, members, k);
      MemberParts(input, i, members[k]);
    }
  }

  lemma NoMembersLeft(members: seq<Member>)
    ensures EncodeMembers(members, |members|) == []
  {
  }

  lemma MemberParts(input: bytes, i: nat, m: Member)
    requires At(input, i, EncodeMember(m))
    ensures At(input, i, Quote(m.name)) && i < |input| && input[i] == QUOTE
    ensures At(input, i + |Quote(m.name)| + 1, Encode(m.value))
    ensures i + |EncodeMember(m)| == i + |Quote(m.name)| + 1 + |Encode(m.value)|
  {
    hide Encode, Escape;
    AtSplit(input, i, Quote(m.name) + [COLON], Encode(m.value));
    AtSplit(input, i, Quote(m.name), [COLON]);
    AtIndex(input, i, Quote(m.name), 0);
  }

  /** The names agree because the scanner finds one end of the string. */
  lemma NamesPrintedOnce(input: bytes, i: nat, a: bytes, b: bytes)
    requires ValidUtf8(a) && ValidUtf8(b) && At(input, i, Quote(a)) && At(input, i, Quote(b))
    ensures a == b
  {
    hide Quote, StringEndFrom, DecodeString, ValidUtf8;
    PrintedStringRoundTrips(input, i, a);
    PrintedStringRoundTrips(input, i, b);
  }

  lemma {:induction false} MembersPrintedOnce(input: bytes, i: nat, ms: seq<Member>, ns: seq<Member>, k: nat)
    requires k <= |ms| && k <= |ns| && ms[..k] == ns[..k]
    requires WellFormed(Object(ms)) && WellFormed(Object(ns))
    requires At(input, i, EncodeMembers(ms, k) + [BRACE_CLOSE])
    requires At(input, i, EncodeMembers(ns, k) + [BRACE_CLOSE])
    ensures ms == ns
    decreases ms, 1, |ms| - k
  {
    hide Encode, EncodeMember, EncodeMembers, At, EndsAt, Separator, Quote, ValidUtf8;
    MembersFirstByte(input, i, ms, k);
    MembersFirstByte(input, i, ns, k);
    if k == |ms| {
      assert ms == ms[..k] && ns == ns[..k];
    } else {
      MembersParts(input, i, ms, k);
      MembersParts(input, i, ns, k);
      var j := i + |Separator(k)|;
      MemberParts(input, j, ms[k]);
      MemberParts(input, j, ns[k]);
      NamesPrintedOnce(input, j, ms[k].name, ns[k].name);
      PrintedOnce(input, j + |Quote(ms[k].name)| + 1, ms[k].value, ns[k].value);
      assert ms[k] == ns[k];
      assert ms[..k + 1] == ms[..k] + [ms[k]] && ns[..k + 1] == ns[..k] + [ns[k]];
      MembersPrintedOnce(input, j + |EncodeMember(ms[k])|, ms, ns, k + 1);
    }
  }

  /** Different well-formed values have different encodings, whatever their size. */
  lemma EncodeInjective(v: Value, w: Value)
    requires WellFormed(v) && WellFormed(w)
    ensures Encode(v) == Encode(w) <==> v == w
  {
    hide Encode, WellFormed;
    if Encode(v) == Encode(w) {
      var input := Encode(v);
      assert input[0..0 + |input|] == input;
      PrintedOnce(input, 0, v, w);
    }
  }

  /** `Value.Equal`, which compares canonical bytes and panics on a value it cannot print. */
  predicate Equal(v: Value, w: Value)
    requires Printable(v) && Printable(w)
  {
    CanonicalBytes(v).value == CanonicalBytes(w).value
  }

  lemma EqualIsStructural(v: Value, w: Value)
    requires Printable(v) && Printable(w)
    ensures Equal(v, w) <==> v == w
  {
    hide Encode, WellFormed, Charge, Height;
    PrintableExactly(v);
    PrintableExactly(w);
    EncodeInjective(v, w);
  }
}
