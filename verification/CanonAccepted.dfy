/** What an accepted input guarantees about the value parsed from it. */
module CanonAccepted {
  import opened Bytes
  import opened Sorting
  import opened CanonLimits
  import opened Decimal
  import opened Utf8
  import opened CanonValue
  import opened CanonScan
  import opened CanonParse
  import opened CanonStrings
  import opened CanonMeasures
  import opened CanonTokens
  import opened CanonReparse
  import opened CanonSizes

  // ---------------------------------------------------------------- tokens of an accepted input

  /** Raw bytes that mean what their kind says. */
  predicate GoodToken(t: Token)
  {
    match t.kind
    case StringToken =>
      && DecodeString(t.raw).Ok?
      && ValidUtf8(DecodeString(t.raw).value)
      && |Quote(DecodeString(t.raw).value)| <= |t.raw|
    case IntegerToken => IntegerLexeme(t.raw).Ok?
    case NullToken => t.raw == NULL_LITERAL
    case TrueToken => t.raw == TRUE_LITERAL
    case FalseToken => t.raw == FALSE_LITERAL
    case EofToken => t.raw == []
    case _ => t.raw != []
  }

  lemma IntegerTokenIsAscii(raw: bytes)
    requires IntegerLexeme(raw).Ok?
    ensures forall k :: 0 <= k < |raw| ==> raw[k] < 0x80
  {
    IntegerLexemeExact(raw);
    hide IntegerLexeme, ParseInt64;
    FormatIntDigits(ParseInt64(raw).value);
  }

  /** A token that is neither a string nor malformed consists of ASCII bytes. */
  lemma OtherTokenIsAscii(input: bytes, i: nat)
    requires i < |input| && TokenAt(input, i).Ok? && TokenAt(input, i).value.kind != StringToken
    ensures GoodToken(TokenAt(input, i).value)
    ensures forall k :: 0 <= k < |TokenAt(input, i).value.raw| ==> TokenAt(input, i).value.raw[k] < 0x80
  {
    hide IntegerLexeme, StringEndFrom, ScalarEnd, DecodeString;
    var b := input[i];
    if IsWhitespace(b) {
      WhitespaceIsAscii(input, i + 1);
    } else if NumberStart(b) && Punctuation(b).None? && b != QUOTE {
      IntegerTokenIsAscii(input[i..ScalarEnd(input, i)]);
    }
  }

  lemma {:induction false} WhitespaceIsAscii(input: bytes, i: nat)
    requires i <= |input|
    ensures forall k :: i <= k < WhitespaceEnd(input, i) ==> input[k] < 0x80
    decreases |input| - i
  {
    if i < |input| && IsWhitespace(input[i]) {
      WhitespaceIsAscii(input, i + 1);
    }
  }

  lemma ScannedTokenIsGood(input: bytes, i: nat)
    requires i < |input| && ValidUtf8From(input, i) && TokenAt(input, i).Ok?
    ensures GoodToken(TokenAt(input, i).value)
    ensures ValidUtf8From(input, i + |TokenAt(input, i).value.raw|)
  {
    hide ValidUtf8From, TokenAt, GoodToken, DecodeString, StringEndFrom;
    var t := TokenAt(input, i).value;
    if t.kind == StringToken {
      StringTokenStart(input, i);
      ScannedStringDecodes(input, i);
      StringTokenIsGood(t);
    } else {
      OtherTokenIsAscii(input, i);
      forall k | i <= k < i + |t.raw| ensures input[k] < 0x80 {
        AtIndex(input, i, t.raw, k - i);
        assert t.raw[k - i] < 0x80;
      }
      AsciiAdvance(input, i, |t.raw|);
    }
  }

  lemma StringTokenIsGood(t: Token)
    requires t.kind == StringToken && DecodeString(t.raw).Ok?
    requires ValidUtf8(DecodeString(t.raw).value) && |Quote(DecodeString(t.raw).value)| <= |t.raw|
    ensures GoodToken(t)
  {
    hide DecodeString, ValidUtf8, Quote;
  }

  lemma StringTokenStart(input: bytes, i: nat)
    requires i < |input| && ValidUtf8From(input, i)
    requires TokenAt(input, i).Ok? && TokenAt(input, i).value.kind == StringToken
    ensures input[i] == QUOTE && ValidUtf8From(input, i + 1) && StringEndFrom(input, i + 1).Ok?
    ensures TokenAt(input, i).value.raw == input[i..StringEndFrom(input, i + 1).value]
    ensures i + |TokenAt(input, i).value.raw| == StringEndFrom(input, i + 1).value
  {
    hide StringEndFrom, IntegerLexeme;
  }

  predicate GoodTokens(tokens: seq<Token>)
  {
    forall k :: 0 <= k < |tokens| ==> GoodToken(tokens[k])
  }

  lemma {:induction false} TokensFromGood(input: bytes, i: nat, tokens: seq<Token>)
    requires i <= |input| && ValidUtf8From(input, i) && GoodTokens(tokens)
    requires TokensFrom(input, i, tokens).Ok?
    ensures GoodTokens(TokensFrom(input, i, tokens).value)
    ensures |TokensFrom(input, i, tokens).value| > 0
    decreases |input| - i
  {
    hide ValidUtf8From, TokenAt, GoodToken;
    if i == |input| {
      EofIsGood();
    } else {
      ScannedTokenIsGood(input, i);
      TokensFromGood(input, i + |TokenAt(input, i).value.raw|, tokens + [TokenAt(input, i).value]);
    }
  }

  lemma EofIsGood()
    ensures GoodToken(EOF)
  {
  }

  /** Raw bytes of the first `n` tokens. */
  function RawSum(tokens: seq<Token>, n: nat): nat
    requires n <= |tokens|
  {
    if n == 0 then 0 else RawSum(tokens, n - 1) + |tokens[n - 1].raw|
  }

  lemma {:induction false} RawSumMonotone(tokens: seq<Token>, i: nat, j: nat)
    requires i <= j <= |tokens|
    ensures RawSum(tokens, i) <= RawSum(tokens, j)
    decreases j - i
  {
    if i < j {
      RawSumMonotone(tokens, i, j - 1);
    }
  }

  lemma {:induction false} RawSumIsLength(tokens: seq<Token>, n: nat)
    requires n <= |tokens|
    ensures RawSum(tokens, n) == |Concat(tokens[..n])|
  {
    if n > 0 {
      RawSumIsLength(tokens, n - 1);
      assert tokens[..n][..n - 1] == tokens[..n - 1];
    }
  }

  // ---------------------------------------------------------------- values parsed from tokens

  /** The value is well formed, within the depth, and no larger than tokens `i..j`. */
  ghost predicate Bounded(tokens: seq<Token>, i: nat, j: nat, depth: nat, v: Value)
  {
    && i <= j <= |tokens|
    && WellFormed(v)
    && depth + Height(v) <= MAX_NESTING_DEPTH
    && |Encode(v)| <= RawSum(tokens, j) - RawSum(tokens, i)
    && |TokensOf(v)| <= j - i
  }

  lemma ScalarBounded(tokens: seq<Token>, i: nat, depth: nat)
    requires i < |tokens| && GoodToken(tokens[i]) && Scalar(tokens[i]).Ok? && depth <= MAX_NESTING_DEPTH
    ensures Bounded(tokens, i, i + 1, depth, Scalar(tokens[i]).value)
  {
    hide DecodeString, IntegerLexeme, ParseInt64, FormatInt, Quote, ValidUtf8From;
    if tokens[i].kind == IntegerToken {
      IntegerLexemeExact(tokens[i].raw);
    }
  }

  lemma BoundedFrom(tokens: seq<Token>, h: nat, i: nat, j: nat, depth: nat, v: Value)
    requires h <= i && Bounded(tokens, i, j, depth, v)
    ensures Bounded(tokens, h, j, depth, v)
  {
    hide WellFormed, Height, Encode, TokensOf, RawSum;
    RawSumMonotone(tokens, h, i);
  }

  lemma {:induction false} ValueBounded(tokens: seq<Token>, i: nat, depth: nat)
    requires GoodTokens(tokens) && i <= |tokens| && ValueAt(tokens, i, depth).Ok?
    ensures var p := ValueAt(tokens, i, depth).value;
            Bounded(tokens, i, p.next, depth, p.value)
    decreases |tokens| - i, 1
  {
    hide ArrayAt, ObjectAt, Scalar, GoodToken, Bounded, WellFormed;
    var j := Skip(tokens, i);
    if KindAt(tokens, j) == ArrayOpen {
      ArrayBounded(tokens, j, depth + 1);
      BoundedFrom(tokens, i, j, ArrayAt(tokens, j, depth + 1).value.next, depth,
                  ArrayAt(tokens, j, depth + 1).value.value);
    } else if KindAt(tokens, j) == ObjectOpen {
      ObjectBounded(tokens, j, depth + 1);
      BoundedFrom(tokens, i, j, ObjectAt(tokens, j, depth + 1).value.next, depth,
                  ObjectAt(tokens, j, depth + 1).value.value);
    } else {
      EofIsNoValue();
      ScalarBounded(tokens, j, depth);
      BoundedFrom(tokens, i, j, j + 1, depth, Scalar(tokens[j]).value);
    }
  }

  lemma EofIsNoValue()
    ensures Scalar(EOF).Err?
  {
  }

  /** What the element loop has collected since the opening bracket at `open`. */
  ghost predicate Collected(tokens: seq<Token>, open: nat, i: nat, depth: nat, values: seq<Value>)
  {
    && open < i <= |tokens|
    && (forall k :: 0 <= k < |values| ==> WellFormed(values[k]) && depth + Height(values[k]) <= MAX_NESTING_DEPTH)
    && 1 + Sum(values, EncodedLength) + |values| <= RawSum(tokens, i) - RawSum(tokens, open)
    && 1 + Sum(values, TokenCount) + |values| <= i - open
  }

  lemma OneMoreToken(tokens: seq<Token>, i: nat)
    requires GoodTokens(tokens) && i < |tokens| && tokens[i].kind != EofToken
    ensures RawSum(tokens, i + 1) >= RawSum(tokens, i) + 1
  {
    hide DecodeString, IntegerLexeme, Quote, ValidUtf8From;
    var t := tokens[i];
    assert GoodToken(t);
    if t.kind == StringToken {
      assert |Quote(DecodeString(t.raw).value)| >= 1 by { QuoteLength(DecodeString(t.raw).value); }
    } else if t.kind == IntegerToken {
      IntegerIsNonempty(t.raw);
    }
  }

  lemma QuoteLength(s: bytes)
    ensures |Quote(s)| == |Escape(s)| + 2
  {
  }

  lemma IntegerIsNonempty(raw: bytes)
    requires IntegerLexeme(raw).Ok?
    ensures raw != []
  {
  }

  /** One more value, read from `i` to `j`, is collected; `j` may lie beyond whitespace. */
  lemma CollectValue(tokens: seq<Token>, open: nat, i: nat, j: nat, k: nat, depth: nat, values: seq<Value>, v: Value)
    requires Collected(tokens, open, i, depth, values) && Bounded(tokens, i, j, depth, v)
    requires j <= k <= |tokens|
    ensures var all := values + [v];
            && (forall n :: 0 <= n < |all| ==> WellFormed(all[n]) && depth + Height(all[n]) <= MAX_NESTING_DEPTH)
            && Sum(all, EncodedLength) + |all| <= RawSum(tokens, k) - RawSum(tokens, open)
            && Sum(all, TokenCount) + |all| <= k - open
            && open < k
  {
    hide WellFormed, Height, Encode, TokensOf, RawSum, Sum;
    SumSnoc(values, v, EncodedLength);
    SumSnoc(values, v, TokenCount);
    RawSumMonotone(tokens, j, k);
  }

  lemma {:induction false} ArrayBounded(tokens: seq<Token>, i: nat, depth: nat)
    requires GoodTokens(tokens) && i <= |tokens| && 0 < depth <= MAX_NESTING_DEPTH + 1 && ArrayAt(tokens, i, depth).Ok?
    ensures var p := ArrayAt(tokens, i, depth).value;
            Bounded(tokens, i, p.next, depth - 1, p.value)
    decreases |tokens| - i, 0
  {
    hide ElemsAt, GoodToken, WellFormed, NewArray, RawSum, TokensOf;
    var j := Skip(tokens, i);
    OneMoreToken(tokens, j);
    RawSumMonotone(tokens, i, j);
    var k := Skip(tokens, j + 1);
    RawSumMonotone(tokens, j + 1, k);
    if KindAt(tokens, k) == ArrayClose {
      OneMoreToken(tokens, k);
      EmptyContainers();
    } else {
      ElemsBounded(tokens, i, k, depth, []);
    }
  }

  lemma EmptyContainers()
    ensures NewArray([]) == Ok(Array([])) && NewObject([]) == Ok(Object([]))
    ensures WellFormed(Array([])) && Height(Array([])) == 0 && |Encode(Array([]))| == 2 && |TokensOf(Array([]))| == 2
    ensures WellFormed(Object([])) && Height(Object([])) == 0 && |Encode(Object([]))| == 2 && |TokensOf(Object([]))| == 2
  {
    PrintableExactly(Array([]));
    NewObjectAdmitsEmpty();
    ArraySizes([]);
    ObjectSizes([]);
  }

  lemma {:induction false} ElemsBounded(tokens: seq<Token>, open: nat, i: nat, depth: nat, values: seq<Value>)
    requires GoodTokens(tokens) && i <= |tokens| && 0 < depth && ElemsAt(tokens, i, depth, values).Ok?
    requires Collected(tokens, open, i, depth, values)
    ensures var p := ElemsAt(tokens, i, depth, values).value;
            Bounded(tokens, open, p.next, depth - 1, p.value)
    decreases |tokens| - i, 2
  {
    hide ValueAt, GoodToken, Collected, Bounded, NewArray, RawSum, WellFormed, Sum;
    ValueBounded(tokens, i, depth);
    var p := ValueAt(tokens, i, depth).value;
    var j := Skip(tokens, p.next);
    CollectValue(tokens, open, i, p.next, j, depth, values, p.value);
    OneMoreToken(tokens, j);
    var all := values + [p.value];
    if KindAt(tokens, j) == CommaMark {
      CollectedComma(tokens, open, j, depth, all);
      ElemsBounded(tokens, open, j + 1, depth, all);
    } else {
      CollectedArray(tokens, open, j, depth, all);
    }
  }

  lemma CollectedComma(tokens: seq<Token>, open: nat, j: nat, depth: nat, all: seq<Value>)
    requires open < j < |tokens|
    requires forall n :: 0 <= n < |all| ==> WellFormed(all[n]) && depth + Height(all[n]) <= MAX_NESTING_DEPTH
    requires Sum(all, EncodedLength) + |all| <= RawSum(tokens, j) - RawSum(tokens, open)
    requires Sum(all, TokenCount) + |all| <= j - open
    requires RawSum(tokens, j + 1) >= RawSum(tokens, j) + 1
    ensures Collected(tokens, open, j + 1, depth, all)
  {
    hide WellFormed, Height, Sum, RawSum;
  }

  /** The collected elements make a bounded array. */
  lemma CollectedArray(tokens: seq<Token>, open: nat, j: nat, depth: nat, all: seq<Value>)
    requires open < j < |tokens| && 0 < depth && all != [] && NewArray(all).Ok?
    requires forall n :: 0 <= n < |all| ==> WellFormed(all[n]) && depth + Height(all[n]) <= MAX_NESTING_DEPTH
    requires Sum(all, EncodedLength) + |all| <= RawSum(tokens, j) - RawSum(tokens, open)
    requires Sum(all, TokenCount) + |all| <= j - open
    requires RawSum(tokens, j + 1) >= RawSum(tokens, j) + 1
    ensures Bounded(tokens, open, j + 1, depth - 1, NewArray(all).value)
  {
    hide Encode, TokensOf, Sum, RawSum, CanonicalBytes;
    ArraySizes(all);
    assert WellFormed(all[0]) && depth + Height(all[0]) <= MAX_NESTING_DEPTH;
    HeightElemsBound(all, 0, MAX_NESTING_DEPTH - depth + 1);
  }

  // ---------------------------------------------------------------- objects

  ghost predicate GoodMember(m: Member, depth: nat)
  {
    ValidUtf8(m.name) && WellFormed(m.value) && depth + Height(m.value) <= MAX_NESTING_DEPTH
  }

  lemma NameBounded(tokens: seq<Token>, i: nat, seen: set<bytes>)
    requires GoodTokens(tokens) && i <= |tokens| && NameAt(tokens, i, seen).Ok?
    ensures var p := NameAt(tokens, i, seen).value;
            && p.next <= |tokens|
            && ValidUtf8(p.name) && p.name !in seen
            && RawSum(tokens, i) + |Quote(p.name)| + 1 <= RawSum(tokens, p.next)
            && i + 2 <= p.next
  {
    hide DecodeString, ValidUtf8From, Quote, IntegerLexeme;
    var j := Skip(tokens, i);
    assert GoodToken(tokens[j]);
    var k := Skip(tokens, j + 1);
    RawSumMonotone(tokens, i, j);
    RawSumMonotone(tokens, j + 1, k);
    OneMoreToken(tokens, k);
  }

  lemma {:induction false} MemberBounded(tokens: seq<Token>, i: nat, depth: nat, seen: set<bytes>)
    requires GoodTokens(tokens) && i <= |tokens| && MemberAt(tokens, i, depth, seen).Ok?
    ensures var p := MemberAt(tokens, i, depth, seen).value;
            && p.next <= |tokens|
            && GoodMember(p.member, depth) && p.member.name !in seen
            && RawSum(tokens, i) + |EncodeMember(p.member)| <= RawSum(tokens, p.next)
            && i + |OneMemberTokens(p.member)| <= p.next
    decreases |tokens| - i, 2
  {
    hide NameAt, ValueAt, GoodTokens, RawSum, Quote, WellFormed, Height, ValidUtf8;
    NameBounded(tokens, i, seen);
    ValueBounded(tokens, NameAt(tokens, i, seen).value.next, depth);
  }

  ghost predicate MembersCollected(tokens: seq<Token>, open: nat, i: nat, depth: nat, members: seq<Member>,
                                   seen: set<bytes>)
  {
    && open < i <= |tokens|
    && MembersOk(depth, members, seen)
    && 1 + Sum(members, MemberLength) + |members| <= RawSum(tokens, i) - RawSum(tokens, open)
    && 1 + Sum(members, MemberTokenCount) + |members| <= i - open
  }

  /** The members are good, their names are all in `seen` and distinct. */
  ghost predicate MembersOk(depth: nat, members: seq<Member>, seen: set<bytes>)
  {
    && (forall k :: 0 <= k < |members| ==> GoodMember(members[k], depth) && members[k].name in seen)
    && DistinctKeys(members, MemberName)
  }

  lemma MembersOkNext(depth: nat, members: seq<Member>, seen: set<bytes>, m: Member)
    requires MembersOk(depth, members, seen) && GoodMember(m, depth) && m.name !in seen
    ensures MembersOk(depth, members + [m], seen + {m.name})
  {
    hide GoodMember;
    var all := members + [m];
    forall i, j | 0 <= i < j < |all| ensures MemberName(all[i]) != MemberName(all[j]) {
      if j < |members| {
        assert MemberName(members[i]) != MemberName(members[j]);
      }
    }
  }

  lemma {:induction false} ObjectBounded(tokens: seq<Token>, i: nat, depth: nat)
    requires GoodTokens(tokens) && i <= |tokens| && 0 < depth <= MAX_NESTING_DEPTH + 1 && ObjectAt(tokens, i, depth).Ok?
    ensures var p := ObjectAt(tokens, i, depth).value;
            Bounded(tokens, i, p.next, depth - 1, p.value)
    decreases |tokens| - i, 0
  {
    hide MembersAt, GoodToken, WellFormed, NewObject, RawSum, TokensOf, MembersCollected;
    var j := Skip(tokens, i);
    OneMoreToken(tokens, j);
    RawSumMonotone(tokens, i, j);
    var k := Skip(tokens, j + 1);
    RawSumMonotone(tokens, j + 1, k);
    if KindAt(tokens, k) == ObjectClose {
      OneMoreToken(tokens, k);
      EmptyContainers();
    } else {
      NoMembersCollected(tokens, i, k, depth);
      MembersBounded(tokens, i, k, depth, [], {});
    }
  }

  lemma NoMembersCollected(tokens: seq<Token>, open: nat, i: nat, depth: nat)
    requires open < i <= |tokens| && RawSum(tokens, open) + 1 <= RawSum(tokens, i)
    ensures MembersCollected(tokens, open, i, depth, [], {})
  {
    hide RawSum;
  }

  lemma {:induction false} MembersBounded(tokens: seq<Token>, open: nat, i: nat, depth: nat, members: seq<Member>,
                                          seen: set<bytes>)
    requires GoodTokens(tokens) && i <= |tokens| && 0 < depth <= MAX_NESTING_DEPTH + 1
    requires MembersAt(tokens, i, depth, members, seen).Ok?
    requires MembersCollected(tokens, open, i, depth, members, seen)
    ensures var p := MembersAt(tokens, i, depth, members, seen).value;
            Bounded(tokens, open, p.next, depth - 1, p.value)
    decreases |tokens| - i, 3
  {
    hide MemberAt, GoodToken, MembersOk, GoodMember, Bounded, RawSum, Sum, OrderedObject, EncodeMember, OneMemberTokens;
    MemberBounded(tokens, i, depth, seen);
    var p := MemberAt(tokens, i, depth, seen).value;
    var j := Skip(tokens, p.next);
    var all := members + [p.member];
    RawSumMonotone(tokens, p.next, j);
    OneMoreToken(tokens, j);
    SumSnoc(members, p.member, MemberLength);
    SumSnoc(members, p.member, MemberTokenCount);
    MembersOkNext(depth, members, seen, p.member);
    if KindAt(tokens, j) == CommaMark {
      MembersBounded(tokens, open, j + 1, depth, all, seen + {p.member.name});
    } else {
      CollectedObject(tokens, open, j, depth, all, seen + {p.member.name});
    }
  }

  /** Sorting the collected members makes a bounded object. */
  lemma CollectedObject(tokens: seq<Token>, open: nat, j: nat, depth: nat, all: seq<Member>, seen: set<bytes>)
    requires open < j < |tokens| && 0 < depth <= MAX_NESTING_DEPTH + 1 && 0 < |all| <= MAX_CONTAINER_MEMBERS
    requires MembersOk(depth, all, seen)
    requires Sum(all, MemberLength) + |all| <= RawSum(tokens, j) - RawSum(tokens, open)
    requires Sum(all, MemberTokenCount) + |all| <= j - open
    requires RawSum(tokens, j + 1) >= RawSum(tokens, j) + 1
    ensures Bounded(tokens, open, j + 1, depth - 1, OrderedObject(all))
  {
    hide Encode, TokensOf, Sum, RawSum, SortBy, ValidUtf8, Less;
    var sorted := SortBy(all, MemberName);
    SortByCorrect(all, MemberName);
    SortByPermutation(all, all, MemberName);
    SumSortBy(all, MemberName, MemberLength);
    SumSortBy(all, MemberName, MemberTokenCount);
    ObjectSizes(sorted);
    forall k | 0 <= k < |sorted| ensures GoodMember(sorted[k], depth) {
      assert sorted[k] in all;
    }
    assert GoodMember(sorted[0], depth);
    HeightMembersBound(sorted, 0, MAX_NESTING_DEPTH - depth + 1);
  }
}
