/** Identity keys of exact values and tuples (internal/choice/validation.go), portable mode. */
module ChoiceKeys {
  import opened Bytes
  import opened Decimal
  import opened PortableValue

  const COLON: byte := 0x3A

  datatype FieldValue = FieldValue(id: bytes, value: Exact)

  /** `lengthPrefix`: the decimal length, a colon, and the text. */
  function LengthPrefix(s: bytes): bytes
  {
    FormatNat(|s|) + [COLON] + s
  }

  /** `identityKey`. */
  function IdentityKey(v: Exact): bytes
  {
    match v
    case Missing => [0x4D]
    case NullValue => [0x4E]
    case StringValueOf(text) => [0x53] + LengthPrefix(text)
    case IntegerValueOf(integer) => [0x49] + LengthPrefix(integer)
    case BooleanValue(b) => [0x42, if b then 0x31 else 0x30]
    case BytesValueOf(b) => [0x58] + LengthPrefix(b)
    case StringList(canonical) => [0x4C] + LengthPrefix(canonical)
    case CanonicalJson(json) => [0x4A] + LengthPrefix(json)
  }

  function FieldKey(f: FieldValue): bytes
  {
    LengthPrefix(f.id) + LengthPrefix(IdentityKey(f.value))
  }

  /** `tupleIdentityKey`. */
  function TupleKey(fields: seq<FieldValue>): bytes
  {
    if fields == [] then [] else TupleKey(fields[..|fields| - 1]) + FieldKey(fields[|fields| - 1])
  }

  method TupleIdentityKey(fields: seq<FieldValue>) returns (key: bytes)
    ensures key == TupleKey(fields)
  {
    key := [];
    for i := 0 to |fields|
      invariant key == TupleKey(fields[..i])
    {
      assert fields[..i + 1][..i] == fields[..i];
      var withId := key + LengthPrefix(fields[i].id);
      ConcatAssoc(key, LengthPrefix(fields[i].id), LengthPrefix(IdentityKey(fields[i].value)));
      key := withId + LengthPrefix(IdentityKey(fields[i].value));
    }
    assert fields[..|fields|] == fields;
  }

  // -------------------------------------------------------------- injectivity

  lemma StartsWithColon(a: bytes, x: bytes)
    requires COLON !in a
    ensures (a + [COLON] + x)[0] == COLON <==> a == []
  {
    if a != [] {
      assert a[0] in a;
    }
  }

  /** Text before the first colon is determined. */
  lemma {:induction false} ColonSplits(a: bytes, x: bytes, b: bytes, y: bytes)
    requires COLON !in a && COLON !in b && a + [COLON] + x == b + [COLON] + y
    ensures a == b && x == y
  {
    var s, t := a + [COLON] + x, b + [COLON] + y;
    StartsWithColon(a, x);
    StartsWithColon(b, y);
    if a == [] {
      assert s[1..] == x && t[1..] == y;
    } else {
      assert s[0] == a[0] && t[0] == b[0];
      assert s[1..] == a[1..] + [COLON] + x && t[1..] == b[1..] + [COLON] + y;
      ColonSplits(a[1..], x, b[1..], y);
      assert a == [a[0]] + a[1..] && b == [b[0]] + b[1..];
    }
  }

  lemma NoColon(n: nat)
    ensures COLON !in FormatNat(n)
  {
    assert AllDigits(FormatNat(n));
  }

  /** A length-prefixed text ends where its length says, whatever follows. */
  lemma LengthPrefixUnique(p: bytes, x: bytes, q: bytes, y: bytes)
    requires LengthPrefix(p) + x == LengthPrefix(q) + y
    ensures p == q && x == y
  {
    hide FormatNat;
    NoColon(|p|);
    NoColon(|q|);
    ConcatAssoc(FormatNat(|p|) + [COLON], p, x);
    ConcatAssoc(FormatNat(|q|) + [COLON], q, y);
    ColonSplits(FormatNat(|p|), p + x, FormatNat(|q|), q + y);
    FormatNatValue(|p|);
    FormatNatValue(|q|);
    assert (p + x)[..|p|] == p && (q + y)[..|q|] == q;
    assert (p + x)[|p|..] == x && (q + y)[|q|..] == y;
  }

  lemma LengthPrefixInjective(p: bytes, q: bytes)
    requires LengthPrefix(p) == LengthPrefix(q)
    ensures p == q
  {
    hide LengthPrefix;
    assert LengthPrefix(p) + [] == LengthPrefix(p) && LengthPrefix(q) + [] == LengthPrefix(q);
    LengthPrefixUnique(p, [], q, []);
  }

  lemma TailEqual(a: byte, p: bytes, b: byte, q: bytes)
    requires [a] + p == [b] + q
    ensures a == b && p == q
  {
    assert ([a] + p)[0] == a && ([b] + q)[0] == b;
    assert ([a] + p)[1..] == p && ([b] + q)[1..] == q;
  }

  /** Value keys agree exactly on equal values. */
  lemma IdentityKeyInjective(v: Exact, w: Exact)
    ensures IdentityKey(v) == IdentityKey(w) <==> v == w
  {
    hide LengthPrefix;
    if IdentityKey(v) == IdentityKey(w) {
      assert IdentityKey(v)[0] == IdentityKey(w)[0];
      match (v, w)
      case (StringValueOf(x), StringValueOf(y)) => SameTagged(0x53, x, y);
      case (IntegerValueOf(x), IntegerValueOf(y)) => SameTagged(0x49, x, y);
      case (BytesValueOf(x), BytesValueOf(y)) => SameTagged(0x58, x, y);
      case (StringList(x), StringList(y)) => SameTagged(0x4C, x, y);
      case (CanonicalJson(x), CanonicalJson(y)) => SameTagged(0x4A, x, y);
      case (BooleanValue(_), BooleanValue(_)) => assert IdentityKey(v)[1] == IdentityKey(w)[1];
      case _ =>
    }
  }

  lemma SameTagged(tag: byte, x: bytes, y: bytes)
    requires [tag] + LengthPrefix(x) == [tag] + LengthPrefix(y)
    ensures x == y
  {
    hide LengthPrefix;
    TailEqual(tag, LengthPrefix(x), tag, LengthPrefix(y));
    LengthPrefixInjective(x, y);
  }

  lemma FieldKeyUnique(f: FieldValue, x: bytes, g: FieldValue, y: bytes)
    requires FieldKey(f) + x == FieldKey(g) + y
    ensures f == g && x == y
  {
    hide LengthPrefix, IdentityKey;
    var k, l := LengthPrefix(IdentityKey(f.value)), LengthPrefix(IdentityKey(g.value));
    ConcatAssoc(LengthPrefix(f.id), k, x);
    ConcatAssoc(LengthPrefix(g.id), l, y);
    LengthPrefixUnique(f.id, k + x, g.id, l + y);
    LengthPrefixUnique(IdentityKey(f.value), x, IdentityKey(g.value), y);
    IdentityKeyInjective(f.value, g.value);
  }

  /** The first field comes first in the key. */
  lemma {:induction false} TupleKeyHead(fields: seq<FieldValue>)
    requires fields != []
    ensures TupleKey(fields) == FieldKey(fields[0]) + TupleKey(fields[1..])
  {
    hide FieldKey;
    var last := |fields| - 1;
    if last == 0 {
      assert TupleKey(fields[..0]) == [] && fields[1..] == [];
    } else {
      TupleKeyHead(fields[..last]);
      assert fields[..last][1..] == fields[1..][..last - 1];
      ConcatAssoc(FieldKey(fields[0]), TupleKey(fields[1..][..last - 1]), FieldKey(fields[last]));
      assert fields[1..][last - 1] == fields[last];
    }
  }

  /** Tuple keys agree exactly when field ids and exact values do, in order and number. */
  lemma {:induction false} TupleKeyInjective(a: seq<FieldValue>, b: seq<FieldValue>)
    ensures TupleKey(a) == TupleKey(b) <==> a == b
    decreases |a|
  {
    hide FieldKey, TupleKey;
    if a != [] && b != [] && TupleKey(a) == TupleKey(b) {
      TupleKeyHead(a);
      TupleKeyHead(b);
      FieldKeyUnique(a[0], TupleKey(a[1..]), b[0], TupleKey(b[1..]));
      TupleKeyInjective(a[1..], b[1..]);
      assert a == [a[0]] + a[1..] && b == [b[0]] + b[1..];
    } else if a == [] || b == [] {
      EmptyKey(a);
      EmptyKey(b);
    }
  }

  lemma EmptyKey(a: seq<FieldValue>)
    ensures TupleKey(a) == [] <==> a == []
  {
    if a != [] {
      assert |FieldKey(a[|a| - 1])| > 0;
    }
  }
}
