/** Sizes of encodings and token streams as sums over members, which sorting does not change. */
module CanonSizes {
  import opened Bytes
  import opened Sorting
  import opened CanonLimits
  import opened Decimal
  import opened Utf8
  import opened CanonValue
  import opened CanonScan
  import opened CanonMeasures
  import opened CanonTokens

  ghost function Sum<T>(s: seq<T>, f: T -> nat): nat
  {
    if s == [] then 0 else f(s[0]) + Sum(s[1..], f)
  }

  lemma {:induction false} SumSnoc<T>(s: seq<T>, x: T, f: T -> nat)
    ensures Sum(s + [x], f) == Sum(s, f) + f(x)
  {
    if s == [] {
      assert [x][1..] == [];
    } else {
      assert (s + [x])[1..] == s[1..] + [x];
      SumSnoc(s[1..], x, f);
    }
  }

  lemma {:induction false} SumInsert<T>(x: T, s: seq<T>, key: T -> bytes, f: T -> nat)
    ensures Sum(Insert(x, s, key), f) == f(x) + Sum(s, f)
  {
    hide Less;
    if s == [] {
    } else if Less(key(s[0]), key(x)) {
      SumInsert(x, s[1..], key, f);
      assert Insert(x, s, key)[1..] == Insert(x, s[1..], key);
    } else {
      assert Insert(x, s, key)[1..] == s;
    }
  }

  lemma {:induction false} SumSortBy<T>(s: seq<T>, key: T -> bytes, f: T -> nat)
    ensures Sum(SortBy(s, key), f) == Sum(s, f)
  {
    if s != [] {
      SumSortBy(s[1..], key, f);
      SumInsert(s[0], SortBy(s[1..], key), key, f);
    }
  }

  ghost const EncodedLength: Value -> nat := (v: Value) => |Encode(v)|
  ghost const TokenCount: Value -> nat := (v: Value) => |TokensOf(v)|
  ghost const MemberLength: Member -> nat := (m: Member) => |EncodeMember(m)|
  ghost const MemberTokenCount: Member -> nat := (m: Member) => |OneMemberTokens(m)|

  /** Commas from element `k` on: one before every element but the first. */
  ghost function Commas(count: nat, k: nat): nat
    requires k <= count
  {
    if k > 0 || count == 0 then count - k else count - 1
  }

  lemma {:induction false} ElemSizes(elems: seq<Value>, k: nat)
    requires k <= |elems|
    ensures |EncodeElems(elems, k)| == Sum(elems[k..], EncodedLength) + Commas(|elems|, k)
    ensures |ElemTokens(elems, k)| == Sum(elems[k..], TokenCount) + Commas(|elems|, k)
    decreases |elems| - k
  {
    hide Encode, TokensOf;
    if k < |elems| {
      ElemSizes(elems, k + 1);
      assert elems[k..][1..] == elems[k + 1..] && elems[k..][0] == elems[k];
    }
  }

  lemma {:induction false} MemberSizes(members: seq<Member>, k: nat)
    requires k <= |members|
    ensures |EncodeMembers(members, k)| == Sum(members[k..], MemberLength) + Commas(|members|, k)
    ensures |MemberTokens(members, k)| == Sum(members[k..], MemberTokenCount) + Commas(|members|, k)
    decreases |members| - k
  {
    hide EncodeMember, OneMemberTokens;
    if k < |members| {
      MemberSizes(members, k + 1);
      assert members[k..][1..] == members[k + 1..] && members[k..][0] == members[k];
    }
  }

  lemma ArraySizes(elems: seq<Value>)
    ensures |Encode(Array(elems))| == 2 + Sum(elems, EncodedLength) + Commas(|elems|, 0)
    ensures |TokensOf(Array(elems))| == 2 + Sum(elems, TokenCount) + Commas(|elems|, 0)
  {
    hide EncodeElems, ElemTokens;
    ElemSizes(elems, 0);
    assert elems[0..] == elems;
  }

  lemma ObjectSizes(members: seq<Member>)
    ensures |Encode(Object(members))| == 2 + Sum(members, MemberLength) + Commas(|members|, 0)
    ensures |TokensOf(Object(members))| == 2 + Sum(members, MemberTokenCount) + Commas(|members|, 0)
  {
    hide EncodeMembers, MemberTokens;
    MemberSizes(members, 0);
    assert members[0..] == members;
  }

  // ------------------------------------------------- nodes and string bytes are bounded by sizes

  lemma {:induction false} EscapeGrows(s: bytes)
    ensures |s| <= |Escape(s)|
  {
    hide EscapeByte;
    if s != [] {
      EscapeGrows(s[1..]);
    }
  }

  lemma {:induction false} SizesBound(v: Value)
    ensures Nodes(v) <= |TokensOf(v)|
    ensures StringBytes(v) <= |Encode(v)|
    decreases v, 0
  {
    match v
    case Text(s) => EscapeGrows(s);
    case Array(elems) => ElemSizesBound(elems, 0);
    case Object(members) => MemberSizesBound(members, 0);
    case _ =>
  }

  lemma {:induction false} ElemSizesBound(elems: seq<Value>, k: nat)
    requires k <= |elems|
    ensures NodesElems(elems, k) <= |ElemTokens(elems, k)|
    ensures StringBytesElems(elems, k) <= |EncodeElems(elems, k)|
    decreases elems, 1, |elems| - k
  {
    hide Nodes, StringBytes, TokensOf, Encode;
    if k < |elems| {
      SizesBound(elems[k]);
      ElemSizesBound(elems, k + 1);
    }
  }

  lemma {:induction false} MemberSizesBound(members: seq<Member>, k: nat)
    requires k <= |members|
    ensures NodesMembers(members, k) <= |MemberTokens(members, k)|
    ensures StringBytesMembers(members, k) <= |EncodeMembers(members, k)|
    decreases members, 1, |members| - k
  {
    hide Nodes, StringBytes, TokensOf, Encode, Escape;
    if k < |members| {
      EscapeGrows(members[k].name);
      SizesBound(members[k].value);
      MemberSizesBound(members, k + 1);
    }
  }

  // ------------------------------------------------- heights do not depend on order

  lemma {:induction false} HeightElemsBound(elems: seq<Value>, k: nat, h: nat)
    requires k <= |elems| && forall n :: k <= n < |elems| ==> 1 + Height(elems[n]) <= h
    ensures HeightElems(elems, k) <= h
    decreases |elems| - k
  {
    if k < |elems| {
      HeightElemsBound(elems, k + 1, h);
    }
  }

  lemma {:induction false} HeightMembersBound(members: seq<Member>, k: nat, h: nat)
    requires k <= |members| && forall n :: k <= n < |members| ==> 1 + Height(members[n].value) <= h
    ensures HeightMembers(members, k) <= h
    decreases |members| - k
  {
    if k < |members| {
      HeightMembersBound(members, k + 1, h);
    }
  }
}
