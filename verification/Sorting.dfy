/** Sorting by a byte-string key. `sort.Slice` leaves the order of equal keys open; with
    distinct keys the sorted permutation is unique, whatever algorithm computes it. */
module Sorting {
  import opened Bytes

  predicate Sorted<T>(s: seq<T>, key: T -> bytes)
  {
    forall i, j :: 0 <= i < j < |s| ==> !Less(key(s[j]), key(s[i]))
  }

  predicate StrictlySorted<T>(s: seq<T>, key: T -> bytes)
  {
    forall i, j :: 0 <= i < j < |s| ==> Less(key(s[i]), key(s[j]))
  }

  ghost predicate DistinctKeys<T>(s: seq<T>, key: T -> bytes)
  {
    forall i, j :: 0 <= i < j < |s| ==> key(s[i]) != key(s[j])
  }

  lemma RepeatedKey<T>(s: seq<T>, key: T -> bytes, i: nat, j: nat)
    requires i < j < |s| && key(s[i]) == key(s[j])
    ensures !DistinctKeys(s, key)
  {
  }

  function Insert<T>(x: T, s: seq<T>, key: T -> bytes): (r: seq<T>)
    ensures |r| == |s| + 1
  {
    if s == [] then [x]
    else if Less(key(s[0]), key(x)) then [s[0]] + Insert(x, s[1..], key)
    else [x] + s
  }

  function SortBy<T>(s: seq<T>, key: T -> bytes): (r: seq<T>)
    ensures |r| == |s|
  {
    if s == [] then [] else Insert(s[0], SortBy(s[1..], key), key)
  }

  lemma {:induction false} InsertMultiset<T>(x: T, s: seq<T>, key: T -> bytes)
    ensures multiset(Insert(x, s, key)) == multiset{x} + multiset(s)
  {
    if s == [] {
    } else {
      assert s == [s[0]] + s[1..];
      if Less(key(s[0]), key(x)) {
        InsertMultiset(x, s[1..], key);
      }
    }
  }

  lemma {:induction false} InsertSorted<T>(x: T, s: seq<T>, key: T -> bytes)
    requires Sorted(s, key)
    ensures Sorted(Insert(x, s, key), key)
  {
    if s == [] {
    } else if Less(key(s[0]), key(x)) {
      InsertSorted(x, s[1..], key);
      var t := Insert(x, s[1..], key);
      InsertMultiset(x, s[1..], key);
      forall j | 0 <= j < |t| ensures !Less(key(t[j]), key(s[0])) {
        assert t[j] in multiset(t);
        if t[j] == x {
          LessAsymmetric(key(s[0]), key(x));
        } else {
          assert t[j] in s[1..];
        }
      }
    } else {
      forall j | 0 <= j < |s| ensures !Less(key(s[j]), key(x)) {
        if Less(key(s[j]), key(x)) {
          LessTotal(key(s[0]), key(x));
          if Less(key(x), key(s[0])) {
            LessTransitive(key(s[j]), key(x), key(s[0]));
          }
        }
      }
    }
  }

  /** Sorting permutes and orders. */
  lemma {:induction false} SortByCorrect<T>(s: seq<T>, key: T -> bytes)
    ensures multiset(SortBy(s, key)) == multiset(s)
    ensures Sorted(SortBy(s, key), key)
    ensures forall x :: x in SortBy(s, key) <==> x in s
  {
    if s == [] {
    } else {
      SortByCorrect(s[1..], key);
      assert s == [s[0]] + s[1..];
      InsertMultiset(s[0], SortBy(s[1..], key), key);
      InsertSorted(s[0], SortBy(s[1..], key), key);
    }
    assert forall x :: x in SortBy(s, key) <==> x in multiset(SortBy(s, key));
    assert forall x :: x in s <==> x in multiset(s);
  }

  lemma SortedDistinctIsStrict<T>(s: seq<T>, key: T -> bytes)
    requires Sorted(s, key) && DistinctKeys(s, key)
    ensures StrictlySorted(s, key)
  {
    forall i, j | 0 <= i < j < |s| ensures Less(key(s[i]), key(s[j])) {
      LessTotal(key(s[i]), key(s[j]));
    }
  }

  lemma StrictIsDistinct<T>(s: seq<T>, key: T -> bytes)
    requires StrictlySorted(s, key)
    ensures DistinctKeys(s, key) && Sorted(s, key)
  {
    forall i, j | 0 <= i < j < |s| ensures key(s[i]) != key(s[j]) && !Less(key(s[j]), key(s[i])) {
      LessIrreflexive(key(s[i]));
      LessAsymmetric(key(s[i]), key(s[j]));
    }
  }

  lemma {:induction false} DistinctCount<T>(s: seq<T>, key: T -> bytes, x: T)
    requires DistinctKeys(s, key)
    ensures multiset(s)[x] <= 1
  {
    if s == [] {
    } else {
      assert s == [s[0]] + s[1..];
      DistinctCount(s[1..], key, x);
      assert forall k :: 1 <= k < |s| ==> key(s[k]) != key(s[0]);
      assert x in s[1..] ==> key(x) != key(s[0]);
    }
  }

  lemma CountTwo<T>(t: seq<T>, i: nat, j: nat)
    requires i < j < |t| && t[i] == t[j]
    ensures multiset(t)[t[i]] >= 2
  {
    assert t == t[..j] + t[j..];
    assert t[i] in t[..j] && t[i] in t[j..];
  }

  /** Distinct keys survive any permutation. */
  lemma DistinctKeysPermute<T>(s: seq<T>, t: seq<T>, key: T -> bytes)
    requires multiset(s) == multiset(t) && DistinctKeys(s, key)
    ensures DistinctKeys(t, key)
  {
    forall i, j | 0 <= i < j < |t| ensures key(t[i]) != key(t[j]) {
      if t[i] == t[j] {
        CountTwo(t, i, j);
        DistinctCount(s, key, t[i]);
      } else {
        assert t[i] in multiset(s) && t[j] in multiset(s);
        assert t[i] in s && t[j] in s;
      }
    }
  }

  /** Two strictly sorted sequences with the same elements are the same sequence. */
  lemma {:induction false} StrictlySortedUnique<T>(s: seq<T>, t: seq<T>, key: T -> bytes)
    requires StrictlySorted(s, key) && StrictlySorted(t, key)
    requires forall x :: x in s <==> x in t
    ensures s == t
  {
    if s == [] {
      assert forall i :: 0 <= i < |t| ==> t[i] in s;
    } else {
      assert s[0] in t;
      assert t[0] in s;
      if s[0] != t[0] {
        LessAsymmetric(key(s[0]), key(t[0]));
        assert false;
      }
      LessIrreflexive(key(s[0]));
      forall x ensures x in s[1..] <==> x in t[1..] {
        StrictIsDistinct(s, key);
        StrictIsDistinct(t, key);
        assert s == [s[0]] + s[1..] && t == [t[0]] + t[1..];
        assert x in s[1..] ==> x in s;
        assert x in t[1..] ==> x in t;
      }
      StrictlySortedUnique(s[1..], t[1..], key);
      assert s == [s[0]] + s[1..] && t == [t[0]] + t[1..];
    }
  }

  /** With distinct keys the result depends only on the elements, not on their input order. */
  lemma SortByPermutation<T>(s: seq<T>, t: seq<T>, key: T -> bytes)
    requires multiset(s) == multiset(t) && DistinctKeys(s, key)
    ensures SortBy(s, key) == SortBy(t, key)
    ensures StrictlySorted(SortBy(s, key), key)
  {
    SortByCorrect(s, key);
    SortByCorrect(t, key);
    DistinctKeysPermute(s, SortBy(s, key), key);
    DistinctKeysPermute(s, SortBy(t, key), key);
    SortedDistinctIsStrict(SortBy(s, key), key);
    SortedDistinctIsStrict(SortBy(t, key), key);
    assert forall x :: x in s <==> x in multiset(s);
    assert forall x :: x in t <==> x in multiset(t);
    StrictlySortedUnique(SortBy(s, key), SortBy(t, key), key);
  }

  /** Duplicate-free lists of the same elements sort to the same list. */
  lemma SortSameElements<T>(s: seq<T>, t: seq<T>, key: T -> bytes)
    requires DistinctKeys(s, key) && DistinctKeys(t, key) && forall x :: x in s <==> x in t
    ensures SortBy(s, key) == SortBy(t, key)
  {
    SortByPermutation(s, s, key);
    SortByPermutation(t, t, key);
    SortByCorrect(s, key);
    SortByCorrect(t, key);
    StrictlySortedUnique(SortBy(s, key), SortBy(t, key), key);
  }

  /** Sorting what is strictly sorted already changes nothing. */
  lemma SortByIdempotent<T>(s: seq<T>, key: T -> bytes)
    requires StrictlySorted(s, key)
    ensures SortBy(s, key) == s
  {
    StrictIsDistinct(s, key);
    SortByPermutation(s, s, key);
    SortByCorrect(s, key);
    StrictlySortedUnique(SortBy(s, key), s, key);
  }
}
