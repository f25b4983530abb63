/** Comparison envelopes and the assessment of one measured matrix. */
module Envelopes {
  import opened Bytes
  import opened Sorting
  import opened Domain

  // ------------------------------------------------------------- the envelope

  datatype Source = WorldInstance | ToolReceipt | FilesystemProbe | ProcessReceipt | OtherSource

  datatype Comparator = Exact | RecordedOnly | RejectOnVariance | OtherComparator

  datatype Dimension = Dimension(name: bytes, source: Source, comparator: Comparator)

  datatype Tolerance = MayDifferRecorded | ProjectedPlaceholder | OtherTolerance

  datatype Tolerated = Tolerated(name: bytes, tolerance: Tolerance)

  datatype Rejected = Rejected(name: bytes, reason: bytes)

  datatype Config = Config(
    version: bytes, measured: seq<Dimension>, required: seq<bytes>, tolerated: seq<Tolerated>,
    rejected: seq<Rejected>, uncontrolled: seq<bytes>)

  datatype Envelope = Envelope(digest: Digest, config: Config)

  datatype EnvelopeError = InvalidEnvelope

  function DimensionName(d: Dimension): bytes { d.name }

  function ToleratedName(t: Tolerated): bytes { t.name }

  function RejectedName(r: Rejected): bytes { r.name }

  predicate KnownDimension(d: Dimension)
  {
    d.name != [] && d.source != OtherSource && d.comparator != OtherComparator
  }

  /** The list names exactly the dimensions measured with comparator `c`, each once. */
  ghost predicate Enumerates<T>(list: seq<T>, name: T -> bytes, measured: seq<Dimension>, c: Comparator)
  {
    && DistinctKeys(list, name)
    && (forall x <- list :: Measures(measured, name(x), c))
    && (forall d <- measured :: d.comparator == c ==> exists x <- list :: name(x) == d.name)
  }

  ghost predicate Measures(measured: seq<Dimension>, n: bytes, c: Comparator)
  {
    exists d <- measured :: d.name == n && d.comparator == c
  }

  /** What a caller has to supply: every measured dimension is well formed and has one disposition,
      the one its comparator asks for; nothing uncontrolled is measured. */
  ghost predicate Acceptable(c: Config)
  {
    && c.version != [] && c.measured != [] && c.required != [] && c.uncontrolled != []
    && DistinctKeys(c.measured, DimensionName)
    && (forall d <- c.measured :: KnownDimension(d))
    && Enumerates(c.required, Itself, c.measured, Exact)
    && Enumerates(c.tolerated, ToleratedName, c.measured, RecordedOnly)
    && Enumerates(c.rejected, RejectedName, c.measured, RejectOnVariance)
    && (forall t <- c.tolerated :: t.tolerance != OtherTolerance)
    && (forall r <- c.rejected :: r.reason != [])
    && DistinctKeys(c.uncontrolled, Itself)
    && (forall u <- c.uncontrolled :: u != [] && forall d <- c.measured :: d.name != u)
  }

  function SortedConfig(c: Config): Config
  {
    Config(c.version, SortBy(c.measured, DimensionName), SortBy(c.required, Itself),
           SortBy(c.tolerated, ToleratedName), SortBy(c.rejected, RejectedName), SortBy(c.uncontrolled, Itself))
  }

  /** The map from names to dimensions built by the first loop. */
  ghost predicate Indexes(index: map<bytes, Dimension>, measured: seq<Dimension>)
  {
    && (forall d <- measured :: d.name in index && index[d.name] == d)
    && (forall n <- index :: index[n] in measured && index[n].name == n)
  }

  method IndexMeasured(measured: seq<Dimension>) returns (ok: bool, index: map<bytes, Dimension>)
    ensures ok <==> DistinctKeys(measured, DimensionName) && forall d <- measured :: KnownDimension(d)
    ensures ok ==> Indexes(index, measured)
  {
    index := map[];
    for i := 0 to |measured|
      invariant Indexes(index, measured[..i]) && DistinctKeys(measured[..i], DimensionName)
      invariant forall d <- measured[..i] :: KnownDimension(d)
    {
      var d := measured[i];
      assert d in measured;
      assert measured[..i + 1] == measured[..i] + [d];
      if d.name == [] {
        return false, index;
      }
      if d.name in index {
        var k :| 0 <= k < i && measured[k] == index[d.name];
        RepeatedKey(measured, DimensionName, k, i);
        return false, index;
      }
      if d.source == OtherSource || d.comparator == OtherComparator {
        return false, index;
      }
      index := index[d.name := d];
    }
    assert measured[..|measured|] == measured;
    return true, index;
  }

  predicate Claimable(index: map<bytes, Dimension>, n: bytes, want: Comparator)
  {
    n != [] && n in index && index[n].comparator == want
  }

  /** One disposition list: every name is measured with the wanted comparator and unclaimed. */
  method ClaimAll(index: map<bytes, Dimension>, claimed: set<bytes>, names: seq<bytes>, want: Comparator)
    returns (ok: bool, claims: set<bytes>)
    ensures ok <==> DistinctKeys(names, Itself) && forall n <- names :: Claimable(index, n, want) && n !in claimed
    ensures ok ==> claims == claimed + set n | n in names
  {
    claims := claimed;
    for i := 0 to |names|
      invariant DistinctKeys(names[..i], Itself) && claims == claimed + set n | n in names[..i]
      invariant forall n <- names[..i] :: Claimable(index, n, want) && n !in claimed
    {
      var n := names[i];
      assert n in names;
      assert names[..i + 1] == names[..i] + [n];
      if n == [] || n !in index {
        return false, claims;
      }
      if n in claims {
        if n !in claimed {
          var k :| 0 <= k < i && names[k] == n;
          RepeatedKey(names, Itself, k, i);
        }
        return false, claims;
      }
      if index[n].comparator != want {
        return false, claims;
      }
      claims := claims + {n};
    }
    assert names[..|names|] == names;
    return true, claims;
  }

  function Names<T>(list: seq<T>, name: T -> bytes): (r: seq<bytes>)
    ensures |r| == |list|
    ensures forall i :: 0 <= i < |r| ==> r[i] == name(list[i])
  {
    seq(|list|, i requires 0 <= i < |list| => name(list[i]))
  }

  /** A list accepted by `ClaimAll` misses no dimension exactly when it enumerates its comparator. */
  lemma ClaimsEnumerate<T>(list: seq<T>, name: T -> bytes, measured: seq<Dimension>, index: map<bytes, Dimension>, c: Comparator)
    requires Indexes(index, measured) && forall d <- measured :: KnownDimension(d)
    ensures Enumerates(list, name, measured, c) <==>
      && DistinctKeys(Names(list, name), Itself)
      && (forall n <- Names(list, name) :: Claimable(index, n, c))
      && (forall d <- measured :: d.comparator == c ==> d.name in Names(list, name))
  {
    var names := Names(list, name);
    forall d <- measured ensures d.name in names <==> exists x <- list :: name(x) == d.name {
      if exists x <- list :: name(x) == d.name {
        var i :| 0 <= i < |list| && name(list[i]) == d.name;
        assert names[i] == d.name;
      }
      if d.name in names {
        var i :| 0 <= i < |names| && names[i] == d.name;
        assert list[i] in list;
      }
    }
    forall n ensures Measures(measured, n, c) <==> Claimable(index, n, c) {
      if Claimable(index, n, c) {
        assert index[n] in measured;
      }
    }
    assert (forall x <- list :: Measures(measured, name(x), c)) <==> (forall n <- names :: Measures(measured, n, c)) by {
      forall x <- list ensures name(x) in names {
        var i :| 0 <= i < |list| && list[i] == x;
        assert names[i] == name(x);
      }
    }
    assert DistinctKeys(list, name) <==> DistinctKeys(names, Itself) by {
      assert forall i :: 0 <= i < |list| ==> Itself(names[i]) == name(list[i]);
    }
  }

  method CheckUncontrolled(index: map<bytes, Dimension>, names: seq<bytes>) returns (ok: bool)
    ensures ok <==> DistinctKeys(names, Itself) && forall n <- names :: n != [] && n !in index
  {
    var seen: set<bytes> := {};
    for i := 0 to |names|
      invariant DistinctKeys(names[..i], Itself) && seen == set n | n in names[..i]
      invariant forall n <- names[..i] :: n != [] && n !in index
    {
      var n := names[i];
      assert n in names;
      assert names[..i + 1] == names[..i] + [n];
      if n == [] || n in index {
        return false;
      }
      if n in seen {
        var k :| 0 <= k < i && names[k] == n;
        RepeatedKey(names, Itself, k, i);
        return false;
      }
      seen := seen + {n};
    }
    assert names[..|names|] == names;
    return true;
  }

  ghost predicate Claims(index: map<bytes, Dimension>, names: seq<bytes>, c: Comparator)
  {
    DistinctKeys(names, Itself) && forall n <- names :: Claimable(index, n, c)
  }

  /** The three disposition loops and the final coverage check. */
  method Dispose(index: map<bytes, Dimension>, required: seq<bytes>, tolerated: seq<bytes>, rejected: seq<bytes>)
    returns (ok: bool)
    ensures ok <==>
      && Claims(index, required, Exact) && Claims(index, tolerated, RecordedOnly)
      && Claims(index, rejected, RejectOnVariance)
      && forall n <- index :: n in required || n in tolerated || n in rejected
  {
    hide DistinctKeys;
    var claimed: set<bytes> := {};
    ok, claimed := ClaimAll(index, claimed, required, Exact);
    if !ok {
      return false;
    }
    ok, claimed := ClaimAll(index, claimed, tolerated, RecordedOnly);
    if !ok {
      return false;
    }
    ok, claimed := ClaimAll(index, claimed, rejected, RejectOnVariance);
    if !ok {
      return false;
    }
    return forall n <- index :: n in claimed;
  }

  /** Known comparators split the measured dimensions, so covering all of them is covering each
      comparator by its own list. */
  lemma CoverageSplits(measured: seq<Dimension>, index: map<bytes, Dimension>,
                       required: seq<bytes>, tolerated: seq<bytes>, rejected: seq<bytes>)
    requires Indexes(index, measured) && forall d <- measured :: KnownDimension(d)
    requires Claims(index, required, Exact) && Claims(index, tolerated, RecordedOnly)
    requires Claims(index, rejected, RejectOnVariance)
    ensures (forall n <- index :: n in required || n in tolerated || n in rejected) <==>
      && (forall d <- measured :: d.comparator == Exact ==> d.name in required)
      && (forall d <- measured :: d.comparator == RecordedOnly ==> d.name in tolerated)
      && (forall d <- measured :: d.comparator == RejectOnVariance ==> d.name in rejected)
  {
    hide DistinctKeys;
  }

  lemma DispositionsEnumerate(c: Config, index: map<bytes, Dimension>)
    requires Indexes(index, c.measured) && forall d <- c.measured :: KnownDimension(d)
    ensures var required, tolerated, rejected :=
              Names(c.required, Itself), Names(c.tolerated, ToleratedName), Names(c.rejected, RejectedName);
            (&& Claims(index, required, Exact) && Claims(index, tolerated, RecordedOnly)
             && Claims(index, rejected, RejectOnVariance)
             && forall n <- index :: n in required || n in tolerated || n in rejected)
            <==>
            (&& Enumerates(c.required, Itself, c.measured, Exact)
             && Enumerates(c.tolerated, ToleratedName, c.measured, RecordedOnly)
             && Enumerates(c.rejected, RejectedName, c.measured, RejectOnVariance))
  {
    var required, tolerated, rejected :=
      Names(c.required, Itself), Names(c.tolerated, ToleratedName), Names(c.rejected, RejectedName);
    ClaimsEnumerate(c.required, Itself, c.measured, index, Exact);
    ClaimsEnumerate(c.tolerated, ToleratedName, c.measured, index, RecordedOnly);
    ClaimsEnumerate(c.rejected, RejectedName, c.measured, index, RejectOnVariance);
    hide Enumerates, Claimable, DistinctKeys, KnownDimension;
    if Claims(index, required, Exact) && Claims(index, tolerated, RecordedOnly) && Claims(index, rejected, RejectOnVariance) {
      CoverageSplits(c.measured, index, required, tolerated, rejected);
    }
  }

  /** The disposition check accepts exactly the envelopes in which each list enumerates, once, the
      dimensions measured with its comparator. */
  method NewComparisonEnvelope(c: Config) returns (result: Result<Config, EnvelopeError>)
    ensures result.Ok? <==> Acceptable(c)
    ensures result.Ok? ==> result.value == SortedConfig(c)
  {
    hide DistinctKeys, SortBy, KnownDimension, Enumerates, Claims, SortedConfig;
    if c.version == [] || c.measured == [] || c.required == [] || c.uncontrolled == [] {
      return Err(InvalidEnvelope);
    }
    var ok, index := IndexMeasured(c.measured);
    if !ok {
      return Err(InvalidEnvelope);
    }
    DispositionsEnumerate(c, index);
    if (exists t <- c.tolerated :: t.tolerance == OtherTolerance) || (exists r <- c.rejected :: r.reason == []) {
      return Err(InvalidEnvelope);
    }
    ok := Dispose(index, Names(c.required, Itself), Names(c.tolerated, ToleratedName), Names(c.rejected, RejectedName));
    if !ok {
      return Err(InvalidEnvelope);
    }
    ok := CheckUncontrolled(index, c.uncontrolled);
    if !ok {
      return Err(InvalidEnvelope);
    }
    return Ok(SortedConfig(c));
  }
}
