/** What a built outcome map holds, batch by batch. */
module MapContents {
  import opened Bytes
  import opened Sorting
  import opened Domain
  import opened Schedule
  import opened Eligibility
  import opened Classification
  import opened OutcomeMap

  /** An excluded candidate keeps the kind of its status. */
  predicate ExcludedAs(status: Status, d: Disposition)
  {
    match d
    case ExcludedUnstable => status.Unstable?
    case ExcludedUncomparable => status.Uncomparable?
    case ExcludedIncomplete => status.Incomplete?
  }

  lemma DispositionIs(b: Batch, d: Disposition)
    requires !b.classification.status.ObservedStable?
    ensures ExclusionOf(b).disposition == d <==> ExcludedAs(b.classification.status, d)
  {
  }

  predicate UsesAttempt(b: Batch, d: Digest)
  {
    exists t <- b.trials :: t.attempt.digest == d
  }

  predicate UsesWorld(b: Batch, d: Digest)
  {
    exists t <- b.trials :: t.world.digest == d
  }

  lemma ListedUses(b: Batch, d: Digest)
    ensures (d in Attempts(b) <==> UsesAttempt(b, d)) && (d in Worlds(b) <==> UsesWorld(b, d))
  {
    if t :| t in b.trials && t.attempt.digest == d {
      var i :| 0 <= i < |b.trials| && b.trials[i] == t;
      assert Attempts(b)[i] == d;
    }
    if t :| t in b.trials && t.world.digest == d {
      var i :| 0 <= i < |b.trials| && b.trials[i] == t;
      assert Worlds(b)[i] == d;
    }
  }

  /** The entries of a built map are exactly the stable batches with their fingerprints, its exclusions
      exactly the others with the kind of their status. */
  lemma ListsExactly(stimulus: Digest, envelope: Digest, roster: seq<Candidate>, batches: seq<Batch>)
    requires SoundBatches(stimulus, envelope, roster, batches) && batches != []
    ensures var m := MapOf(stimulus, envelope, roster, batches);
            && StrictlySorted(m.entries, EntryKey) && StrictlySorted(m.exclusions, ExclusionKey)
            && (forall c, f, b :: Entry(c, f, b) in m.entries <==>
                  b in batches && b.candidate == c && b.classification.status == ObservedStable(f))
            && (forall c, b, d :: Exclusion(c, b, d) in m.exclusions <==>
                  b in batches && b.candidate == c && ExcludedAs(b.classification.status, d))
  {
    hide SoundBatches, SortBy, EntriesOf, ExclusionsOf, Flatten, Less, StrictlySorted;
    SoundDistinct(stimulus, envelope, roster, batches);
    EntriesDistinct(batches);
    EntriesHold(batches);
    SortByPermutation(EntriesOf(batches), EntriesOf(batches), EntryKey);
    SortByPermutation(ExclusionsOf(batches), ExclusionsOf(batches), ExclusionKey);
    SortByCorrect(EntriesOf(batches), EntryKey);
    SortByCorrect(ExclusionsOf(batches), ExclusionKey);
    EntryExactly(batches);
    ExclusionExactly(batches);
  }

  lemma EntryExactly(batches: seq<Batch>)
    ensures forall c, f, b :: Entry(c, f, b) in EntriesOf(batches) <==>
      b in batches && b.candidate == c && b.classification.status == ObservedStable(f)
  {
    hide EntriesOf, ExclusionsOf;
    EntriesHold(batches);
    forall c, f, b
      ensures Entry(c, f, b) in EntriesOf(batches) <==>
        b in batches && b.candidate == c && b.classification.status == ObservedStable(f)
    {
      if b in batches && b.candidate == c && b.classification.status == ObservedStable(f) {
        assert EntryOf(b) == Entry(c, f, b);
      }
    }
  }

  lemma ExclusionExactly(batches: seq<Batch>)
    ensures forall c, b, d :: Exclusion(c, b, d) in ExclusionsOf(batches) <==>
      b in batches && b.candidate == c && ExcludedAs(b.classification.status, d)
  {
    hide EntriesOf, ExclusionsOf;
    EntriesHold(batches);
    forall c, b, d
      ensures Exclusion(c, b, d) in ExclusionsOf(batches) <==>
        b in batches && b.candidate == c && ExcludedAs(b.classification.status, d)
    {
      if !b.classification.status.ObservedStable? {
        DispositionIs(b, d);
      }
    }
  }

  /** Its evidence lists hold exactly what the trials of the batches used, each once and sorted, and its
      policy fields are those of every batch. */
  lemma EvidenceExactly(stimulus: Digest, envelope: Digest, roster: seq<Candidate>, batches: seq<Batch>)
    requires SoundBatches(stimulus, envelope, roster, batches) && batches != []
    ensures var m := MapOf(stimulus, envelope, roster, batches);
            && StrictlySorted(m.attempts, Itself) && StrictlySorted(m.worlds, Itself) && StrictlySorted(m.observations, Itself)
            && (forall d :: d in m.attempts <==> exists b <- batches :: UsesAttempt(b, d))
            && (forall d :: d in m.worlds <==> exists b <- batches :: UsesWorld(b, d))
            && (forall d :: d in m.observations <==> exists b <- batches :: d in b.observations)
  {
    hide SoundBatches, SortBy, EntriesOf, ExclusionsOf, Flatten, Less, StrictlySorted, UsesAttempt, UsesWorld;
    SoundFlattens(stimulus, envelope, roster, batches);
    SortedEvidence(batches, Attempts);
    SortedEvidence(batches, Worlds);
    SortedEvidence(batches, Observed);
    forall b, d ensures (d in Attempts(b) <==> UsesAttempt(b, d)) && (d in Worlds(b) <==> UsesWorld(b, d)) {
      ListedUses(b, d);
    }
    assert forall b :: Observed(b) == b.observations;
  }

  lemma SortedEvidence(batches: seq<Batch>, f: Batch -> seq<Digest>)
    requires DistinctKeys(Flatten(batches, f), Itself)
    ensures StrictlySorted(SortBy(Flatten(batches, f), Itself), Itself)
    ensures forall d :: d in SortBy(Flatten(batches, f), Itself) <==> exists b <- batches :: d in f(b)
  {
    hide SortBy, Flatten, StrictlySorted;
    SortByPermutation(Flatten(batches, f), Flatten(batches, f), Itself);
    SortByCorrect(Flatten(batches, f), Itself);
    forall d ensures d in Flatten(batches, f) <==> exists b <- batches :: d in f(b) {
      FlattenHolds(batches, f, d);
    }
  }

  /** The policy of the map is that of every batch. */
  lemma PolicyExactly(stimulus: Digest, envelope: Digest, roster: seq<Candidate>, batches: seq<Batch>, b: Batch)
    requires SoundBatches(stimulus, envelope, roster, batches) && b in batches
    ensures var m := MapOf(stimulus, envelope, roster, batches);
            && m.plan == b.binding.plan && m.stimulus == b.binding.stimulus && m.envelope == b.envelope && m.roster == b.roster
            && m.capturePolicy == b.capturePolicy && m.definition == b.definition && m.admissions == b.admissions
            && m.basis == b.basis && m.phase == b.binding.purpose && m.schedule == b.schedule
  {
    hide SortBy, EntriesOf, ExclusionsOf, Flatten, CleanBatch, ApartBatches, ValidCandidate, ValidDigest, DistinctAdmissions;
    FirstAgrees(stimulus, envelope, roster, batches, b);
    assert BoundBatch(stimulus, envelope, roster, b);
  }

  // ---------------------------------------------------------- comparable built maps

  /** Every candidate is of the same kind in both: stable, or excluded with the same disposition. */
  predicate SameKinds(batches: seq<Batch>, other: seq<Batch>)
  {
    forall a <- batches, b <- other | a.candidate == b.candidate ::
      KindOf(a.classification.status) == KindOf(b.classification.status)
  }

  function KindOf(status: Status): Option<Disposition>
  {
    match status
    case ObservedStable(_) => None
    case Unstable(_) => Some(ExcludedUnstable)
    case Uncomparable(_) => Some(ExcludedUncomparable)
    case Incomplete => Some(ExcludedIncomplete)
  }

  function EntryNames(entries: seq<Entry>): (r: seq<bytes>)
    ensures |r| == |entries| && forall i :: 0 <= i < |r| ==> r[i] == entries[i].candidate
  {
    seq(|entries|, i requires 0 <= i < |entries| => entries[i].candidate)
  }

  lemma NamesSorted(entries: seq<Entry>, c: Candidate)
    requires StrictlySorted(entries, EntryKey)
    ensures StrictlySorted(EntryNames(entries), Itself)
    ensures c in EntryNames(entries) <==> exists e <- entries :: e.candidate == c
  {
    hide Less;
    var names := EntryNames(entries);
    assert forall i :: 0 <= i < |names| ==> Itself(names[i]) == EntryKey(entries[i]);
    if e :| e in entries && e.candidate == c {
      var i :| 0 <= i < |entries| && entries[i] == e;
      assert names[i] == c;
    }
  }

  /** A candidate of a built map is an entry exactly when its batch is stable. */
  lemma EntryNamesExactly(stimulus: Digest, envelope: Digest, roster: seq<Candidate>, batches: seq<Batch>, c: Candidate)
    requires SoundBatches(stimulus, envelope, roster, batches) && batches != []
    ensures var names := EntryNames(MapOf(stimulus, envelope, roster, batches).entries);
            StrictlySorted(names, Itself) && (c in names <==> exists b <- batches :: b.candidate == c && KindOf(b.classification.status).None?)
  {
    hide SoundBatches, MapOf, Less, StrictlySorted;
    ListsExactly(stimulus, envelope, roster, batches);
    var entries := MapOf(stimulus, envelope, roster, batches).entries;
    NamesSorted(entries, c);
    if e :| e in entries && e.candidate == c {
      assert Entry(e.candidate, e.fingerprint, e.batch) in entries;
    }
    if b :| b in batches && b.candidate == c && KindOf(b.classification.status).None? {
      assert Entry(c, b.classification.status.fingerprint, b) in entries;
    }
  }

  /** The same marks are the same exclusions, without regard to the batches behind them. */
  lemma MarkExactly(stimulus: Digest, envelope: Digest, roster: seq<Candidate>, batches: seq<Batch>, m: Mark)
    requires SoundBatches(stimulus, envelope, roster, batches) && batches != []
    ensures var marks := Marks(MapOf(stimulus, envelope, roster, batches).exclusions);
            && StrictlySorted(marks, MarkKey)
            && (m in marks <==> exists b <- batches :: b.candidate == m.candidate && KindOf(b.classification.status) == Some(m.disposition))
  {
    hide SoundBatches, MapOf, Less, StrictlySorted, Marks;
    BuiltListsSorted(stimulus, envelope, roster, batches);
    BuiltListsHold(stimulus, envelope, roster, batches);
    forall b ensures Marked(b, m) <==> b.candidate == m.candidate && KindOf(b.classification.status) == Some(m.disposition) {
    }
  }

  lemma ComparableByLists(a: CandidateOutcomeMap, b: CandidateOutcomeMap)
    ensures Comparable(a, b) <==>
      && a.plan == b.plan && a.envelope == b.envelope && a.basis == b.basis && a.roster == b.roster
      && EntryNames(a.entries) == EntryNames(b.entries) && Marks(a.exclusions) == Marks(b.exclusions)
  {
    var names, others := EntryNames(a.entries), EntryNames(b.entries);
    var marks, rest := Marks(a.exclusions), Marks(b.exclusions);
    if names == others && marks == rest {
      assert forall i :: 0 <= i < |names| ==> names[i] == others[i];
      assert forall i :: 0 <= i < |marks| ==> marks[i] == rest[i];
    }
  }

  /** Two built maps are comparable exactly when plan, envelope, basis and roster agree and every candidate is
      of the same kind in both; otherwise their preservation stays UNRESOLVED. */
  lemma BuiltComparableExactly(stimulus: Digest, envelope: Digest, roster: seq<Candidate>, batches: seq<Batch>,
                               stimulus2: Digest, envelope2: Digest, roster2: seq<Candidate>, other: seq<Batch>)
    requires SoundBatches(stimulus, envelope, roster, batches) && NoRepeats(roster) && batches != []
    requires SoundBatches(stimulus2, envelope2, roster2, other) && NoRepeats(roster2) && other != []
    ensures var a, b := MapOf(stimulus, envelope, roster, batches), MapOf(stimulus2, envelope2, roster2, other);
            && (Comparable(a, b) <==>
                  && envelope == envelope2 && roster == roster2 && batches[0].binding.plan == other[0].binding.plan
                  && batches[0].basis == other[0].basis && SameKinds(batches, other))
            && (Assess(a, b) == Unresolved <==> !Comparable(a, b))
  {
    hide SoundBatches, MapOf, SameKinds, Comparable, EntryNames, Marks;
    var a, b := MapOf(stimulus, envelope, roster, batches), MapOf(stimulus2, envelope2, roster2, other);
    MapFields(stimulus, envelope, roster, batches);
    MapFields(stimulus2, envelope2, roster2, other);
    ComparableByLists(a, b);
    if roster == roster2 {
      SoundDistinct(stimulus, envelope, roster, batches);
      SoundDistinct(stimulus2, envelope2, roster2, other);
      BatchesCoverRoster(stimulus, envelope, roster, batches);
      BatchesCoverRoster(stimulus2, envelope2, roster2, other);
      KindsByLists(stimulus, envelope, roster, batches, stimulus2, envelope2, other);
    }
  }

  lemma KindsByLists(stimulus: Digest, envelope: Digest, roster: seq<Candidate>, batches: seq<Batch>,
                     stimulus2: Digest, envelope2: Digest, other: seq<Batch>)
    requires SoundBatches(stimulus, envelope, roster, batches) && batches != []
    requires SoundBatches(stimulus2, envelope2, roster, other) && other != []
    requires DistinctKeys(batches, BatchCandidate) && DistinctKeys(other, BatchCandidate)
    requires CandidateSet(batches) == CandidateSet(other)
    ensures var a, b := MapOf(stimulus, envelope, roster, batches), MapOf(stimulus2, envelope2, roster, other);
            SameKinds(batches, other) <==> EntryNames(a.entries) == EntryNames(b.entries) && Marks(a.exclusions) == Marks(b.exclusions)
  {
    hide SoundBatches, MapOf, EntryNames, Marks, KindOf, Less, StrictlySorted, DistinctKeys, CandidateSet;
    var a, b := MapOf(stimulus, envelope, roster, batches), MapOf(stimulus2, envelope2, roster, other);
    var names, others, marks, rest := EntryNames(a.entries), EntryNames(b.entries), Marks(a.exclusions), Marks(b.exclusions);
    forall c
      ensures c in names <==> exists x <- batches :: x.candidate == c && KindOf(x.classification.status).None?
      ensures c in others <==> exists x <- other :: x.candidate == c && KindOf(x.classification.status).None?
    {
      EntryNamesExactly(stimulus, envelope, roster, batches, c);
      EntryNamesExactly(stimulus2, envelope2, roster, other, c);
    }
    forall m
      ensures m in marks <==> exists x <- batches :: x.candidate == m.candidate && KindOf(x.classification.status) == Some(m.disposition)
      ensures m in rest <==> exists x <- other :: x.candidate == m.candidate && KindOf(x.classification.status) == Some(m.disposition)
    {
      MarkExactly(stimulus, envelope, roster, batches, m);
      MarkExactly(stimulus2, envelope2, roster, other, m);
    }
    EntryNamesExactly(stimulus, envelope, roster, batches, []);
    EntryNamesExactly(stimulus2, envelope2, roster, other, []);
    MarkExactly(stimulus, envelope, roster, batches, Mark([], ExcludedIncomplete));
    MarkExactly(stimulus2, envelope2, roster, other, Mark([], ExcludedIncomplete));
    if SameKinds(batches, other) {
      KindsIncluded(batches, other, names, others, marks, rest);
      KindsIncluded(other, batches, others, names, rest, marks);
      StrictlySortedUnique(names, others, Itself);
      StrictlySortedUnique(marks, rest, MarkKey);
    } else if names == others && marks == rest {
      forall x <- batches, y <- other | x.candidate == y.candidate ensures KindOf(x.classification.status) == KindOf(y.classification.status) {
        KindFromLists(other, others, rest, x, y);
      }
    }
  }

  ghost predicate Named(batches: seq<Batch>, names: seq<bytes>, marks: seq<Mark>)
  {
    && (forall c :: c in names <==> exists x <- batches :: x.candidate == c && KindOf(x.classification.status).None?)
    && forall m :: m in marks <==>
         exists x <- batches :: x.candidate == m.candidate && KindOf(x.classification.status) == Some(m.disposition)
  }

  lemma KindsIncluded(batches: seq<Batch>, other: seq<Batch>, names: seq<bytes>, others: seq<bytes>, marks: seq<Mark>, rest: seq<Mark>)
    requires SameKinds(batches, other) || SameKinds(other, batches)
    requires CandidateSet(batches) == CandidateSet(other) && Named(batches, names, marks) && Named(other, others, rest)
    ensures (forall c <- names :: c in others) && forall m <- marks :: m in rest
  {
    hide KindOf;
    forall x <- batches ensures exists y <- other :: y.candidate == x.candidate && KindOf(y.classification.status) == KindOf(x.classification.status) {
      assert x.candidate in CandidateSet(batches);
      var y :| y in other && y.candidate == x.candidate;
    }
  }

  lemma KindFromLists(other: seq<Batch>, names: seq<bytes>, marks: seq<Mark>, x: Batch, y: Batch)
    requires DistinctKeys(other, BatchCandidate) && y in other && x.candidate == y.candidate && Named(other, names, marks)
    requires KindOf(x.classification.status).None? ==> x.candidate in names
    requires KindOf(x.classification.status).Some? ==> Mark(x.candidate, KindOf(x.classification.status).value) in marks
    ensures KindOf(x.classification.status) == KindOf(y.classification.status)
  {
    hide KindOf, DistinctKeys;
    var kind := KindOf(x.classification.status);
    if kind.None? {
      var z :| z in other && z.candidate == x.candidate && KindOf(z.classification.status).None?;
      OneBatchEach(other, z, y);
    } else {
      var m := Mark(x.candidate, kind.value);
      var z :| z in other && z.candidate == m.candidate && KindOf(z.classification.status) == Some(m.disposition);
      OneBatchEach(other, z, y);
    }
  }
}
