/** A listing, said of the tree objects alone: which roots have one, and what it holds. */
module GitPaths {
  import opened Bytes
  import opened Sorting
  import opened GitTree
  import opened GitFlatten
  import opened GitClashes

  /** The tree object is there and well formed. */
  predicate Readable(store: Store, width: nat, tree: bytes)
  {
    store(tree).Some? && ParseTree(store(tree).value, width).Some?
  }

  predicate Holds(store: Store, width: nat, tree: bytes, e: RawEntry)
  {
    Readable(store, width, tree) && e in ParseTree(store(tree).value, width).value
  }

  /** From the tree through directory entries: each entry stands in the tree of the one before it. */
  predicate Walk(store: Store, width: nat, tree: bytes, walk: seq<RawEntry>)
    decreases |walk|
  {
    && walk != [] && Holds(store, width, tree, walk[0])
    && (|walk| > 1 ==> IsTree(walk[0]) && Walk(store, width, walk[0].oid, walk[1..]))
  }

  function Last(walk: seq<RawEntry>): RawEntry
    requires walk != []
  {
    walk[|walk| - 1]
  }

  /** The names, joined by slashes. */
  function WalkPath(walk: seq<RawEntry>): bytes
    requires walk != []
  {
    if |walk| == 1 then walk[0].name else walk[0].name + [SLASH] + WalkPath(walk[1..])
  }

  /** The record of a walk to a blob. */
  function RecordOf(prefix: bytes, walk: seq<RawEntry>): EntryRecord
    requires walk != []
  {
    EntryRecord(Join(prefix, WalkPath(walk)), Last(walk).mode, Last(walk).oid)
  }

  ghost predicate BlobWalk(store: Store, width: nat, tree: bytes, prefix: bytes, walk: seq<RawEntry>, r: EntryRecord)
  {
    Walk(store, width, tree, walk) && !IsTree(Last(walk)) && r == RecordOf(prefix, walk)
  }

  /** Every step is allowed: a safe path, and a readable tree not too deep or a blob of a supported mode. */
  predicate StepAllowed(store: Store, width: nat, prefix: bytes, depth: nat, walk: seq<RawEntry>)
    requires walk != []
  {
    && SafePath(Join(prefix, WalkPath(walk)))
    && if IsTree(Last(walk)) then depth + |walk| <= MAX_TREE_DEPTH && Readable(store, width, Last(walk).oid)
       else Last(walk).mode == FILE_MODE || Last(walk).mode == EXECUTABLE_MODE
  }

  ghost predicate AllStepsAllowed(store: Store, width: nat, tree: bytes, prefix: bytes, depth: nat)
  {
    forall walk :: Walk(store, width, tree, walk) ==> StepAllowed(store, width, prefix, depth, walk)
  }

  lemma JoinTwice(prefix: bytes, name: bytes, rest: bytes)
    requires name != []
    ensures Join(Join(prefix, name), rest) == Join(prefix, name + [SLASH] + rest)
  {
    if prefix != [] {
      ConcatAssoc(prefix + [SLASH], name, [SLASH]);
      ConcatAssoc(prefix + [SLASH], name + [SLASH], rest);
    }
  }

  /** A longer walk is a walk from the first directory, under its path. */
  lemma WalkBelow(store: Store, width: nat, prefix: bytes, depth: nat, e: RawEntry, rest: seq<RawEntry>)
    requires e.name != [] && rest != []
    ensures ([e] + rest)[1..] == rest && Last([e] + rest) == Last(rest)
    ensures Join(prefix, WalkPath([e] + rest)) == Join(Join(prefix, e.name), WalkPath(rest))
    ensures StepAllowed(store, width, prefix, depth, [e] + rest) <==> StepAllowed(store, width, Join(prefix, e.name), depth + 1, rest)
  {
    hide SafePath, Join;
    var walk := [e] + rest;
    assert walk[1..] == rest;
    assert WalkPath(walk) == e.name + [SLASH] + WalkPath(rest);
    JoinTwice(prefix, e.name, WalkPath(rest));
  }

  lemma {:induction false} EntriesListedExactly(store: Store, width: nat, entries: seq<RawEntry>, prefix: bytes, depth: nat)
    requires depth <= MAX_TREE_DEPTH
    ensures ListEntries(store, width, entries, prefix, depth).Some? <==>
      forall e <- entries :: ListEntry(store, width, e, prefix, depth).Some?
    decreases |entries|
  {
    hide ListEntry;
    if entries != [] {
      var last := |entries| - 1;
      EntriesListedExactly(store, width, entries[..last], prefix, depth);
      assert forall e :: e in entries <==> e in entries[..last] || e == entries[last];
      assert entries[last] in entries && ListEntries(store, width, entries, prefix, depth)
             == Both(ListEntries(store, width, entries[..last], prefix, depth), ListEntry(store, width, entries[last], prefix, depth));
    }
  }

  /** The walks through one entry of a tree. */
  ghost predicate AllowedFrom(store: Store, width: nat, tree: bytes, prefix: bytes, depth: nat, e: RawEntry)
  {
    forall walk :: Walk(store, width, tree, walk) && walk[0] == e ==> StepAllowed(store, width, prefix, depth, walk)
  }

  lemma NamesNotEmpty(store: Store, width: nat, tree: bytes)
    requires Readable(store, width, tree)
    ensures forall e <- ParseTree(store(tree).value, width).value :: e.name != []
  {
    hide ParseTree;
    ParseThenSerialize(store(tree).value, width);
    var entries := ParseTree(store(tree).value, width).value;
    assert forall e <- entries :: WellFormedEntry(e, width);
  }

  /** One entry has a listing exactly when every walk through it is allowed. */
  lemma {:induction false} EntryListableExactly(store: Store, width: nat, tree: bytes, e: RawEntry, prefix: bytes, depth: nat)
    requires depth <= MAX_TREE_DEPTH && Holds(store, width, tree, e) && e.name != []
    ensures ListEntry(store, width, e, prefix, depth).Some? <==> AllowedFrom(store, width, tree, prefix, depth, e)
    decreases MAX_TREE_DEPTH + 1 - depth, 0
  {
    hide Listing, SafePath, ParseTree, Join;
    var full := Join(prefix, e.name);
    assert WalkPath([e]) == e.name && Walk(store, width, tree, [e]);
    assert StepAllowed(store, width, prefix, depth, [e]) ==> SafePath(full) && |full| <= MAX_PATH_BYTES by { SafeIsShort(full); }
    if IsTree(e) {
      ListableExactlyBelow(store, width, e.oid, full, depth + 1);
      if AllowedFrom(store, width, tree, prefix, depth, e) {
        forall rest | Walk(store, width, e.oid, rest) ensures StepAllowed(store, width, full, depth + 1, rest) {
          WalkBelow(store, width, prefix, depth, e, rest);
          assert Walk(store, width, tree, [e] + rest);
        }
      }
      if ListEntry(store, width, e, prefix, depth).Some? {
        forall walk | Walk(store, width, tree, walk) && walk[0] == e ensures StepAllowed(store, width, prefix, depth, walk) {
          if |walk| == 1 {
            assert walk == [e];
          } else {
            assert walk == [e] + walk[1..];
            WalkBelow(store, width, prefix, depth, e, walk[1..]);
          }
        }
      }
    } else {
      forall walk | Walk(store, width, tree, walk) && walk[0] == e ensures walk == [e] {
      }
    }
  }

  lemma SafeIsShort(path: bytes)
    ensures SafePath(path) ==> |path| <= MAX_PATH_BYTES
  {
  }

  lemma {:induction false} ListableExactlyBelow(store: Store, width: nat, tree: bytes, prefix: bytes, depth: nat)
    requires depth <= MAX_TREE_DEPTH + 1
    ensures Listing(store, width, tree, prefix, depth).Some? <==>
      depth <= MAX_TREE_DEPTH && Readable(store, width, tree) && AllStepsAllowed(store, width, tree, prefix, depth)
    decreases MAX_TREE_DEPTH + 1 - depth, 1
  {
    hide ParseTree, ListEntries, ListEntry, StepAllowed, Walk;
    if depth <= MAX_TREE_DEPTH && Readable(store, width, tree) {
      var entries := ParseTree(store(tree).value, width).value;
      NamesNotEmpty(store, width, tree);
      EntriesListedExactly(store, width, entries, prefix, depth);
      forall e <- entries
        ensures ListEntry(store, width, e, prefix, depth).Some? <==> AllowedFrom(store, width, tree, prefix, depth, e)
      {
        EntryListableExactly(store, width, tree, e, prefix, depth);
      }
      forall walk | Walk(store, width, tree, walk) ensures walk != [] && walk[0] in entries {
        WalkStarts(store, width, tree, walk);
      }
    }
  }

  lemma WalkStarts(store: Store, width: nat, tree: bytes, walk: seq<RawEntry>)
    requires Walk(store, width, tree, walk)
    ensures walk != [] && Holds(store, width, tree, walk[0])
  {
  }

  /** A root has a listing exactly when it is readable and every walk from it, to whatever entry, has a safe
      path and ends in a readable tree within the depth, or in a blob of one of the two supported modes. */
  lemma ListableExactly(store: Store, width: nat, root: bytes)
    ensures Listing(store, width, root, [], 0).Some? <==>
      Readable(store, width, root) && AllStepsAllowed(store, width, root, [], 0)
  {
    hide Listing;
    ListableExactlyBelow(store, width, root, [], 0);
  }

  // ---------------------------------------------------------------- what is listed

  ghost predicate ReachedBy(store: Store, width: nat, tree: bytes, prefix: bytes, r: EntryRecord)
  {
    exists walk :: BlobWalk(store, width, tree, prefix, walk, r)
  }

  ghost predicate BlobWalkFrom(store: Store, width: nat, tree: bytes, prefix: bytes, walk: seq<RawEntry>, r: EntryRecord, e: RawEntry)
  {
    BlobWalk(store, width, tree, prefix, walk, r) && walk[0] == e
  }

  lemma {:induction false} EntryRecordsExactly(store: Store, width: nat, tree: bytes, e: RawEntry, prefix: bytes, depth: nat, r: EntryRecord)
    requires depth <= MAX_TREE_DEPTH && Holds(store, width, tree, e) && e.name != []
    requires ListEntry(store, width, e, prefix, depth).Some?
    ensures r in ListEntry(store, width, e, prefix, depth).value <==>
      exists walk :: BlobWalkFrom(store, width, tree, prefix, walk, r, e)
    decreases MAX_TREE_DEPTH + 1 - depth, 0
  {
    hide Listing, SafePath, ParseTree, Join;
    var full := Join(prefix, e.name);
    if IsTree(e) {
      RecordsExactlyBelow(store, width, e.oid, full, depth + 1, r);
      if rest :| BlobWalk(store, width, e.oid, full, rest, r) {
        WalkBelow(store, width, prefix, depth, e, rest);
        assert BlobWalkFrom(store, width, tree, prefix, [e] + rest, r, e);
      }
      if walk :| BlobWalkFrom(store, width, tree, prefix, walk, r, e) {
        assert walk == [e] + walk[1..];
        WalkBelow(store, width, prefix, depth, e, walk[1..]);
        assert BlobWalk(store, width, e.oid, full, walk[1..], r);
      }
    } else {
      assert WalkPath([e]) == e.name;
      if r == EntryRecord(full, e.mode, e.oid) {
        assert BlobWalkFrom(store, width, tree, prefix, [e], r, e);
      }
      forall walk | Walk(store, width, tree, walk) && walk[0] == e ensures walk == [e] {
      }
    }
  }

  lemma {:induction false} RecordsExactlyBelow(store: Store, width: nat, tree: bytes, prefix: bytes, depth: nat, r: EntryRecord)
    requires depth <= MAX_TREE_DEPTH + 1 && Listing(store, width, tree, prefix, depth).Some?
    ensures r in Listing(store, width, tree, prefix, depth).value <==> ReachedBy(store, width, tree, prefix, r)
    decreases MAX_TREE_DEPTH + 1 - depth, 1
  {
    hide ParseTree, ListEntries, ListEntry, BlobWalk, BlobWalkFrom;
    var entries := ParseTree(store(tree).value, width).value;
    NamesNotEmpty(store, width, tree);
    EntriesListedExactly(store, width, entries, prefix, depth);
    forall e <- entries
      ensures r in ListEntry(store, width, e, prefix, depth).value <==>
        exists walk :: BlobWalkFrom(store, width, tree, prefix, walk, r, e)
    {
      EntryRecordsExactly(store, width, tree, e, prefix, depth, r);
    }
    if r in Listing(store, width, tree, prefix, depth).value {
      var i := RecordOfEntry(store, width, entries, prefix, depth, r);
      assert entries[i] in entries;
      var walk :| BlobWalkFrom(store, width, tree, prefix, walk, r, entries[i]);
      assert BlobWalk(store, width, tree, prefix, walk, r) by { FromIsBlobWalk(store, width, tree, prefix, walk, r, entries[i]); }
    }
    if walk :| BlobWalk(store, width, tree, prefix, walk, r) {
      BlobWalkStarts(store, width, tree, prefix, walk, r);
      var i: nat :| i < |entries| && entries[i] == walk[0];
      EntryInListing(store, width, entries, prefix, depth, i);
    }
  }

  lemma FromIsBlobWalk(store: Store, width: nat, tree: bytes, prefix: bytes, walk: seq<RawEntry>, r: EntryRecord, e: RawEntry)
    requires BlobWalkFrom(store, width, tree, prefix, walk, r, e)
    ensures BlobWalk(store, width, tree, prefix, walk, r)
  {
  }

  lemma BlobWalkStarts(store: Store, width: nat, tree: bytes, prefix: bytes, walk: seq<RawEntry>, r: EntryRecord)
    requires BlobWalk(store, width, tree, prefix, walk, r)
    ensures walk != [] && Holds(store, width, tree, walk[0]) && BlobWalkFrom(store, width, tree, prefix, walk, r, walk[0])
  {
  }

  /** A record is listed exactly when directory entries lead from the root to a blob entry with its mode and
      its object identifier, and its path is their names joined by slashes. */
  lemma ListedExactly(store: Store, width: nat, root: bytes, r: EntryRecord)
    requires Listing(store, width, root, [], 0).Some?
    ensures r in Listing(store, width, root, [], 0).value <==>
      exists walk :: Walk(store, width, root, walk) && !IsTree(Last(walk)) && r.path == WalkPath(walk)
        && r.mode == Last(walk).mode && r.oid == Last(walk).oid
    ensures r in Listing(store, width, root, [], 0).value ==> r.mode == FILE_MODE || r.mode == EXECUTABLE_MODE
  {
    hide Listing, Walk, WalkPath;
    RecordsExactlyBelow(store, width, root, [], 0, r);
    ListableExactly(store, width, root);
    forall walk | Walk(store, width, root, walk)
      ensures walk != [] && (BlobWalk(store, width, root, [], walk, r) <==>
        !IsTree(Last(walk)) && r.path == WalkPath(walk) && r.mode == Last(walk).mode && r.oid == Last(walk).oid)
    {
      WalkStarts(store, width, root, walk);
    }
  }
}
