/** Which trees the neighbour check misjudges, read off the tree objects themselves. */
module GitClashes {
  import opened Bytes
  import opened Sorting
  import opened GitTree
  import opened GitFlatten

  // ---------------------------------------------------- files and directories of one name

  /** The entries at `p` and `q` of the tree are a file and a directory of one name. */
  ghost predicate ClashAt(store: Store, width: nat, tree: bytes, p: int, q: int)
  {
    && store(tree).Some? && ParseTree(store(tree).value, width).Some?
    && var entries := ParseTree(store(tree).value, width).value;
       && 0 <= p < |entries| && 0 <= q < |entries|
       && !IsTree(entries[p]) && IsTree(entries[q]) && entries[p].name == entries[q].name
  }

  /** The tree lists one name both as a file and as a directory. */
  ghost predicate ListsTwice(store: Store, width: nat, tree: bytes)
  {
    exists p, q :: ClashAt(store, width, tree, p, q)
  }

  ghost predicate NextTo(store: Store, width: nat, tree: bytes, p: int, q: int)
  {
    ClashAt(store, width, tree, p, q) && q == p + 1
  }

  /** The tree does so in two neighbouring entries. */
  ghost predicate ListsSideBySide(store: Store, width: nat, tree: bytes)
  {
    exists p, q :: NextTo(store, width, tree, p, q)
  }

  // ------------------------------------------------------- where a record comes from

  /** The record lies strictly between the two. */
  predicate Amid(x: EntryRecord, r: EntryRecord, y: EntryRecord)
  {
    Less(x.path, r.path) && Less(r.path, y.path)
  }

  predicate Adjacent(records: seq<EntryRecord>, x: EntryRecord, y: EntryRecord)
  {
    forall r <- records :: !Amid(x, r, y)
  }

  /** A part of a listing that has everything between any two of its records. */
  ghost predicate Convex(part: seq<EntryRecord>, all: seq<EntryRecord>)
  {
    && (forall r <- part :: r in all)
    && forall x <- part, y <- part, r <- all :: Amid(x, r, y) ==> r in part
  }

  lemma {:induction false} RecordOfEntry(store: Store, width: nat, entries: seq<RawEntry>, prefix: bytes, depth: nat, r: EntryRecord)
    returns (i: nat)
    requires depth <= MAX_TREE_DEPTH && ListEntries(store, width, entries, prefix, depth).Some?
    requires r in ListEntries(store, width, entries, prefix, depth).value
    ensures i < |entries| && ListEntry(store, width, entries[i], prefix, depth).Some?
    ensures r in ListEntry(store, width, entries[i], prefix, depth).value
    decreases |entries|
  {
    hide ListEntry;
    i := |entries| - 1;
    if r !in ListEntry(store, width, entries[i], prefix, depth).value {
      i := RecordOfEntry(store, width, entries[..i], prefix, depth, r);
    }
  }

  lemma {:induction false} EntryInListing(store: Store, width: nat, entries: seq<RawEntry>, prefix: bytes, depth: nat, i: nat)
    requires depth <= MAX_TREE_DEPTH && ListEntries(store, width, entries, prefix, depth).Some? && i < |entries|
    ensures ListEntry(store, width, entries[i], prefix, depth).Some?
    ensures forall r <- ListEntry(store, width, entries[i], prefix, depth).value :: r in ListEntries(store, width, entries, prefix, depth).value
    decreases |entries|
  {
    hide ListEntry;
    var last := |entries| - 1;
    if i < last {
      EntryInListing(store, width, entries[..last], prefix, depth, i);
    }
  }

  lemma {:induction false} EntryNotEmpty(store: Store, width: nat, e: RawEntry, prefix: bytes, depth: nat)
    requires depth <= MAX_TREE_DEPTH && ListEntry(store, width, e, prefix, depth).Some?
    ensures ListEntry(store, width, e, prefix, depth).value != []
    decreases MAX_TREE_DEPTH + 1 - depth, 0
  {
    hide Listing, SafePath;
    if IsTree(e) {
      ListingNotEmpty(store, width, e.oid, Join(prefix, e.name), depth + 1);
    }
  }

  /** There is no empty tree object, so every listing has a record. */
  lemma {:induction false} ListingNotEmpty(store: Store, width: nat, oid: bytes, prefix: bytes, depth: nat)
    requires depth <= MAX_TREE_DEPTH + 1 && Listing(store, width, oid, prefix, depth).Some?
    ensures Listing(store, width, oid, prefix, depth).value != []
    decreases MAX_TREE_DEPTH + 1 - depth, 1
  {
    hide ParseTree, ListEntries;
    var raw := store(oid).value;
    ParsedNotEmpty(raw, width);
    ParseThenSerialize(raw, width);
    var entries := ParseTree(raw, width).value;
    assert entries != [] by { EmptySerializes(); }
    EntryInListing(store, width, entries, prefix, depth, 0);
    EntryNotEmpty(store, width, entries[0], prefix, depth);
    assert ListEntry(store, width, entries[0], prefix, depth).value[0] in ListEntry(store, width, entries[0], prefix, depth).value;
  }

  lemma EmptySerializes()
    ensures Serialize([]) == []
  {
  }

  // ------------------------------------------------------------ one tree object

  /** A tree that is read, with its entries and its records. */
  ghost predicate Level(store: Store, width: nat, tree: bytes, prefix: bytes, depth: nat, entries: seq<RawEntry>, records: seq<EntryRecord>)
  {
    && depth <= MAX_TREE_DEPTH && store(tree).Some? && ParseTree(store(tree).value, width) == Some(entries)
    && ListEntries(store, width, entries, prefix, depth) == Some(records)
    && StrictlySorted(entries, SortKey) && forall e <- entries :: SLASH !in e.name
  }

  lemma ListedLevel(store: Store, width: nat, tree: bytes, prefix: bytes, depth: nat) returns (entries: seq<RawEntry>, records: seq<EntryRecord>)
    requires depth <= MAX_TREE_DEPTH + 1 && Listing(store, width, tree, prefix, depth).Some?
    ensures Level(store, width, tree, prefix, depth, entries, records)
    ensures records == Listing(store, width, tree, prefix, depth).value
  {
    hide ParseTree, ListEntries, SortKey;
    entries := ParseTree(store(tree).value, width).value;
    records := ListEntries(store, width, entries, prefix, depth).value;
    ParseThenSerialize(store(tree).value, width);
    assert forall e <- entries :: WellFormedEntry(e, width);
  }

  /** The records of an entry precede those of a later one. */
  lemma EarlierEntry(store: Store, width: nat, entries: seq<RawEntry>, prefix: bytes, depth: nat, i: nat, j: nat, x: EntryRecord, y: EntryRecord)
    requires depth <= MAX_TREE_DEPTH && i < j < |entries|
    requires StrictlySorted(entries, SortKey) && forall e <- entries :: SLASH !in e.name
    requires ListEntry(store, width, entries[i], prefix, depth).Some? && x in ListEntry(store, width, entries[i], prefix, depth).value
    requires ListEntry(store, width, entries[j], prefix, depth).Some? && y in ListEntry(store, width, entries[j], prefix, depth).value
    ensures Less(x.path, y.path)
  {
    hide ListEntry, Keyed, SortKey, Less;
    EntryIncreases(store, width, entries[i], prefix, depth);
    EntryIncreases(store, width, entries[j], prefix, depth);
    assert Less(SortKey(entries[i]), SortKey(entries[j]));
    KeyedOrder(prefix, x.path, entries[i], y.path, entries[j]);
  }

  /** So the records of one entry are a convex part of the tree's. */
  lemma EntryIsConvex(store: Store, width: nat, tree: bytes, prefix: bytes, depth: nat, entries: seq<RawEntry>, records: seq<EntryRecord>, i: nat)
    requires Level(store, width, tree, prefix, depth, entries, records) && i < |entries|
    ensures ListEntry(store, width, entries[i], prefix, depth).Some?
    ensures Convex(ListEntry(store, width, entries[i], prefix, depth).value, records)
  {
    hide ListEntry, ListEntries, ParseTree, SortKey, Less;
    EntryInListing(store, width, entries, prefix, depth, i);
    var part := ListEntry(store, width, entries[i], prefix, depth).value;
    forall x <- part, y <- part, r <- records | Amid(x, r, y) ensures r in part {
      var k := RecordOfEntry(store, width, entries, prefix, depth, r);
      if k < i {
        EarlierEntry(store, width, entries, prefix, depth, k, i, r, x);
        LessAsymmetric(r.path, x.path);
      } else if i < k {
        EarlierEntry(store, width, entries, prefix, depth, i, k, y, r);
        LessAsymmetric(r.path, y.path);
      }
    }
  }

  lemma ConvexConvex(part: seq<EntryRecord>, middle: seq<EntryRecord>, all: seq<EntryRecord>)
    requires Convex(part, middle) && Convex(middle, all)
    ensures Convex(part, all)
  {
  }

  /** Whatever tree is reached, its records are a convex part of the listing. */
  lemma {:induction false} ReachedIsConvex(store: Store, width: nat, a: bytes, b: bytes, k: nat, prefix: bytes, depth: nat)
    returns (below: bytes)
    requires depth <= MAX_TREE_DEPTH + 1 && Listing(store, width, a, prefix, depth).Some? && Reaches(store, width, a, b, k)
    ensures depth + k <= MAX_TREE_DEPTH && Listing(store, width, b, below, depth + k).Some?
    ensures Convex(Listing(store, width, b, below, depth + k).value, Listing(store, width, a, prefix, depth).value)
    decreases k
  {
    hide Listing, HasChild, Amid;
    DepthOfListing(store, width, a, prefix, depth);
    if k == 0 {
      below := prefix;
    } else {
      var m :| Reaches(store, width, a, m, k - 1) && HasChild(store, width, m, b);
      var over := ReachedIsConvex(store, width, a, m, k - 1, prefix, depth);
      below := ChildIsConvex(store, width, m, b, over, depth + k - 1);
      ConvexConvex(Listing(store, width, b, below, depth + k).value, Listing(store, width, m, over, depth + k - 1).value,
                   Listing(store, width, a, prefix, depth).value);
    }
  }

  lemma ChildIsConvex(store: Store, width: nat, m: bytes, b: bytes, over: bytes, depth: nat) returns (below: bytes)
    requires depth <= MAX_TREE_DEPTH && Listing(store, width, m, over, depth).Some? && HasChild(store, width, m, b)
    ensures depth + 1 <= MAX_TREE_DEPTH && Listing(store, width, b, below, depth + 1).Some?
    ensures Convex(Listing(store, width, b, below, depth + 1).value, Listing(store, width, m, over, depth).value)
  {
    hide ParseTree, Listing, ListEntries, SafePath, Convex;
    var entries, records := ListedLevel(store, width, m, over, depth);
    var e :| e in entries && IsTree(e) && e.oid == b;
    var i: nat :| i < |entries| && entries[i] == e;
    EntryIsConvex(store, width, m, over, depth, entries, records, i);
    below := Join(over, e.name);
    DepthOfListing(store, width, b, below, depth + 1);
  }

  // ------------------------------------------------- a clash shows in the listing

  /** A file and a directory of one name: the file's record is a directory of every record below. */
  lemma ClashShows(store: Store, width: nat, tree: bytes, prefix: bytes, depth: nat, entries: seq<RawEntry>,
                   records: seq<EntryRecord>, p: nat, q: nat) returns (x: EntryRecord, y: EntryRecord)
    requires Level(store, width, tree, prefix, depth, entries, records) && ClashAt(store, width, tree, p, q)
    ensures x in records && y in records && Below(y.path, x.path)
    ensures q == p + 1 ==> Adjacent(records, x, y)
  {
    hide ListEntries, ParseTree, Less, SafePath, Listing;
    EntryInListing(store, width, entries, prefix, depth, p);
    EntryInListing(store, width, entries, prefix, depth, q);
    var full := Join(prefix, entries[p].name);
    x := EntryRecord(full, entries[p].mode, entries[p].oid);
    assert ListEntry(store, width, entries[p], prefix, depth) == Some([x]);
    EntryNotEmpty(store, width, entries[q], prefix, depth);
    var under := ListEntry(store, width, entries[q], prefix, depth).value;
    y := under[0];
    EntryIncreases(store, width, entries[q], prefix, depth);
    assert Keyed(y.path, prefix, entries[q]) by { assert y in under; }
    KeyedIsUnder(y.path, prefix, entries[q]);
    if q == p + 1 {
      ClashIsAdjacent(store, width, tree, prefix, depth, entries, records, p, x, under);
    }
  }

  lemma KeyedIsUnder(path: bytes, prefix: bytes, e: RawEntry)
    requires Keyed(path, prefix, e) && IsTree(e)
    ensures Below(path, Join(prefix, e.name))
  {
    var x :| KeyedBy(path, prefix, e, x);
    var full := Join(prefix, e.name);
    ConcatAssoc(prefix + [SLASH], e.name, [SLASH] + x);
    ConcatAssoc(e.name, [SLASH], x);
    assert path == full + ([SLASH] + x);
  }

  lemma ClashIsAdjacent(store: Store, width: nat, tree: bytes, prefix: bytes, depth: nat, entries: seq<RawEntry>,
                        records: seq<EntryRecord>, p: nat, x: EntryRecord, under: seq<EntryRecord>)
    requires Level(store, width, tree, prefix, depth, entries, records) && p + 1 < |entries| && under != []
    requires ListEntry(store, width, entries[p], prefix, depth) == Some([x])
    requires ListEntry(store, width, entries[p + 1], prefix, depth) == Some(under) && StrictlySorted(under, PathOf)
    ensures Adjacent(records, x, under[0])
  {
    hide ListEntry, ListEntries, ParseTree, Less, SortKey;
    var y := under[0];
    assert x in [x] && y in under;
    forall r <- records ensures !Amid(x, r, y) {
      var t := RecordOfEntry(store, width, entries, prefix, depth, r);
      if t < p {
        EarlierEntry(store, width, entries, prefix, depth, t, p, r, x);
        LessAsymmetric(r.path, x.path);
      } else if t == p {
        assert r == x;
        LessIrreflexive(x.path);
      } else if t == p + 1 {
        FirstIsLeast(under, r);
      } else {
        EarlierEntry(store, width, entries, prefix, depth, p + 1, t, y, r);
        LessAsymmetric(y.path, r.path);
      }
    }
  }

  lemma FirstIsLeast(records: seq<EntryRecord>, r: EntryRecord)
    requires StrictlySorted(records, PathOf) && r in records
    ensures !Less(r.path, records[0].path)
  {
    hide Less;
    var i :| 0 <= i < |records| && records[i] == r;
    LessIrreflexive(r.path);
    if i > 0 {
      assert Less(PathOf(records[0]), PathOf(records[i]));
      LessAsymmetric(records[0].path, r.path);
    }
  }

  // --------------------------------------------- a directory path comes from a clash

  /** Entries of different keys with one record below the other are a file and a directory of one name. */
  lemma BelowIsClash(prefix: bytes, x: bytes, a: RawEntry, y: bytes, b: RawEntry)
    requires Keyed(x, prefix, a) && Keyed(y, prefix, b) && SLASH !in a.name && SLASH !in b.name
    requires Below(y, x) && SortKey(a) != SortKey(b)
    ensures !IsTree(a) && IsTree(b) && a.name == b.name
  {
    var u :| KeyedBy(x, prefix, a, u);
    var v :| KeyedBy(y, prefix, b, v);
    var over, under := SortKey(a) + u, SortKey(b) + v;
    if prefix != [] {
      BelowJoined(prefix, over, under);
    }
    StartsWithName(a, u, b, v);
  }

  lemma BelowJoined(prefix: bytes, over: bytes, under: bytes)
    requires Below(prefix + [SLASH] + under, prefix + [SLASH] + over)
    ensures Below(under, over)
  {
    var head := prefix + [SLASH];
    assert (head + under)[..|head + over|] == head + under[..|over|];
    assert (head + over)[|head|..] == over && (head + under[..|over|])[|head|..] == under[..|over|];
    assert (head + under)[|head + over|] == under[|over|];
  }

  lemma StartsWithName(a: RawEntry, u: bytes, b: RawEntry, v: bytes)
    requires Below(SortKey(b) + v, SortKey(a) + u) && SLASH !in a.name && SLASH !in b.name && SortKey(a) != SortKey(b)
    requires (IsTree(a) || u == []) && (IsTree(b) || v == [])
    ensures !IsTree(a) && IsTree(b) && a.name == b.name
  {
    var over, under := SortKey(a) + u, SortKey(b) + v;
    var n := |a.name|;
    assert over[..n] == a.name && under[..n] == under[..|over|][..n];
    assert under[n] == SLASH by {
      if |over| > n {
        assert under[n] == under[..|over|][n];
      }
    }
    var m := |b.name|;
    assert under[..m] == b.name;
    NoSlashWithin(under, m);
    NoSlashWithin(under, n);
    assert m < |under| ==> under[m] == SLASH;
    assert n == m;
  }

  lemma NoSlashWithin(s: bytes, m: nat)
    requires m <= |s| && SLASH !in s[..m]
    ensures forall t :: 0 <= t < m ==> s[t] != SLASH
  {
    assert forall t :: 0 <= t < m ==> s[t] == s[..m][t];
  }

  /** A record below another one comes from a tree, at or below this one, that lists a name twice; and
      from two neighbouring entries of it, when nothing is listed between the two records. */
  lemma {:induction false} ClashFound(store: Store, width: nat, tree: bytes, prefix: bytes, depth: nat, x: EntryRecord, y: EntryRecord)
    returns (b: bytes, k: nat, p: nat, q: nat)
    requires depth <= MAX_TREE_DEPTH + 1 && Listing(store, width, tree, prefix, depth).Some?
    requires x in Listing(store, width, tree, prefix, depth).value && y in Listing(store, width, tree, prefix, depth).value
    requires Below(y.path, x.path)
    ensures Reaches(store, width, tree, b, k) && ClashAt(store, width, b, p, q)
    ensures Adjacent(Listing(store, width, tree, prefix, depth).value, x, y) ==> q == p + 1
    decreases MAX_TREE_DEPTH + 1 - depth
  {
    hide Listing, ListEntries, ParseTree, Less, SortKey, SafePath, Below, Amid, Reaches;
    var entries, records := ListedLevel(store, width, tree, prefix, depth);
    var i := RecordOfEntry(store, width, entries, prefix, depth, x);
    var j := RecordOfEntry(store, width, entries, prefix, depth, y);
    if i == j {
      NotBelowItself(x.path);
      var e := entries[i];
      EntryInListing(store, width, entries, prefix, depth, i);
      b, k, p, q := ClashFound(store, width, e.oid, Join(prefix, e.name), depth + 1, x, y);
      ReachesFirst(store, width, tree, e.oid, b, k);
      k := k + 1;
    } else {
      EntryIncreases(store, width, entries[i], prefix, depth);
      EntryIncreases(store, width, entries[j], prefix, depth);
      KeysDiffer(entries, i, j);
      BelowIsClash(prefix, x.path, entries[i], y.path, entries[j]);
      b, k, p, q := tree, 0, i, j;
      ReachesItself(store, width, tree);
      if j != i + 1 {
        SomethingBetween(store, width, tree, prefix, depth, entries, records, i, j, x, y);
      }
    }
  }

  lemma NotBelowItself(path: bytes)
    ensures !Below(path, path)
  {
  }

  lemma ReachesItself(store: Store, width: nat, tree: bytes)
    ensures Reaches(store, width, tree, tree, 0)
  {
  }

  lemma KeysDiffer(entries: seq<RawEntry>, i: nat, j: nat)
    requires StrictlySorted(entries, SortKey) && i < |entries| && j < |entries| && i != j
    ensures SortKey(entries[i]) != SortKey(entries[j])
  {
    hide Less, SortKey;
    LessIrreflexive(SortKey(entries[i]));
  }

  lemma SomethingBetween(store: Store, width: nat, tree: bytes, prefix: bytes, depth: nat, entries: seq<RawEntry>,
                         records: seq<EntryRecord>, i: nat, j: nat, x: EntryRecord, y: EntryRecord)
    requires Level(store, width, tree, prefix, depth, entries, records) && i < |entries| && j < |entries| && i != j && j != i + 1
    requires ListEntry(store, width, entries[i], prefix, depth).Some? && x in ListEntry(store, width, entries[i], prefix, depth).value
    requires ListEntry(store, width, entries[j], prefix, depth).Some? && y in ListEntry(store, width, entries[j], prefix, depth).value
    requires Below(y.path, x.path)
    ensures !Adjacent(records, x, y)
  {
    hide ListEntry, ListEntries, ParseTree, Less, SortKey;
    if j < i {
      EarlierEntry(store, width, entries, prefix, depth, j, i, y, x);
      BelowIsAfter(y.path, x.path);
      LessAsymmetric(y.path, x.path);
    } else {
      EntryInListing(store, width, entries, prefix, depth, i + 1);
      EntryNotEmpty(store, width, entries[i + 1], prefix, depth);
      var r := ListEntry(store, width, entries[i + 1], prefix, depth).value[0];
      EarlierEntry(store, width, entries, prefix, depth, i, i + 1, x, r);
      EarlierEntry(store, width, entries, prefix, depth, i + 1, j, r, y);
      assert Amid(x, r, y);
    }
  }

  lemma BelowIsAfter(path: bytes, dir: bytes)
    requires Below(path, dir)
    ensures Less(dir, path)
  {
    LessSamePrefix(dir, [], path[|dir|..]);
    assert dir + [] == dir && dir + path[|dir|..] == path;
  }

  /** Chains may also be extended at their start. */
  lemma {:induction false} ReachesFirst(store: Store, width: nat, a: bytes, m: bytes, b: bytes, k: nat)
    requires HasChild(store, width, a, m) && Reaches(store, width, m, b, k)
    ensures Reaches(store, width, a, b, k + 1)
    decreases k
  {
    hide HasChild;
    if k == 0 {
      assert Reaches(store, width, a, a, 0);
    } else {
      var n :| Reaches(store, width, m, n, k - 1) && HasChild(store, width, n, b);
      ReachesFirst(store, width, a, m, n, k - 1);
    }
  }

  // ------------------------------------------------------------------ the theorems

  /** No path of a listed root is a directory of another exactly when no tree object reached lists one
      name both as a file and as a directory. */
  lemma PrefixFreeExactly(store: Store, width: nat, root: bytes)
    requires Listing(store, width, root, [], 0).Some?
    ensures PrefixFree(Listing(store, width, root, [], 0).value)
            <==> forall b, k: nat :: Reaches(store, width, root, b, k) ==> !ListsTwice(store, width, b)
  {
    hide Listing, Reaches, ClashAt, Below, Convex, Level;
    var all := Listing(store, width, root, [], 0).value;
    if !PrefixFree(all) {
      var i, j :| 0 <= i < |all| && 0 <= j < |all| && Below(all[j].path, all[i].path);
      var b, k, p, q := ClashFound(store, width, root, [], 0, all[i], all[j]);
      assert ListsTwice(store, width, b);
    }
    forall b, k: nat | Reaches(store, width, root, b, k) && ListsTwice(store, width, b) ensures !PrefixFree(all) {
      var x, y := ReachedClash(store, width, root, b, k, false);
      var i :| 0 <= i < |all| && all[i] == x;
      var j :| 0 <= j < |all| && all[j] == y;
      assert Below(all[j].path, all[i].path);
    }
  }

  /** A reached tree's clash shows in the listing of the root. */
  lemma ReachedClash(store: Store, width: nat, root: bytes, b: bytes, k: nat, beside: bool) returns (x: EntryRecord, y: EntryRecord)
    requires Listing(store, width, root, [], 0).Some? && Reaches(store, width, root, b, k)
    requires if beside then ListsSideBySide(store, width, b) else ListsTwice(store, width, b)
    ensures x in Listing(store, width, root, [], 0).value && y in Listing(store, width, root, [], 0).value
    ensures Below(y.path, x.path) && (beside ==> Adjacent(Listing(store, width, root, [], 0).value, x, y))
  {
    hide Listing, Reaches, Below, ListEntries, ParseTree, Amid;
    var below := ReachedIsConvex(store, width, root, b, k, [], 0);
    var entries, records := ListedLevel(store, width, b, below, k);
    if beside {
      var p, q :| NextTo(store, width, b, p, q);
      x, y := ClashShows(store, width, b, below, k, entries, records, p, q);
    } else {
      var p, q :| ClashAt(store, width, b, p, q);
      x, y := ClashShows(store, width, b, below, k, entries, records, p, q);
    }
  }

  /** The neighbour check accepts a listed root exactly when no tree object reached does so in two
      neighbouring entries. */
  lemma NeighboursApartExactly(store: Store, width: nat, root: bytes)
    requires Listing(store, width, root, [], 0).Some?
    ensures NeighboursApart(Listing(store, width, root, [], 0).value)
            <==> forall b, k: nat :: Reaches(store, width, root, b, k) ==> !ListsSideBySide(store, width, b)
  {
    hide Listing, Reaches, ClashAt, Below, Convex, Level, Less;
    var all := Listing(store, width, root, [], 0).value;
    ListingIncreases(store, width, root, [], 0);
    if !NeighboursApart(all) {
      var b, k := NeighboursClash(store, width, root);
    }
    forall b, k: nat | Reaches(store, width, root, b, k) && ListsSideBySide(store, width, b) ensures !NeighboursApart(all) {
      var x, y := ReachedClash(store, width, root, b, k, true);
      AdjacentAreNeighbours(all, x, y);
    }
  }

  /** So the check is right about a listed root exactly when some tree reached does so in neighbouring
      entries, or none does so at all. */
  lemma CheckRightExactly(store: Store, width: nat, root: bytes)
    requires Listing(store, width, root, [], 0).Some?
    ensures (NeighboursApart(Listing(store, width, root, [], 0).value) <==> PrefixFree(Listing(store, width, root, [], 0).value))
            <==> ((exists b, k: nat :: Reaches(store, width, root, b, k) && ListsTwice(store, width, b))
                  ==> exists b, k: nat :: Reaches(store, width, root, b, k) && ListsSideBySide(store, width, b))
  {
    hide Listing, Reaches, ListsTwice, ListsSideBySide, NeighboursApart, PrefixFree;
    PrefixFreeExactly(store, width, root);
    NeighboursApartExactly(store, width, root);
    SideBySideIsTwice(store, width);
  }

  lemma SideBySideIsTwice(store: Store, width: nat)
    ensures forall b :: ListsSideBySide(store, width, b) ==> ListsTwice(store, width, b)
  {
    forall b | ListsSideBySide(store, width, b) ensures ListsTwice(store, width, b) {
      var p, q :| NextTo(store, width, b, p, q);
      assert ClashAt(store, width, b, p, q);
    }
  }

  lemma NeighboursClash(store: Store, width: nat, root: bytes) returns (b: bytes, k: nat)
    requires Listing(store, width, root, [], 0).Some? && !NeighboursApart(Listing(store, width, root, [], 0).value)
    ensures Reaches(store, width, root, b, k) && ListsSideBySide(store, width, b)
  {
    hide Listing, Reaches, ClashAt, Below, Less;
    var all := Listing(store, width, root, [], 0).value;
    ListingIncreases(store, width, root, [], 0);
    var i := BelowNeighbour(all);
    var p, q;
    b, k, p, q := ClashFound(store, width, root, [], 0, all[i - 1], all[i]);
    assert NextTo(store, width, b, p, q);
  }

  lemma BelowNeighbour(records: seq<EntryRecord>) returns (i: nat)
    requires StrictlySorted(records, PathOf) && !NeighboursApart(records)
    ensures 0 < i < |records| && Below(records[i].path, records[i - 1].path) && Adjacent(records, records[i - 1], records[i])
  {
    hide Less, Below;
    i :| 0 < i < |records| && (records[i].path == records[i - 1].path || Below(records[i].path, records[i - 1].path));
    NeighboursAreAdjacent(records, i);
  }

  lemma NeighboursAreAdjacent(records: seq<EntryRecord>, i: nat)
    requires StrictlySorted(records, PathOf) && 0 < i < |records|
    ensures records[i].path != records[i - 1].path && Adjacent(records, records[i - 1], records[i])
  {
    hide Less;
    assert Less(PathOf(records[i - 1]), PathOf(records[i]));
    LessIrreflexive(records[i].path);
    forall r <- records ensures !Amid(records[i - 1], r, records[i]) {
      var t :| 0 <= t < |records| && records[t] == r;
      NotAmid(records, i, t);
    }
  }

  lemma NotAmid(records: seq<EntryRecord>, i: nat, t: nat)
    requires StrictlySorted(records, PathOf) && 0 < i < |records| && t < |records|
    ensures !Amid(records[i - 1], records[t], records[i])
  {
    hide Less;
    LessIrreflexive(records[t].path);
    if t < i - 1 {
      assert Less(PathOf(records[t]), PathOf(records[i - 1]));
      LessAsymmetric(records[t].path, records[i - 1].path);
    } else if i < t {
      assert Less(PathOf(records[i]), PathOf(records[t]));
      LessAsymmetric(records[i].path, records[t].path);
    }
  }

  lemma AdjacentAreNeighbours(records: seq<EntryRecord>, x: EntryRecord, y: EntryRecord)
    requires StrictlySorted(records, PathOf) && x in records && y in records && Adjacent(records, x, y) && Below(y.path, x.path)
    ensures !NeighboursApart(records)
  {
    hide Less, Below;
    var i :| 0 <= i < |records| && records[i] == x;
    var j :| 0 <= j < |records| && records[j] == y;
    BelowIsLater(records, i, j);
    assert i + 1 < j ==> Less(PathOf(records[i]), PathOf(records[i + 1])) && Less(PathOf(records[i + 1]), PathOf(records[j]));
    assert i + 1 < j ==> records[i + 1] in records && Amid(x, records[i + 1], y);
    assert Below(records[i + 1].path, records[i].path);
  }
}
