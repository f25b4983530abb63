/** `readVerifiedTreeEntries`: a tree object and all below it become one list of paths, whatever
    object graph the store holds. */
module GitFlatten {
  import opened Bytes
  import opened Sorting
  import opened Utf8
  import opened GitTree

  datatype EntryRecord = EntryRecord(path: bytes, mode: bytes, oid: bytes)

  function PathOf(e: EntryRecord): bytes { e.path }

  function Join(prefix: bytes, rest: bytes): bytes
  {
    if prefix == [] then rest else prefix + [SLASH] + rest
  }

  /** `strings.Split(path, "/")`. */
  function Split(path: bytes): (r: seq<bytes>)
    ensures r != [] && forall c <- r :: SLASH !in c
    decreases |path|
  {
    var k := IndexFrom(path, 0, SLASH);
    if k == |path| then
      assert path[0..k] == path;
      [path]
    else [path[..k]] + Split(path[k + 1..])
  }

  const DOT: byte := 0x2E
  const BACKSLASH: byte := 0x5C

  function FoldAscii(b: byte): byte
  {
    if 0x41 <= b <= 0x5A then b + 0x20 else b
  }

  /** Unicode equal-folding to `.git`, whose letters have no other simple folding. */
  predicate FoldsToDotGit(c: bytes)
  {
    && |c| == 4 && c[0] == DOT && FoldAscii(c[1]) == 0x67 && FoldAscii(c[2]) == 0x69 && FoldAscii(c[3]) == 0x74
  }

  /** A control character in valid UTF-8: U+0000..U+001F, U+007F, or U+0080..U+009F as C2 80..C2 9F. */
  predicate HasControl(c: bytes)
  {
    exists i | 0 <= i < |c| :: c[i] < 0x20 || c[i] == 0x7F || (c[i] == 0xC2 && i + 1 < |c| && c[i + 1] < 0xA0)
  }

  predicate SafeComponent(c: bytes)
  {
    && c != [] && c != [DOT] && c != [DOT, DOT] && |c| <= MAX_COMPONENT_BYTES && !FoldsToDotGit(c) && !HasControl(c)
  }

  /** `validateRawPath`. */
  predicate SafePath(path: bytes)
  {
    && 1 <= |path| <= MAX_PATH_BYTES && ValidUtf8(path) && path[0] != SLASH && path[|path| - 1] != SLASH
    && BACKSLASH !in path && forall c <- Split(path) :: SafeComponent(c)
  }

  // ------------------------------------------------- the listing, without budgets

  type Store = bytes -> Option<bytes>

  function Listing(store: Store, width: nat, oid: bytes, prefix: bytes, depth: nat): Option<seq<EntryRecord>>
    requires depth <= MAX_TREE_DEPTH + 1
    decreases MAX_TREE_DEPTH + 1 - depth, 2, 0
  {
    if depth > MAX_TREE_DEPTH || store(oid).None? then None
    else
      var entries := ParseTree(store(oid).value, width);
      if entries.None? then None else ListEntries(store, width, entries.value, prefix, depth)
  }

  function ListEntries(store: Store, width: nat, entries: seq<RawEntry>, prefix: bytes, depth: nat): Option<seq<EntryRecord>>
    requires depth <= MAX_TREE_DEPTH
    decreases MAX_TREE_DEPTH + 1 - depth, 1, |entries|
  {
    if entries == [] then Some([])
    else
      var last := |entries| - 1;
      Both(ListEntries(store, width, entries[..last], prefix, depth), ListEntry(store, width, entries[last], prefix, depth))
  }

  function Both(a: Option<seq<EntryRecord>>, b: Option<seq<EntryRecord>>): Option<seq<EntryRecord>>
  {
    if a.None? || b.None? then None else Some(a.value + b.value)
  }

  function ListEntry(store: Store, width: nat, e: RawEntry, prefix: bytes, depth: nat): Option<seq<EntryRecord>>
    requires depth <= MAX_TREE_DEPTH
    decreases MAX_TREE_DEPTH + 1 - depth, 0, 0
  {
    var full := Join(prefix, e.name);
    if |full| > MAX_PATH_BYTES || !SafePath(full) then None
    else if IsTree(e) then Listing(store, width, e.oid, full, depth + 1)
    else if e.mode == FILE_MODE || e.mode == EXECUTABLE_MODE then Some([EntryRecord(full, e.mode, e.oid)])
    else None
  }

  // ---------------------------------------------------------- what a listing costs

  /** Tree objects read, records parsed, bytes of metadata. */
  datatype Cost = Cost(objects: nat, records: nat, metadata: nat)
  {
    function Plus(other: Cost): Cost
    {
      Cost(objects + other.objects, records + other.records, metadata + other.metadata)
    }
  }

  function TreeCost(store: Store, width: nat, oid: bytes, prefix: bytes, depth: nat): Cost
    requires depth <= MAX_TREE_DEPTH + 1 && Listing(store, width, oid, prefix, depth).Some?
    decreases MAX_TREE_DEPTH + 1 - depth, 2, 0
  {
    Cost(1, 0, 0).Plus(BelowCost(store, width, oid, prefix, depth))
  }

  /** The cost without the tree object itself. */
  function BelowCost(store: Store, width: nat, oid: bytes, prefix: bytes, depth: nat): Cost
    requires depth <= MAX_TREE_DEPTH + 1 && Listing(store, width, oid, prefix, depth).Some?
    decreases MAX_TREE_DEPTH + 1 - depth, 1, |store(oid).value| + 1
  {
    var raw := store(oid).value;
    var entries := ParseTree(raw, width).value;
    ParsedIsShorter(raw, width);
    Cost(0, |entries|, |raw|).Plus(EntriesCost(store, width, entries, prefix, depth))
  }

  lemma {:induction false} ParsedIsShorter(raw: bytes, width: nat)
    requires ParseTree(raw, width).Some?
    ensures |ParseTree(raw, width).value| <= |raw|
  {
    ParseThenSerialize(raw, width);
    LongerSerialized(ParseTree(raw, width).value);
  }

  lemma ParsedNotEmpty(raw: bytes, width: nat)
    requires ParseTree(raw, width).Some?
    ensures raw != []
  {
  }

  lemma {:induction false} LongerSerialized(entries: seq<RawEntry>)
    ensures |entries| <= |Serialize(entries)|
  {
    if entries != [] {
      LongerSerialized(entries[1..]);
    }
  }

  function EntriesCost(store: Store, width: nat, entries: seq<RawEntry>, prefix: bytes, depth: nat): Cost
    requires depth <= MAX_TREE_DEPTH && ListEntries(store, width, entries, prefix, depth).Some?
    decreases MAX_TREE_DEPTH + 1 - depth, 1, |entries|
  {
    if entries == [] then Cost(0, 0, 0)
    else
      var last := |entries| - 1;
      EntriesCost(store, width, entries[..last], prefix, depth).Plus(EntryCost(store, width, entries[last], prefix, depth))
  }

  function EntryCost(store: Store, width: nat, e: RawEntry, prefix: bytes, depth: nat): Cost
    requires depth <= MAX_TREE_DEPTH && ListEntry(store, width, e, prefix, depth).Some?
    decreases MAX_TREE_DEPTH + 1 - depth, 0, 0
  {
    if IsTree(e) then TreeCost(store, width, e.oid, Join(prefix, e.name), depth + 1) else Cost(0, 0, 0)
  }

  /** Every prefix of a listable list of entries is listable, and costs and lists no more. */
  lemma {:induction false} PrefixCost(store: Store, width: nat, entries: seq<RawEntry>, prefix: bytes, depth: nat, k: nat)
    requires depth <= MAX_TREE_DEPTH && k <= |entries| && ListEntries(store, width, entries, prefix, depth).Some?
    ensures ListEntries(store, width, entries[..k], prefix, depth).Some?
    ensures |ListEntries(store, width, entries[..k], prefix, depth).value| <= |ListEntries(store, width, entries, prefix, depth).value|
    ensures var part, all := EntriesCost(store, width, entries[..k], prefix, depth), EntriesCost(store, width, entries, prefix, depth);
            part.objects <= all.objects && part.records <= all.records && part.metadata <= all.metadata
    decreases |entries|
  {
    hide ListEntry, EntryCost;
    if k == |entries| {
      assert entries[..k] == entries;
    } else {
      var last := |entries| - 1;
      assert entries[..last][..k] == entries[..k];
      PrefixCost(store, width, entries[..last], prefix, depth, k);
    }
  }

  predicate Within(part: Cost, all: Cost)
  {
    part.objects <= all.objects && part.records <= all.records && part.metadata <= all.metadata
  }

  /** One more entry: its listing and its cost are added, and stay within those of the whole. */
  lemma NextEntry(store: Store, width: nat, entries: seq<RawEntry>, prefix: bytes, depth: nat, i: nat)
    requires depth <= MAX_TREE_DEPTH && i < |entries| && ListEntries(store, width, entries[..i], prefix, depth).Some?
    ensures ListEntry(store, width, entries[i], prefix, depth).Some? ==>
      && ListEntries(store, width, entries[..i + 1], prefix, depth)
         == Some(ListEntries(store, width, entries[..i], prefix, depth).value + ListEntry(store, width, entries[i], prefix, depth).value)
      && EntriesCost(store, width, entries[..i + 1], prefix, depth)
         == EntriesCost(store, width, entries[..i], prefix, depth).Plus(EntryCost(store, width, entries[i], prefix, depth))
    ensures ListEntries(store, width, entries, prefix, depth).Some? ==>
      && ListEntry(store, width, entries[i], prefix, depth).Some?
      && |ListEntries(store, width, entries[..i], prefix, depth).value| + |ListEntry(store, width, entries[i], prefix, depth).value|
         <= |ListEntries(store, width, entries, prefix, depth).value|
      && Within(EntriesCost(store, width, entries[..i], prefix, depth).Plus(EntryCost(store, width, entries[i], prefix, depth)),
                EntriesCost(store, width, entries, prefix, depth))
  {
    hide ListEntry, EntryCost;
    assert entries[..i + 1][..i] == entries[..i];
    if ListEntries(store, width, entries, prefix, depth).Some? {
      PrefixCost(store, width, entries, prefix, depth, i + 1);
    }
  }

  // ------------------------------------------------------------------ cycles

  /** The tree `a` has an entry for the tree `c`. */
  ghost predicate HasChild(store: Store, width: nat, a: bytes, c: bytes)
  {
    && store(a).Some? && ParseTree(store(a).value, width).Some?
    && exists e <- ParseTree(store(a).value, width).value :: IsTree(e) && e.oid == c
  }

  /** A chain of `k` subtree references leads from `a` to `b`. */
  ghost predicate Reaches(store: Store, width: nat, a: bytes, b: bytes, k: nat)
    decreases k
  {
    if k == 0 then a == b else exists m :: Reaches(store, width, a, m, k - 1) && HasChild(store, width, m, b)
  }

  lemma {:induction false} EntryIsListed(store: Store, width: nat, entries: seq<RawEntry>, prefix: bytes, depth: nat, e: RawEntry)
    requires depth <= MAX_TREE_DEPTH && ListEntries(store, width, entries, prefix, depth).Some? && e in entries
    ensures ListEntry(store, width, e, prefix, depth).Some?
    decreases |entries|
  {
    hide ListEntry;
    var last := |entries| - 1;
    assert entries == entries[..last] + [entries[last]];
    if e != entries[last] {
      EntryIsListed(store, width, entries[..last], prefix, depth, e);
    }
  }

  /** Whatever a listed tree reaches is listed as many levels deeper. */
  lemma {:induction false} ReachedIsListed(store: Store, width: nat, a: bytes, b: bytes, k: nat, prefix: bytes, depth: nat)
    returns (below: bytes)
    requires depth <= MAX_TREE_DEPTH + 1 && Listing(store, width, a, prefix, depth).Some? && Reaches(store, width, a, b, k)
    ensures depth + k <= MAX_TREE_DEPTH && Listing(store, width, b, below, depth + k).Some?
    decreases k
  {
    hide Listing, HasChild;
    DepthOfListing(store, width, a, prefix, depth);
    if k == 0 {
      below := prefix;
    } else {
      var m :| Reaches(store, width, a, m, k - 1) && HasChild(store, width, m, b);
      var over := ReachedIsListed(store, width, a, m, k - 1, prefix, depth);
      below := ChildIsListed(store, width, m, b, over, depth + k - 1);
    }
  }

  lemma ChildIsListed(store: Store, width: nat, m: bytes, b: bytes, over: bytes, depth: nat) returns (below: bytes)
    requires depth <= MAX_TREE_DEPTH + 1 && Listing(store, width, m, over, depth).Some? && HasChild(store, width, m, b)
    ensures depth + 1 <= MAX_TREE_DEPTH && Listing(store, width, b, below, depth + 1).Some?
  {
    hide ParseTree, ListEntries, SafePath;
    var entries := ParseTree(store(m).value, width).value;
    var e :| e in entries && IsTree(e) && e.oid == b;
    EntryIsListed(store, width, entries, over, depth, e);
    below := Join(over, e.name);
    DepthOfListing(store, width, b, below, depth + 1);
  }

  lemma DepthOfListing(store: Store, width: nat, a: bytes, prefix: bytes, depth: nat)
    requires depth <= MAX_TREE_DEPTH + 1 && Listing(store, width, a, prefix, depth).Some?
    ensures depth <= MAX_TREE_DEPTH
  {
  }

  /** No listed tree contains itself. */
  lemma {:induction false} NoListedCycle(store: Store, width: nat, a: bytes, k: nat, prefix: bytes, depth: nat)
    requires depth <= MAX_TREE_DEPTH + 1 && k > 0 && Reaches(store, width, a, a, k)
    ensures Listing(store, width, a, prefix, depth).None?
    decreases MAX_TREE_DEPTH + 1 - depth
  {
    hide Listing, Reaches;
    if Listing(store, width, a, prefix, depth).Some? {
      var below := ReachedIsListed(store, width, a, a, k, prefix, depth);
      NoListedCycle(store, width, a, k, below, depth + k);
    }
  }

  /** Non-empty chains lead from each of these trees to `oid`. */
  ghost predicate AllLead(store: Store, width: nat, trees: set<bytes>, oid: bytes)
  {
    forall s <- trees :: exists k: nat :: k > 0 && Reaches(store, width, s, oid, k)
  }

  class TreeReader {
    const store: Store
    const width: nat
    const entryLimit: int
    const budget: TreeBudget
    var stack: set<bytes>
    ghost var taken: nat // tree objects taken from the store

    constructor (store: Store, width: nat, entryLimit: int)
      ensures this.store == store && this.width == width && this.entryLimit == entryLimit
      ensures stack == {} && taken == 0 && fresh(budget) && Bounded()
      ensures budget.treeObjects == budget.records == budget.metadata == 0
      ensures LimitsFor(entryLimit)
    {
      this.store, this.width, this.entryLimit := store, width, entryLimit;
      budget := new TreeBudget(entryLimit);
      stack := {};
      taken := 0;
    }

    /** `newTreeParseBudget`. */
    predicate LimitsFor(entryLimit: int)
    {
      && budget.treeObjectLimit == (if entryLimit + MAX_TREE_DEPTH + 1 > MAX_TREE_OBJECT_READS then MAX_TREE_OBJECT_READS
                                    else entryLimit + MAX_TREE_DEPTH + 1)
      && budget.recordLimit == entryLimit + budget.treeObjectLimit + 256
      && budget.metadataLimit == (if budget.recordLimit * MAX_PATH_BYTES > MAX_METADATA then MAX_METADATA
                                  else budget.recordLimit * MAX_PATH_BYTES)
    }

    /** Every object taken was admitted, and no more than the limit were. */
    ghost predicate Bounded()
      reads this`taken, budget
    {
      taken <= budget.treeObjects && (taken == 0 || taken <= budget.treeObjectLimit)
    }

    /** What has been spent so far. */
    ghost function Spent(): Cost
      reads budget
      requires budget.treeObjects >= 0 && budget.records >= 0 && budget.metadata >= 0
    {
      Cost(budget.treeObjects, budget.records, budget.metadata)
    }

    /** The limits that a total cost has to keep. */
    ghost predicate Affordable(total: Cost)
    {
      total.objects <= budget.treeObjectLimit && total.records <= budget.recordLimit && total.metadata <= budget.metadataLimit
    }

    ghost predicate Ready()
      reads this`taken, budget
    {
      Bounded() && budget.treeObjects >= 0 && budget.records >= 0 && budget.metadata >= 0
    }

    /** Everything on the stack leads to the tree about to be read. */
    ghost predicate Above(oid: bytes)
      reads this`stack
    {
      AllLead(store, width, stack, oid)
    }

    method ReadVerifiedObject(oid: bytes, limit: int) returns (result: Result<bytes, GitError>)
      requires taken < budget.treeObjects <= budget.treeObjectLimit
      modifies this`taken
      ensures taken == old(taken) + 1
      ensures result.Ok? <==> store(oid).Some? && |store(oid).value| <= limit
      ensures result.Ok? ==> store(oid) == Some(result.value)
    {
      taken := taken + 1;
      var raw := store(oid);
      if raw.None? {
        return Err(MissingObject);
      }
      if |raw.value| > limit {
        return Err(BudgetExceeded);
      }
      return Ok(raw.value);
    }

    /** A tree and all below it. The depth bounds the recursion on any graph, cyclic ones included. A
        tree that has a listing is refused only when the listing does not fit the budgets. */
    method ReadTree(oid: bytes, prefix: bytes, depth: nat) returns (result: Result<seq<EntryRecord>, GitError>)
      requires depth <= MAX_TREE_DEPTH + 1 && Ready() && Above(oid)
      modifies this, budget`records, budget`metadata, budget`treeObjects
      ensures Ready() && stack == old(stack)
      ensures result.Ok? ==> Listing(store, width, oid, prefix, depth) == Some(result.value)
      ensures result.Ok? ==> Spent() == old(Spent()).Plus(TreeCost(store, width, oid, prefix, depth))
      ensures result.Ok? ==> Affordable(Spent()) && |result.value| <= entryLimit
      ensures result.Err? && Listing(store, width, oid, prefix, depth).Some? ==>
        || !Affordable(old(Spent()).Plus(TreeCost(store, width, oid, prefix, depth)))
        || |Listing(store, width, oid, prefix, depth).value| > entryLimit
      decreases MAX_TREE_DEPTH + 1 - depth, 2, 0
    {
      hide ParseTree, ListEntries, BelowCost, Reaches, AtOrAbove;
      if depth > MAX_TREE_DEPTH {
        return Err(BudgetExceeded);
      }
      if oid in stack {
        ghost var k: nat :| k > 0 && Reaches(store, width, oid, oid, k);
        NoListedCycle(store, width, oid, k, prefix, depth);
        return Err(MalformedTree);
      }
      var admitted := budget.AdmitTreeObject();
      if !admitted {
        return Err(BudgetExceeded);
      }
      ghost var outer := stack;
      assert Above(oid);
      stack := stack + {oid};
      StackedIsAtOrAbove(outer, oid);
      result := ReadBelow(oid, prefix, depth);
      stack := stack - {oid};
      assert stack == outer;
    }

    method ReadBelow(oid: bytes, prefix: bytes, depth: nat) returns (result: Result<seq<EntryRecord>, GitError>)
      requires depth <= MAX_TREE_DEPTH && Ready() && taken < budget.treeObjects <= budget.treeObjectLimit
      requires AtOrAbove(oid)
      modifies this, budget`records, budget`metadata, budget`treeObjects
      ensures Ready() && stack == old(stack)
      ensures result.Ok? ==> Listing(store, width, oid, prefix, depth) == Some(result.value)
      ensures result.Ok? ==> Spent() == old(Spent()).Plus(BelowCost(store, width, oid, prefix, depth))
      ensures result.Ok? ==> Affordable(Spent()) && |result.value| <= entryLimit
      ensures result.Err? && Listing(store, width, oid, prefix, depth).Some? ==>
        || !Affordable(old(Spent()).Plus(BelowCost(store, width, oid, prefix, depth)))
        || |Listing(store, width, oid, prefix, depth).value| > entryLimit
      decreases MAX_TREE_DEPTH + 1 - depth, 1, 1
    {
      hide ParseTree, ListEntries, EntriesCost, AtOrAbove;
      var remaining := budget.metadataLimit - budget.metadata;
      if remaining < 1 {
        if Listing(store, width, oid, prefix, depth).Some? {
          ParsedNotEmpty(store(oid).value, width);
        }
        return Err(BudgetExceeded);
      }
      var raw := ReadVerifiedObject(oid, remaining);
      if raw.Err? {
        return Err(raw.error);
      }
      var parsed := ParseRawTreeObject(raw.value, width, budget);
      if parsed.Err? {
        return Err(parsed.error);
      }
      ParseThenSerialize(raw.value, width);
      result := ReadEntries(parsed.value, oid, prefix, depth);
    }

    /** Everything on the stack leads to this tree, which may be on it. */
    ghost predicate AtOrAbove(oid: bytes)
      reads this`stack
    {
      forall s <- stack :: exists k: nat :: Reaches(store, width, s, oid, k)
    }

    lemma AboveChild(parent: bytes, child: bytes)
      requires AtOrAbove(parent) && HasChild(store, width, parent, child)
      ensures Above(child)
    {
      hide HasChild;
      forall s <- stack ensures exists k: nat :: k > 0 && Reaches(store, width, s, child, k) {
        var k: nat :| Reaches(store, width, s, parent, k);
        assert Reaches(store, width, s, child, k + 1);
      }
    }

    lemma StackedIsAtOrAbove(outer: set<bytes>, oid: bytes)
      requires AllLead(store, width, outer, oid) && stack == outer + {oid}
      ensures AtOrAbove(oid)
    {
      assert Reaches(store, width, oid, oid, 0);
      hide Reaches;
    }

    method ReadEntries(entries: seq<RawEntry>, ghost parent: bytes, prefix: bytes, depth: nat)
      returns (result: Result<seq<EntryRecord>, GitError>)
      requires depth <= MAX_TREE_DEPTH && Ready() && Affordable(Spent()) && entries != [] && AtOrAbove(parent)
      requires store(parent).Some? && ParseTree(store(parent).value, width) == Some(entries)
      modifies this, budget`records, budget`metadata, budget`treeObjects
      ensures Ready() && stack == old(stack)
      ensures result.Ok? ==> ListEntries(store, width, entries, prefix, depth) == Some(result.value)
      ensures result.Ok? ==> Spent() == old(Spent()).Plus(EntriesCost(store, width, entries, prefix, depth))
      ensures result.Ok? ==> Affordable(Spent()) && |result.value| <= entryLimit
      ensures result.Err? && ListEntries(store, width, entries, prefix, depth).Some? ==>
        || !Affordable(old(Spent()).Plus(EntriesCost(store, width, entries, prefix, depth)))
        || |ListEntries(store, width, entries, prefix, depth).value| > entryLimit
      decreases MAX_TREE_DEPTH + 1 - depth, 1, 0
    {
      hide ListEntry, ListEntries, EntryCost, EntriesCost, ParseTree, AtOrAbove;
      var records: seq<EntryRecord> := [];
      NoEntries(prefix, depth);
      assert entries[..0] == [];
      for i := 0 to |entries|
        invariant Ready() && stack == old(stack) && Affordable(Spent()) && AtOrAbove(parent)
        invariant ListEntries(store, width, entries[..i], prefix, depth) == Some(records)
        invariant Spent() == old(Spent()).Plus(EntriesCost(store, width, entries[..i], prefix, depth))
        invariant i > 0 ==> |records| <= entryLimit
      {
        NextEntry(store, width, entries, prefix, depth, i);
        var children := ReadEntry(entries[i], parent, prefix, depth);
        if children.Err? {
          return Err(children.error);
        }
        records := records + children.value;
        if |records| > entryLimit {
          return Err(BudgetExceeded);
        }
      }
      assert entries[..|entries|] == entries;
      return Ok(records);
    }

    lemma NoEntries(prefix: bytes, depth: nat)
      requires depth <= MAX_TREE_DEPTH
      ensures ListEntries(store, width, [], prefix, depth) == Some([])
      ensures EntriesCost(store, width, [], prefix, depth) == Cost(0, 0, 0)
    {
    }

    method ReadEntry(entry: RawEntry, ghost parent: bytes, prefix: bytes, depth: nat)
      returns (result: Result<seq<EntryRecord>, GitError>)
      requires depth <= MAX_TREE_DEPTH && Ready() && Affordable(Spent()) && AtOrAbove(parent)
      requires store(parent).Some? && ParseTree(store(parent).value, width).Some?
      requires entry in ParseTree(store(parent).value, width).value
      modifies this, budget`records, budget`metadata, budget`treeObjects
      ensures Ready() && stack == old(stack)
      ensures result.Ok? ==> ListEntry(store, width, entry, prefix, depth) == Some(result.value)
      ensures result.Ok? ==> Spent() == old(Spent()).Plus(EntryCost(store, width, entry, prefix, depth))
      ensures result.Ok? ==> Affordable(Spent())
      ensures result.Err? && ListEntry(store, width, entry, prefix, depth).Some? ==>
        || !Affordable(old(Spent()).Plus(EntryCost(store, width, entry, prefix, depth)))
        || |ListEntry(store, width, entry, prefix, depth).value| > entryLimit
      decreases MAX_TREE_DEPTH + 1 - depth, 0, 0
    {
      hide SafePath, Listing, TreeCost, ParseTree, AtOrAbove, Above;
      var full := prefix;
      if |full| > 0 {
        full := full + [SLASH];
      }
      full := full + entry.name;
      assert full == Join(prefix, entry.name);
      if |full| > MAX_PATH_BYTES {
        return Err(BudgetExceeded);
      }
      if !SafePath(full) {
        return Err(UnsafePath);
      }
      if entry.mode == TREE_MODE {
        AboveChild(parent, entry.oid);
        result := ReadTree(entry.oid, full, depth + 1);
      } else if entry.mode == FILE_MODE || entry.mode == EXECUTABLE_MODE {
        result := Ok([EntryRecord(full, entry.mode, entry.oid)]);
      } else {
        result := Err(UnsupportedMode);
      }
    }
  }

  /** `Inspect` up to the neighbour check: a fresh reader on the root tree. It succeeds exactly when the
      root has a listing whose objects, records, metadata and entries fit the budgets; and it never takes
      more tree objects from the store than the limit. */
  method ReadRoot(store: Store, width: nat, entryLimit: nat, root: bytes) returns (result: Result<seq<EntryRecord>, GitError>)
    ensures var objects := if entryLimit + MAX_TREE_DEPTH + 1 > MAX_TREE_OBJECT_READS then MAX_TREE_OBJECT_READS
                           else entryLimit + MAX_TREE_DEPTH + 1;
            var records := entryLimit + objects + 256;
            var metadata := if records * MAX_PATH_BYTES > MAX_METADATA then MAX_METADATA else records * MAX_PATH_BYTES;
            result.Ok? <==>
              && Listing(store, width, root, [], 0).Some? && |Listing(store, width, root, [], 0).value| <= entryLimit
              && TreeCost(store, width, root, [], 0).objects <= objects
              && TreeCost(store, width, root, [], 0).records <= records
              && TreeCost(store, width, root, [], 0).metadata <= metadata
    ensures result.Ok? ==> Listing(store, width, root, [], 0) == Some(result.value)
  {
    hide Listing, TreeCost;
    var reader := new TreeReader(store, width, entryLimit);
    result := reader.ReadTree(root, [], 0);
  }

  // ------------------------------------------------------------------- order

  /** Git's key order is the order of everything below the two entries. */
  lemma {:induction false} KeyOrderExtends(a: bytes, s: bytes, x: bytes, b: bytes, t: bytes, y: bytes)
    requires SLASH !in a && SLASH !in b && (s == [] || s == [SLASH]) && (t == [] || t == [SLASH])
    requires (s == [] ==> x == []) && Less(a + s, b + t)
    ensures Less(a + s + x, b + t + y)
  {
    if a == [] {
      if s != [] && b != [] {
        assert b[0] in b;
      }
    } else if b != [] {
      assert (a + s)[1..] == a[1..] + s && (b + t)[1..] == b[1..] + t;
      assert (a + s + x)[1..] == a[1..] + s + x && (b + t + y)[1..] == b[1..] + t + y;
      if a[0] == b[0] {
        KeyOrderExtends(a[1..], s, x, b[1..], t, y);
      }
    } else {
      assert a[0] in a;
    }
  }

  ghost predicate KeyedBy(path: bytes, prefix: bytes, e: RawEntry, x: bytes)
  {
    path == Join(prefix, SortKey(e) + x) && (IsTree(e) || x == [])
  }

  /** The path lies at or below the entry. */
  ghost predicate Keyed(path: bytes, prefix: bytes, e: RawEntry)
  {
    exists x :: KeyedBy(path, prefix, e, x)
  }

  lemma KeyedOrder(prefix: bytes, p: bytes, a: RawEntry, q: bytes, b: RawEntry)
    requires Keyed(p, prefix, a) && Keyed(q, prefix, b) && SLASH !in a.name && SLASH !in b.name
    requires Less(SortKey(a), SortKey(b))
    ensures Less(p, q)
  {
    var x :| KeyedBy(p, prefix, a, x);
    var y :| KeyedBy(q, prefix, b, y);
    KeyOrderExtends(a.name, if IsTree(a) then [SLASH] else [], x, b.name, if IsTree(b) then [SLASH] else [], y);
    if prefix != [] {
      LessSamePrefix(prefix + [SLASH], SortKey(a) + x, SortKey(b) + y);
    }
  }

  /** The paths of one entry's listing. */
  ghost predicate SortedUnder(records: seq<EntryRecord>, prefix: bytes, e: RawEntry)
  {
    StrictlySorted(records, PathOf) && forall r <- records :: Keyed(r.path, prefix, e)
  }

  /** A listing is strictly increasing, and every path lies below its prefix. */
  lemma {:induction false} ListingIncreases(store: Store, width: nat, oid: bytes, prefix: bytes, depth: nat)
    requires depth <= MAX_TREE_DEPTH + 1 && Listing(store, width, oid, prefix, depth).Some?
    ensures StrictlySorted(Listing(store, width, oid, prefix, depth).value, PathOf)
    ensures forall r <- Listing(store, width, oid, prefix, depth).value :: exists x :: r.path == Join(prefix, x)
    decreases MAX_TREE_DEPTH + 1 - depth, 2, 0
  {
    hide ParseTree, ListEntries, Keyed;
    var entries := ParseTree(store(oid).value, width).value;
    ParseThenSerialize(store(oid).value, width);
    assert forall e <- entries :: SLASH !in e.name by {
      assert forall e <- entries :: WellFormedEntry(e, width);
    }
    EntriesIncrease(store, width, entries, prefix, depth);
    var records := ListEntries(store, width, entries, prefix, depth).value;
    forall r <- records ensures exists x :: r.path == Join(prefix, x) {
      var i :| 0 <= i < |entries| && Keyed(r.path, prefix, entries[i]);
      KeyedIsBelow(r.path, prefix, entries[i]);
    }
  }

  lemma KeyedIsBelow(path: bytes, prefix: bytes, e: RawEntry)
    requires Keyed(path, prefix, e)
    ensures exists x :: path == Join(prefix, x)
  {
    var x :| KeyedBy(path, prefix, e, x);
  }

  lemma {:induction false} EntriesIncrease(store: Store, width: nat, entries: seq<RawEntry>, prefix: bytes, depth: nat)
    requires depth <= MAX_TREE_DEPTH && ListEntries(store, width, entries, prefix, depth).Some?
    requires StrictlySorted(entries, SortKey) && forall e <- entries :: SLASH !in e.name
    ensures StrictlySorted(ListEntries(store, width, entries, prefix, depth).value, PathOf)
    ensures forall r <- ListEntries(store, width, entries, prefix, depth).value ::
      exists i :: 0 <= i < |entries| && Keyed(r.path, prefix, entries[i])
    decreases MAX_TREE_DEPTH + 1 - depth, 1, |entries|
  {
    hide ListEntry, Keyed, SortKey;
    if entries != [] {
      var last := |entries| - 1;
      var front := entries[..last];
      EntriesIncrease(store, width, front, prefix, depth);
      EntryIncreases(store, width, entries[last], prefix, depth);
      var before := ListEntries(store, width, front, prefix, depth).value;
      var after := ListEntry(store, width, entries[last], prefix, depth).value;
      forall r <- before, q <- after ensures Less(r.path, q.path) {
        var i :| 0 <= i < last && Keyed(r.path, prefix, front[i]);
        KeyedOrder(prefix, r.path, entries[i], q.path, entries[last]);
      }
      SortedConcat(before, after);
      forall r <- before + after ensures exists i :: 0 <= i < |entries| && Keyed(r.path, prefix, entries[i]) {
        if r in before {
          var i :| 0 <= i < last && Keyed(r.path, prefix, front[i]);
          assert Keyed(r.path, prefix, entries[i]);
        } else {
          assert Keyed(r.path, prefix, entries[last]);
        }
      }
    }
  }

  lemma SortedConcat(before: seq<EntryRecord>, after: seq<EntryRecord>)
    requires StrictlySorted(before, PathOf) && StrictlySorted(after, PathOf)
    requires forall r <- before, q <- after :: Less(r.path, q.path)
    ensures StrictlySorted(before + after, PathOf)
  {
    var all := before + after;
    forall i, j | 0 <= i < j < |all| ensures Less(PathOf(all[i]), PathOf(all[j])) {
      if i < |before| {
        assert all[i] in before;
        if j < |before| {
          assert Less(PathOf(before[i]), PathOf(before[j]));
        } else {
          assert all[j] in after;
        }
      } else {
        assert Less(PathOf(after[i - |before|]), PathOf(after[j - |before|]));
      }
    }
  }

  lemma SafeNotEmpty(path: bytes)
    requires SafePath(path)
    ensures path != []
  {
  }

  lemma {:induction false} EntryIncreases(store: Store, width: nat, e: RawEntry, prefix: bytes, depth: nat)
    requires depth <= MAX_TREE_DEPTH && ListEntry(store, width, e, prefix, depth).Some?
    ensures SortedUnder(ListEntry(store, width, e, prefix, depth).value, prefix, e)
    decreases MAX_TREE_DEPTH + 1 - depth, 0, 0
  {
    hide Listing, SafePath, Less;
    var full := Join(prefix, e.name);
    var records := ListEntry(store, width, e, prefix, depth).value;
    if IsTree(e) {
      ListingIncreases(store, width, e.oid, full, depth + 1);
      forall r <- records ensures Keyed(r.path, prefix, e) {
        var x :| r.path == Join(full, x);
        SafeNotEmpty(full);
        ConcatAssoc(prefix + [SLASH], e.name + [SLASH], x);
        ConcatAssoc(prefix + [SLASH], e.name, [SLASH]);
        assert KeyedBy(r.path, prefix, e, x);
      }
    } else {
      assert SortKey(e) + [] == e.name;
      assert KeyedBy(full, prefix, e, []);
      assert records == [EntryRecord(full, e.mode, e.oid)];
    }
  }

  /** `Inspect`'s sort of the listing changes nothing, and no path repeats. */
  lemma SortIsNoOp(store: Store, width: nat, oid: bytes)
    requires Listing(store, width, oid, [], 0).Some?
    ensures SortBy(Listing(store, width, oid, [], 0).value, PathOf) == Listing(store, width, oid, [], 0).value
    ensures DistinctKeys(Listing(store, width, oid, [], 0).value, PathOf)
  {
    ListingIncreases(store, width, oid, [], 0);
    SortByIdempotent(Listing(store, width, oid, [], 0).value, PathOf);
    StrictIsDistinct(Listing(store, width, oid, [], 0).value, PathOf);
  }

  // ------------------------------------------------------ the neighbour check

  predicate Below(path: bytes, dir: bytes)
  {
    |path| > |dir| && path[..|dir|] == dir && path[|dir|] == SLASH
  }

  /** `validateCrossEntryPaths` on the sorted paths. */
  method ValidateCrossEntryPaths(entries: seq<EntryRecord>) returns (result: Result<(), GitError>)
    ensures result.Ok? <==> NeighboursApart(entries)
    ensures result.Err? ==> result.error == PathCollision
  {
    for index := 0 to |entries|
      invariant forall k :: 0 < k < index ==> entries[k].path != entries[k - 1].path && !Below(entries[k].path, entries[k - 1].path)
    {
      if index > 0 {
        var previous := entries[index - 1].path;
        if entries[index].path == previous || Below(entries[index].path, previous) {
          return Err(PathCollision);
        }
      }
    }
    return Ok(());
  }

  predicate NeighboursApart(entries: seq<EntryRecord>)
  {
    forall k :: 0 < k < |entries| ==> entries[k].path != entries[k - 1].path && !Below(entries[k].path, entries[k - 1].path)
  }

  /** No path is a directory of another. */
  predicate PrefixFree(entries: seq<EntryRecord>)
  {
    forall i, j :: 0 <= i < |entries| && 0 <= j < |entries| ==> !Below(entries[j].path, entries[i].path)
  }

  /** The check accepts `a`, `a-b`, `a/c`, although `a` is a directory of `a/c`. */
  lemma NeighbourCheckMissesPrefix(oid: bytes)
    ensures var entries := [EntryRecord([0x61], FILE_MODE, oid), EntryRecord([0x61, 0x2D, 0x62], FILE_MODE, oid),
                            EntryRecord([0x61, SLASH, 0x63], FILE_MODE, oid)];
            StrictlySorted(entries, PathOf) && NeighboursApart(entries) && !PrefixFree(entries)
  {
    hide Less;
    var entries := [EntryRecord([0x61], FILE_MODE, oid), EntryRecord([0x61, 0x2D, 0x62], FILE_MODE, oid),
                    EntryRecord([0x61, SLASH, 0x63], FILE_MODE, oid)];
    ThreeKeys();
    assert Below(entries[2].path, entries[0].path);
  }

  const DASHED: bytes := [0x61, 0x2D, 0x62]

  /** A file `a`, a file `a-b` and a directory `a`. */
  function TwiceNamed(file: bytes, sub: bytes): seq<RawEntry>
  {
    [RawEntry(FILE_MODE, [0x61], file), RawEntry(FILE_MODE, DASHED, file), RawEntry(TREE_MODE, [0x61], sub)]
  }

  /** Such a tree object is well formed. */
  lemma SuchATreeParses(file: bytes, sub: bytes)
    requires |file| == 20 && |sub| == 20
    ensures ParseTree(Serialize(TwiceNamed(file, sub)), 20) == Some(TwiceNamed(file, sub))
  {
    hide Less, ParseTree, Serialize;
    var raw := TwiceNamed(file, sub);
    ThreeKeys();
    assert SortKey(raw[0]) == [0x61] && SortKey(raw[1]) == DASHED && SortKey(raw[2]) == [0x61, SLASH];
    SerializeThenParse(raw, 20);
  }

  /** A store with it and with a tree of one file `c` for its directory lists `a`, `a-b`, `a/c`: the check
      accepts this root. */
  lemma SuchAStoreIsListed(store: Store, root: bytes, file: bytes, sub: bytes)
    requires |file| == 20 && |sub| == 20
    requires store(root) == Some(Serialize(TwiceNamed(file, sub)))
    requires store(sub) == Some(Serialize([RawEntry(FILE_MODE, [0x63], file)]))
    ensures Listing(store, 20, root, [], 0) == Some([EntryRecord([0x61], FILE_MODE, file), EntryRecord(DASHED, FILE_MODE, file),
                                                     EntryRecord([0x61, SLASH, 0x63], FILE_MODE, file)])
    ensures NeighboursApart(Listing(store, 20, root, [], 0).value) && !PrefixFree(Listing(store, 20, root, [], 0).value)
  {
    hide Less, ParseTree, Serialize, SafePath, NeighboursApart, PrefixFree;
    NeighbourCheckMissesPrefix(file);
    var under := [RawEntry(FILE_MODE, [0x63], file)];
    SuchATreeParses(file, sub);
    SerializeThenParse(under, 20);
    SuchPathsAreSafe();
    var r := EntryRecord([0x61, SLASH, 0x63], FILE_MODE, file);
    assert Join([0x61], [0x63]) == r.path;
    FileIsListed(store, under[0], [0x61], 1);
    OneMore(store, under, [0x61], 1, 0);
    assert [] + [r] == [r] && under[..0 + 1] == under;
    assert Listing(store, 20, sub, [0x61], 1) == Some([r]);
    var raw := TwiceNamed(file, sub);
    var p, q := EntryRecord([0x61], FILE_MODE, file), EntryRecord(DASHED, FILE_MODE, file);
    FileIsListed(store, raw[0], [], 0);
    FileIsListed(store, raw[1], [], 0);
    OneMore(store, raw, [], 0, 0);
    OneMore(store, raw, [], 0, 1);
    OneMore(store, raw, [], 0, 2);
    assert ListEntry(store, 20, raw[2], [], 0) == Listing(store, 20, sub, [0x61], 1);
    assert [] + [p] == [p] && [p] + [q] == [p, q] && [p, q] + [r] == [p, q, r] && raw[..2 + 1] == raw;
  }

  lemma FileIsListed(store: Store, e: RawEntry, prefix: bytes, depth: nat)
    requires depth <= MAX_TREE_DEPTH && e.mode == FILE_MODE && SafePath(Join(prefix, e.name))
    ensures ListEntry(store, 20, e, prefix, depth) == Some([EntryRecord(Join(prefix, e.name), FILE_MODE, e.oid)])
  {
    hide Listing;
  }

  lemma OneMore(store: Store, entries: seq<RawEntry>, prefix: bytes, depth: nat, i: nat)
    requires depth <= MAX_TREE_DEPTH && i < |entries|
    ensures ListEntries(store, 20, entries[..i + 1], prefix, depth)
            == Both(ListEntries(store, 20, entries[..i], prefix, depth), ListEntry(store, 20, entries[i], prefix, depth))
    ensures ListEntries(store, 20, entries[..0], prefix, depth) == Some([])
  {
    assert entries[..i + 1][..i] == entries[..i];
  }

  lemma SuchPathsAreSafe()
    ensures SafePath([0x61]) && SafePath(DASHED) && SafePath([0x61, SLASH, 0x63])
  {
    hide Split, ValidUtf8, HasControl;
    SuchPathsSplit();
    AsciiIsValid([0x61]);
    AsciiIsValid(DASHED);
    AsciiIsValid([0x61, SLASH, 0x63]);
    assert !HasControl([0x61]) && !HasControl([0x63]) && !HasControl(DASHED) by { LettersOnly(); }
  }

  lemma LettersOnly()
    ensures !HasControl([0x61]) && !HasControl([0x63]) && !HasControl(DASHED)
  {
  }

  lemma SuchPathsSplit()
    ensures Split([0x61]) == [[0x61]] && Split(DASHED) == [DASHED] && Split([0x61, SLASH, 0x63]) == [[0x61], [0x63]]
  {
    var path := [0x61, SLASH, 0x63];
    assert IndexFrom(path, 1, SLASH) == 1 && path[..1] == [0x61] && path[2..] == [0x63];
    assert IndexFrom(DASHED, 2, SLASH) == 3;
    assert Split([0x63]) == [[0x63]];
  }

  lemma ThreeKeys()
    ensures Less([0x61], [0x61, 0x2D, 0x62]) && Less([0x61, 0x2D, 0x62], [0x61, SLASH, 0x63]) && Less([0x61], [0x61, SLASH, 0x63])
    ensures Less([0x61, 0x2D, 0x62], [0x61, SLASH]) && Less([0x61], [0x61, SLASH])
  {
    LessSamePrefix([0x61], [], [0x2D, 0x62]);
    LessSamePrefix([0x61], [0x2D, 0x62], [SLASH, 0x63]);
    LessSamePrefix([0x61], [], [SLASH, 0x63]);
    LessSamePrefix([0x61], [0x2D, 0x62], [SLASH]);
    LessSamePrefix([0x61], [], [SLASH]);
    assert [0x61] + [] == [0x61] && [0x61] + [0x2D, 0x62] == [0x61, 0x2D, 0x62];
    assert [0x61] + [SLASH, 0x63] == [0x61, SLASH, 0x63] && [0x61] + [SLASH] == [0x61, SLASH];
  }

  /** The path continues its predecessor with a byte that sorts before the slash. */
  predicate LowExtension(path: bytes, previous: bytes)
  {
    |path| > |previous| && path[..|previous|] == previous && path[|previous|] < SLASH
  }

  /** Between a directory name and a path below it only extensions of the name sort. */
  lemma {:induction false} Between(dir: bytes, q: bytes, path: bytes)
    requires Less(dir, q) && Less(q, path) && Below(path, dir)
    ensures |q| > |dir| && q[..|dir|] == dir && q[|dir|] <= SLASH
  {
    if dir != [] {
      assert path[..|dir|][0] == dir[0] && path[..|dir|][1..] == dir[1..] == path[1..][..|dir[1..]|];
      Between(dir[1..], q[1..], path[1..]);
      assert q[..|dir|] == [q[0]] + q[1..][..|dir[1..]|];
    }
  }

  /** No path that its successor continues with a byte before the slash is a directory of a later one. */
  predicate LowExtensionsApart(entries: seq<EntryRecord>)
  {
    forall k, j :: 0 < k < j < |entries| && LowExtension(entries[k].path, entries[k - 1].path)
                   ==> !Below(entries[j].path, entries[k - 1].path)
  }

  /** On strictly increasing paths the neighbour check has missed a directory exactly when a path that
      its successor continues with a byte before the slash has a later path below it. */
  lemma NeighbourCheckExact(entries: seq<EntryRecord>)
    requires StrictlySorted(entries, PathOf)
    ensures PrefixFree(entries) <==> NeighboursApart(entries) && LowExtensionsApart(entries)
  {
    hide Less, Below, LowExtension;
    if NeighboursApart(entries) && LowExtensionsApart(entries) {
      forall i, j | 0 <= i < |entries| && 0 <= j < |entries| ensures !Below(entries[j].path, entries[i].path) {
        if Below(entries[j].path, entries[i].path) {
          BelowIsLater(entries, i, j);
          NextIsBelow(entries, i, j);
        }
      }
    } else if !NeighboursApart(entries) {
      var k :| 0 < k < |entries| && (entries[k].path == entries[k - 1].path || Below(entries[k].path, entries[k - 1].path));
      assert Less(PathOf(entries[k - 1]), PathOf(entries[k]));
      LessIrreflexive(entries[k].path);
    }
  }

  /** So it decides prefix-freedom wherever no path is continued so by its successor. */
  lemma NeighbourCheckSuffices(entries: seq<EntryRecord>)
    requires StrictlySorted(entries, PathOf)
    requires forall k :: 0 < k < |entries| ==> !LowExtension(entries[k].path, entries[k - 1].path)
    ensures NeighboursApart(entries) <==> PrefixFree(entries)
  {
    NeighbourCheckExact(entries);
  }

  /** What follows a directory name, when something later is below it. */
  lemma NextIsBelow(entries: seq<EntryRecord>, i: nat, j: nat)
    requires StrictlySorted(entries, PathOf) && i < j < |entries| && Below(entries[j].path, entries[i].path)
    ensures Below(entries[i + 1].path, entries[i].path) || LowExtension(entries[i + 1].path, entries[i].path)
  {
    hide Less;
    if i + 1 < j {
      assert Less(PathOf(entries[i]), PathOf(entries[i + 1])) && Less(PathOf(entries[i + 1]), PathOf(entries[j]));
      Between(entries[i].path, entries[i + 1].path, entries[j].path);
    }
  }

  lemma BelowIsLater(entries: seq<EntryRecord>, i: nat, j: nat)
    requires StrictlySorted(entries, PathOf) && i < |entries| && j < |entries| && Below(entries[j].path, entries[i].path)
    ensures i < j
  {
    var dir, path := entries[i].path, entries[j].path;
    LessSamePrefix(dir, [], path[|dir|..]);
    assert dir + [] == dir && dir + path[|dir|..] == path;
    if j < i {
      assert Less(PathOf(entries[j]), PathOf(entries[i]));
    }
    LessAsymmetric(dir, path);
  }
}
