/** Raw Git tree objects: the binary codec and its budget (internal/gitobj/inspect.go). */
module GitTree {
  import opened Bytes
  import opened Sorting

  datatype GitError = MalformedTree | BudgetExceeded | UnsafePath | UnsupportedMode | MissingObject | PathCollision

  const SPACE: byte := 0x20
  const NUL: byte := 0
  const SLASH: byte := 0x2F

  /** Object identifiers stay raw; their hexadecimal text is one-to-one with them. */
  datatype RawEntry = RawEntry(mode: bytes, name: bytes, oid: bytes)

  const TREE_MODE: bytes := [0x34, 0x30, 0x30, 0x30, 0x30]
  const FILE_MODE: bytes := [0x31, 0x30, 0x30, 0x36, 0x34, 0x34]
  const EXECUTABLE_MODE: bytes := [0x31, 0x30, 0x30, 0x37, 0x35, 0x35]

  predicate IsTree(e: RawEntry)
  {
    e.mode == TREE_MODE
  }

  /** Git orders a directory as if its name ended in a slash. */
  function SortKey(e: RawEntry): bytes
  {
    e.name + if IsTree(e) then [SLASH] else []
  }

  /** What an entry has to be, for object identifiers of `width` bytes. */
  predicate WellFormedEntry(e: RawEntry, width: nat)
  {
    && e.mode != [] && SPACE !in e.mode && e.name != [] && NUL !in e.name && SLASH !in e.name && |e.oid| == width
  }

  function SerializeEntry(e: RawEntry): (r: bytes)
    ensures |r| == |e.mode| + |e.name| + |e.oid| + 2
  {
    e.mode + [SPACE] + e.name + [NUL] + e.oid
  }

  function Serialize(entries: seq<RawEntry>): bytes
  {
    if entries == [] then [] else SerializeEntry(entries[0]) + Serialize(entries[1..])
  }

  // ------------------------------------------------------------- the budget

  const MAX_TREE_DEPTH := 128
  const MAX_TREE_OBJECT_READS := 8192
  const MAX_PATH_BYTES := 4096
  const MAX_COMPONENT_BYTES := 255
  const MAX_METADATA := 0x200_0000

  class TreeBudget {
    const recordLimit: int
    const metadataLimit: int
    const treeObjectLimit: int
    var records: int
    var metadata: int
    var treeObjects: int

    constructor (entryLimit: int)
      ensures records == 0 && metadata == 0 && treeObjects == 0
      ensures treeObjectLimit == if entryLimit + MAX_TREE_DEPTH + 1 > MAX_TREE_OBJECT_READS then MAX_TREE_OBJECT_READS
                                 else entryLimit + MAX_TREE_DEPTH + 1
      ensures recordLimit == entryLimit + treeObjectLimit + 256
      ensures metadataLimit == if recordLimit * MAX_PATH_BYTES > MAX_METADATA then MAX_METADATA else recordLimit * MAX_PATH_BYTES
    {
      var objects := entryLimit + MAX_TREE_DEPTH + 1;
      if objects > MAX_TREE_OBJECT_READS {
        objects := MAX_TREE_OBJECT_READS;
      }
      var record := entryLimit + objects + 256;
      var bytes := record * MAX_PATH_BYTES;
      if bytes > MAX_METADATA {
        bytes := MAX_METADATA;
      }
      recordLimit, metadataLimit, treeObjectLimit := record, bytes, objects;
      records, metadata, treeObjects := 0, 0, 0;
    }

    method AdmitTreeObject() returns (ok: bool)
      modifies this`treeObjects
      ensures treeObjects == old(treeObjects) + 1
      ensures ok <==> treeObjects <= treeObjectLimit
    {
      treeObjects := treeObjects + 1;
      return treeObjects <= treeObjectLimit;
    }
  }

  // -------------------------------------------------------------- the parser

  /** The index of the first `b` in `s` from `i` on, or the length of `s`. */
  function IndexFrom(s: bytes, i: nat, b: byte): (k: nat)
    requires i <= |s|
    ensures i <= k <= |s| && (k < |s| ==> s[k] == b) && b !in s[i..k]
    decreases |s| - i
  {
    if i == |s| || s[i] == b then i
    else
      var k := IndexFrom(s, i + 1, b);
      assert s[i..k] == [s[i]] + s[i + 1..k];
      k
  }

  method IndexByte(s: bytes, i: nat, b: byte) returns (k: nat)
    requires i <= |s|
    ensures k == IndexFrom(s, i, b)
  {
    k := i;
    while k < |s| && s[k] != b
      invariant i <= k <= |s| && IndexFrom(s, k, b) == IndexFrom(s, i, b)
    {
      k := k + 1;
    }
  }

  /** One record: the entry and where it ends. */
  datatype Record = Record(entry: RawEntry, end: nat)

  function RecordAt(raw: bytes, offset: nat, width: nat): (r: Option<Record>)
    requires offset < |raw|
    ensures r.Some? ==> offset < r.value.end <= |raw|
  {
    var space := IndexFrom(raw, offset, SPACE);
    if space == |raw| || space == offset then None
    else
      var nul := IndexFrom(raw, space + 1, NUL);
      if nul == |raw| || nul == space + 1 then None
      else
        var end := nul + 1 + width;
        if end > |raw| || width == 0 || SLASH in raw[space + 1..nul] then None
        else Some(Record(RawEntry(raw[offset..space], raw[space + 1..nul], raw[nul + 1..end]), end))
  }

  /** The entries from `offset` on, after an entry with sort key `prior` (empty at the start). */
  function EntriesFrom(raw: bytes, offset: nat, width: nat, prior: bytes): Option<seq<RawEntry>>
    requires offset <= |raw|
    decreases |raw| - offset
  {
    if offset == |raw| then Some([])
    else
      var r := RecordAt(raw, offset, width);
      if r.None? then None
      else if prior != [] && !Less(prior, SortKey(r.value.entry)) then None
      else
        var rest := EntriesFrom(raw, r.value.end, width, SortKey(r.value.entry));
        if rest.None? then None else Some([r.value.entry] + rest.value)
  }

  /** A tree object without its budgets. */
  function ParseTree(raw: bytes, width: nat): Option<seq<RawEntry>>
  {
    if raw == [] then None else EntriesFrom(raw, 0, width, [])
  }

  /** The boundaries of one record. */
  method ReadRecord(raw: bytes, offset: nat, width: nat) returns (record: Option<Record>)
    requires offset < |raw|
    ensures record == RecordAt(raw, offset, width)
  {
    hide IndexFrom;
    var space := IndexByte(raw, offset, SPACE);
    if space == |raw| || space < offset + 1 {
      return None;
    }
    var nul := IndexByte(raw, space + 1, NUL);
    if nul == |raw| || nul < space + 2 {
      return None;
    }
    var end := nul + 1 + width;
    if end > |raw| || width == 0 {
      return None;
    }
    var name := raw[space + 1..nul];
    if SLASH in name {
      return None;
    }
    return Some(Record(RawEntry(raw[offset..space], name, raw[nul + 1..end]), end));
  }

  method ParseRawTreeObject(raw: bytes, width: nat, budget: TreeBudget) returns (result: Result<seq<RawEntry>, GitError>)
    modifies budget`records, budget`metadata
    ensures budget.records >= old(budget.records) && budget.metadata >= old(budget.metadata)
    ensures result.Ok? ==> ParseTree(raw, width) == Some(result.value)
    ensures result.Ok? ==> budget.records == old(budget.records) + |result.value|
    ensures result.Ok? ==> budget.metadata == old(budget.metadata) + |raw|
    ensures result.Ok? ==> budget.records <= budget.recordLimit && budget.metadata <= budget.metadataLimit
    ensures result == Err(MalformedTree) ==> ParseTree(raw, width) == None
    ensures result.Err? ==> result.error == MalformedTree || result.error == BudgetExceeded
    ensures result == Err(BudgetExceeded) ==> budget.records > budget.recordLimit || budget.metadata > budget.metadataLimit
    ensures result.Err? && ParseTree(raw, width).Some? ==>
              old(budget.records) + |ParseTree(raw, width).value| > budget.recordLimit
              || old(budget.metadata) + |raw| > budget.metadataLimit
  {
    hide RecordAt, SortKey, Less;
    if |raw| == 0 {
      return Err(MalformedTree);
    }
    var entries: seq<RawEntry> := [];
    var prior: bytes := [];
    var offset := 0;
    NothingDone(EntriesFrom(raw, 0, width, []));
    while offset < |raw|
      invariant offset <= |raw|
      invariant budget.records == old(budget.records) + |entries|
      invariant budget.metadata == old(budget.metadata) + offset
      invariant entries != [] ==> budget.records <= budget.recordLimit && budget.metadata <= budget.metadataLimit
      invariant offset > 0 ==> entries != []
      invariant ParseTree(raw, width) == Continued(entries, EntriesFrom(raw, offset, width, prior))
    {
      var record := ReadRecord(raw, offset, width);
      if record.None? {
        return Err(MalformedTree);
      }
      var entry, end := record.value.entry, record.value.end;
      budget.records := budget.records + 1;
      budget.metadata := budget.metadata + (end - offset);
      if budget.records > budget.recordLimit || budget.metadata > budget.metadataLimit {
        return Err(BudgetExceeded);
      }
      var key := SortKey(entry);
      if |prior| > 0 && !Less(prior, key) {
        return Err(MalformedTree);
      }
      OneMoreDone(entries, entry, EntriesFrom(raw, end, width, key));
      prior, entries, offset := key, entries + [entry], end;
    }
    assert entries + [] == entries;
    return Ok(entries);
  }

  function Continued(done: seq<RawEntry>, rest: Option<seq<RawEntry>>): Option<seq<RawEntry>>
  {
    if rest.None? then None else Some(done + rest.value)
  }

  lemma OneMoreDone(done: seq<RawEntry>, e: RawEntry, rest: Option<seq<RawEntry>>)
    ensures Continued(done, if rest.None? then None else Some([e] + rest.value)) == Continued(done + [e], rest)
  {
    if rest.Some? {
      ConcatAssoc(done, [e], rest.value);
    }
  }

  lemma NothingDone(rest: Option<seq<RawEntry>>)
    ensures Continued([], rest) == rest
  {
    if rest.Some? {
      assert [] + rest.value == rest.value;
    }
  }

  // ------------------------------------------------------------ exact inverses

  lemma RecordSerializes(raw: bytes, offset: nat, width: nat)
    requires offset < |raw| && RecordAt(raw, offset, width).Some?
    ensures var r := RecordAt(raw, offset, width).value;
            WellFormedEntry(r.entry, width) && raw[offset..r.end] == SerializeEntry(r.entry)
  {
    hide IndexFrom, SerializeEntry;
    var space := IndexFrom(raw, offset, SPACE);
    var nul := IndexFrom(raw, space + 1, NUL);
    RecordBytes(raw, offset, space, nul, nul + 1 + width);
  }

  lemma RecordBytes(raw: bytes, offset: nat, space: nat, nul: nat, end: nat)
    requires offset <= space < nul < end <= |raw| && raw[space] == SPACE && raw[nul] == NUL
    ensures raw[offset..end] == SerializeEntry(RawEntry(raw[offset..space], raw[space + 1..nul], raw[nul + 1..end]))
  {
    assert raw[space..space + 1] == [SPACE] && raw[nul..nul + 1] == [NUL];
    SlicesJoin(raw, offset, space, space + 1);
    SlicesJoin(raw, offset, space + 1, nul);
    SlicesJoin(raw, offset, nul, nul + 1);
    SlicesJoin(raw, offset, nul + 1, end);
  }

  lemma FirstIndex(raw: bytes, i: nat, part: bytes, b: byte)
    requires At(raw, i, part + [b]) && b !in part
    ensures i + |part| < |raw| && IndexFrom(raw, i, b) == i + |part|
    decreases |part|
  {
    AtIndex(raw, i, part + [b], 0);
    if part != [] {
      assert part + [b] == [part[0]] + (part[1..] + [b]);
      AtSplit(raw, i, [part[0]], part[1..] + [b]);
      FirstIndex(raw, i + 1, part[1..], b);
    }
  }

  lemma RecordParses(raw: bytes, offset: nat, width: nat, e: RawEntry)
    requires At(raw, offset, SerializeEntry(e)) && WellFormedEntry(e, width) && width > 0
    ensures offset < |raw| && RecordAt(raw, offset, width) == Some(Record(e, offset + |SerializeEntry(e)|))
  {
    hide At, IndexFrom, RecordAt;
    var space, nul := offset + |e.mode|, offset + |e.mode| + 1 + |e.name|;
    ConcatAssoc(e.mode + [SPACE], e.name, [NUL]);
    ConcatAssoc(e.mode + [SPACE], e.name + [NUL], e.oid);
    AtSplit(raw, offset, e.mode + [SPACE], (e.name + [NUL]) + e.oid);
    AtSplit(raw, space + 1, e.name + [NUL], e.oid);
    FirstIndex(raw, offset, e.mode, SPACE);
    FirstIndex(raw, space + 1, e.name, NUL);
    Slices(raw, offset, e.mode, [SPACE]);
    Slices(raw, space + 1, e.name, [NUL]);
    Slices(raw, nul + 1, e.oid, []);
    RecordOf(raw, offset, width, space, nul);
  }

  lemma RecordOf(raw: bytes, offset: nat, width: nat, space: nat, nul: nat)
    requires offset < space < nul - 1 && nul + 1 + width <= |raw| && width > 0
    requires IndexFrom(raw, offset, SPACE) == space && IndexFrom(raw, space + 1, NUL) == nul
    requires SLASH !in raw[space + 1..nul]
    ensures RecordAt(raw, offset, width)
      == Some(Record(RawEntry(raw[offset..space], raw[space + 1..nul], raw[nul + 1..nul + 1 + width]), nul + 1 + width))
  {
  }

  lemma Slices(raw: bytes, i: nat, part: bytes, more: bytes)
    requires At(raw, i, part + more) || (more == [] && At(raw, i, part))
    ensures i + |part| <= |raw| && raw[i..i + |part|] == part
  {
    AtSplit(raw, i, part, more);
    assert part + [] == part;
  }

  predicate IncreasingFrom(entries: seq<RawEntry>, prior: bytes)
  {
    entries == [] || ((prior == [] || Less(prior, SortKey(entries[0]))) && IncreasingFrom(entries[1..], SortKey(entries[0])))
  }

  lemma {:induction false} EntriesSerialize(raw: bytes, offset: nat, width: nat, prior: bytes)
    requires offset <= |raw| && EntriesFrom(raw, offset, width, prior).Some?
    ensures var es := EntriesFrom(raw, offset, width, prior).value;
            && Serialize(es) == raw[offset..] && IncreasingFrom(es, prior)
            && forall e <- es :: WellFormedEntry(e, width)
    decreases |raw| - offset
  {
    hide RecordAt, WellFormedEntry, SerializeEntry, SortKey;
    if offset < |raw| {
      var r := RecordAt(raw, offset, width).value;
      RecordSerializes(raw, offset, width);
      EntriesSerialize(raw, r.end, width, SortKey(r.entry));
      var es, rest := EntriesFrom(raw, offset, width, prior).value, EntriesFrom(raw, r.end, width, SortKey(r.entry)).value;
      assert es[0] == r.entry && es[1..] == rest;
      assert raw[offset..] == raw[offset..r.end] + raw[r.end..];
    }
  }

  lemma {:induction false} EntriesParse(raw: bytes, offset: nat, width: nat, prior: bytes, entries: seq<RawEntry>)
    requires offset <= |raw| && raw[offset..] == Serialize(entries) && width > 0 && IncreasingFrom(entries, prior)
    requires forall e <- entries :: WellFormedEntry(e, width)
    ensures EntriesFrom(raw, offset, width, prior) == Some(entries)
    decreases |entries|
  {
    hide RecordAt, WellFormedEntry, SortKey;
    if entries != [] {
      var e := entries[0];
      var end := offset + |SerializeEntry(e)|;
      assert raw[offset..end] == raw[offset..][..|SerializeEntry(e)|] == SerializeEntry(e);
      assert raw[end..] == raw[offset..][|SerializeEntry(e)|..] == Serialize(entries[1..]);
      RecordParses(raw, offset, width, e);
      EntriesParse(raw, end, width, SortKey(e), entries[1..]);
      assert entries == [e] + entries[1..];
    }
  }

  /** Accepted bytes serialise back to themselves. */
  lemma ParseThenSerialize(raw: bytes, width: nat)
    requires ParseTree(raw, width).Some?
    ensures Serialize(ParseTree(raw, width).value) == raw && ParseTree(raw, width).value != []
    ensures StrictlySorted(ParseTree(raw, width).value, SortKey)
    ensures forall e <- ParseTree(raw, width).value :: WellFormedEntry(e, width)
  {
    EntriesSerialize(raw, 0, width, []);
    IncreasingIsSorted(ParseTree(raw, width).value, []);
  }

  /** Every non-empty, well-formed, strictly ordered list of entries parses back from its bytes. */
  lemma SerializeThenParse(entries: seq<RawEntry>, width: nat)
    requires entries != [] && width > 0 && StrictlySorted(entries, SortKey)
    requires forall e <- entries :: WellFormedEntry(e, width)
    ensures ParseTree(Serialize(entries), width) == Some(entries)
  {
    SortedIsIncreasing(entries, []);
    var raw := Serialize(entries);
    assert raw[0..] == raw;
    assert |raw| >= |SerializeEntry(entries[0])|;
    EntriesParse(raw, 0, width, [], entries);
  }

  lemma KeyNotEmpty(e: RawEntry)
    requires e.name != []
    ensures SortKey(e) != []
  {
  }

  lemma {:induction false} IncreasingIsSorted(entries: seq<RawEntry>, prior: bytes)
    requires IncreasingFrom(entries, prior) && forall e <- entries :: e.name != []
    ensures StrictlySorted(entries, SortKey)
    ensures prior != [] ==> forall e <- entries :: Less(prior, SortKey(e))
  {
    hide SortKey;
    if entries != [] {
      var rest := entries[1..];
      KeyNotEmpty(entries[0]);
      IncreasingIsSorted(rest, SortKey(entries[0]));
      forall i, j | 0 <= i < j < |entries| ensures Less(SortKey(entries[i]), SortKey(entries[j])) {
        if i > 0 {
          assert Less(SortKey(rest[i - 1]), SortKey(rest[j - 1]));
        } else {
          assert rest[j - 1] in rest;
        }
      }
      if prior != [] {
        forall e <- entries ensures Less(prior, SortKey(e)) {
          if e != entries[0] {
            assert e in rest;
            LessTransitive(prior, SortKey(entries[0]), SortKey(e));
          }
        }
      }
    }
  }

  lemma SortedIsIncreasing(entries: seq<RawEntry>, prior: bytes)
    requires StrictlySorted(entries, SortKey) && (prior == [] || entries == [] || Less(prior, SortKey(entries[0])))
    ensures IncreasingFrom(entries, prior)
  {
    hide SortKey;
    if |entries| > 1 {
      assert Less(SortKey(entries[0]), SortKey(entries[1]));
      SortedIsIncreasing(entries[1..], SortKey(entries[0]));
    }
  }
}
