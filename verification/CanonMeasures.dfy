/** The measures behind the printer's limits: it accepts a value exactly when the value is well
    formed and its height, nodes and string bytes fit. */
module CanonMeasures {
  import opened Bytes
  import opened Sorting
  import opened CanonLimits
  import opened Decimal
  import opened Utf8
  import opened CanonValue

  /** Everything the printer checks that is not a budget. */
  predicate WellFormed(v: Value)
  {
    match v
    case Null => true
    case Bool(_) => true
    case Integer(n) => SafeInteger(n)
    case Text(s) => ValidUtf8(s)
    case Array(elems) =>
      |elems| <= MAX_CONTAINER_MEMBERS && forall k :: 0 <= k < |elems| ==> WellFormed(elems[k])
    case Object(members) =>
      && |members| <= MAX_CONTAINER_MEMBERS
      && (forall k :: 0 <= k < |members| ==> ValidUtf8(members[k].name) && WellFormed(members[k].value))
      && StrictlySorted(members, MemberName)
  }

  function Max(a: nat, b: nat): nat
  {
    if a > b then a else b
  }

  /** Levels of nesting below a value. */
  function Height(v: Value): nat
    decreases v, 0
  {
    match v
    case Array(elems) => HeightElems(elems, 0)
    case Object(members) => HeightMembers(members, 0)
    case _ => 0
  }

  function HeightElems(elems: seq<Value>, k: nat): nat
    requires k <= |elems|
    decreases elems, 1, |elems| - k
  {
    if k == |elems| then 0 else Max(1 + Height(elems[k]), HeightElems(elems, k + 1))
  }

  function HeightMembers(members: seq<Member>, k: nat): nat
    requires k <= |members|
    decreases members, 1, |members| - k
  {
    if k == |members| then 0 else Max(1 + Height(members[k].value), HeightMembers(members, k + 1))
  }

  function Nodes(v: Value): nat
    decreases v, 0
  {
    match v
    case Array(elems) => 1 + NodesElems(elems, 0)
    case Object(members) => 1 + NodesMembers(members, 0)
    case _ => 1
  }

  function NodesElems(elems: seq<Value>, k: nat): nat
    requires k <= |elems|
    decreases elems, 1, |elems| - k
  {
    if k == |elems| then 0 else Nodes(elems[k]) + NodesElems(elems, k + 1)
  }

  function NodesMembers(members: seq<Member>, k: nat): nat
    requires k <= |members|
    decreases members, 1, |members| - k
  {
    if k == |members| then 0 else Nodes(members[k].value) + NodesMembers(members, k + 1)
  }

  function StringBytes(v: Value): nat
    decreases v, 0
  {
    match v
    case Text(s) => |s|
    case Array(elems) => StringBytesElems(elems, 0)
    case Object(members) => StringBytesMembers(members, 0)
    case _ => 0
  }

  function StringBytesElems(elems: seq<Value>, k: nat): nat
    requires k <= |elems|
    decreases elems, 1, |elems| - k
  {
    if k == |elems| then 0 else StringBytes(elems[k]) + StringBytesElems(elems, k + 1)
  }

  function StringBytesMembers(members: seq<Member>, k: nat): nat
    requires k <= |members|
    decreases members, 1, |members| - k
  {
    if k == |members| then 0
    else |members[k].name| + StringBytes(members[k].value) + StringBytesMembers(members, k + 1)
  }

  /** The usage after charging `nodes` and `stringBytes` more, when that fits. */
  function Charged(u: Usage, nodes: nat, stringBytes: nat): Option<Usage>
  {
    if u.nodes + nodes <= MAX_TYPED_NODES && u.stringBytes + stringBytes <= MAX_TYPED_STRING_BYTES
    then Some(Usage(u.nodes + nodes, u.stringBytes + stringBytes))
    else None
  }

  predicate Within(u: Usage)
  {
    u.nodes <= MAX_TYPED_NODES && u.stringBytes <= MAX_TYPED_STRING_BYTES
  }

  /** `r` is a success exactly when `fits` holds and the charge fits, and then it is the charge. */
  predicate ExactCharge(r: Checked<Usage>, fits: bool, u: Usage, nodes: nat, stringBytes: nat)
  {
    if fits && Charged(u, nodes, stringBytes).Some? then r == Ok(Charged(u, nodes, stringBytes).value) else r.Err?
  }

  /** The printer's budget walk, in closed form: it refuses exactly what is malformed, too deep,
      too large or too long, and otherwise spends one unit per node and per string byte. */
  lemma {:induction false} ChargeExact(v: Value, u: Usage, depth: nat)
    requires Within(u)
    ensures ExactCharge(Charge(v, u, depth), WellFormed(v) && depth + Height(v) <= MAX_NESTING_DEPTH, u, Nodes(v),
                        StringBytes(v))
    decreases v, 0
  {
    if depth <= MAX_NESTING_DEPTH && EnterUsage(u).Ok? {
      var u1 := EnterUsage(u).value;
      match v
      case Array(elems) => ChargeElemsExact(elems, 0, u1, depth + 1);
      case Object(members) => ChargeMembersExact(members, 0, u1, depth + 1);
                              SortedByNeighbours(members);
      case _ =>
    }
  }

  lemma {:induction false} ChargeElemsExact(elems: seq<Value>, k: nat, u: Usage, depth: nat)
    requires Within(u) && k <= |elems| && 0 < depth <= MAX_NESTING_DEPTH + 1
    ensures ExactCharge(ChargeElems(elems, k, u, depth),
                        (forall i :: k <= i < |elems| ==> WellFormed(elems[i]))
                        && depth - 1 + HeightElems(elems, k) <= MAX_NESTING_DEPTH,
                        u, NodesElems(elems, k), StringBytesElems(elems, k))
    decreases elems, 1, |elems| - k
  {
    if k < |elems| {
      ChargeExact(elems[k], u, depth);
      if Charge(elems[k], u, depth).Ok? {
        ChargeElemsExact(elems, k + 1, Charge(elems[k], u, depth).value, depth);
      }
    }
  }

  /** Each name from `k` on is valid UTF-8 and above the one before it. */
  predicate NamesAscend(members: seq<Member>, k: nat)
  {
    forall i :: k <= i < |members| ==>
                  && ValidUtf8(members[i].name)
                  && (i > 0 ==> Less(members[i - 1].name, members[i].name))
  }

  lemma {:induction false} ChargeMembersExact(members: seq<Member>, k: nat, u: Usage, depth: nat)
    requires Within(u) && k <= |members| && 0 < depth <= MAX_NESTING_DEPTH + 1
    ensures ExactCharge(ChargeMembers(members, k, u, depth),
                        NamesAscend(members, k)
                        && (forall i :: k <= i < |members| ==> WellFormed(members[i].value))
                        && depth - 1 + HeightMembers(members, k) <= MAX_NESTING_DEPTH,
                        u, NodesMembers(members, k), StringBytesMembers(members, k))
    decreases members, 1, |members| - k
  {
    if k < |members| {
      if ChargeName(members, k, u).Ok? {
        var u1 := ChargeName(members, k, u).value;
        ChargeExact(members[k].value, u1, depth);
        if Charge(members[k].value, u1, depth).Ok? {
          ChargeMembersExact(members, k + 1, Charge(members[k].value, u1, depth).value, depth);
        }
      }
    }
  }

  /** Comparing each name with its neighbour is enough for strict order throughout. */
  lemma SortedByNeighbours(members: seq<Member>)
    ensures StrictlySorted(members, MemberName) <==>
            forall i :: 0 < i < |members| ==> Less(members[i - 1].name, members[i].name)
  {
    if forall i :: 0 < i < |members| ==> Less(members[i - 1].name, members[i].name) {
      forall i, j | 0 <= i < j < |members| ensures Less(MemberName(members[i]), MemberName(members[j])) {
        NeighboursChain(members, i, j);
      }
    }
    if StrictlySorted(members, MemberName) {
      forall i | 0 < i < |members| ensures Less(members[i - 1].name, members[i].name) {
        assert Less(MemberName(members[i - 1]), MemberName(members[i]));
      }
    }
  }

  lemma {:induction false} NeighboursChain(members: seq<Member>, i: nat, j: nat)
    requires i < j < |members|
    requires forall k :: 0 < k < |members| ==> Less(members[k - 1].name, members[k].name)
    ensures Less(members[i].name, members[j].name)
    decreases j - i
  {
    assert Less(members[j - 1].name, members[j].name);
    if i < j - 1 {
      NeighboursChain(members, i, j - 1);
      LessTransitive(members[i].name, members[j - 1].name, members[j].name);
    }
  }

  /** `CanonicalChecked` accepts exactly the well-formed values within every limit. */
  lemma PrintableExactly(v: Value)
    ensures Printable(v) <==>
            && WellFormed(v)
            && Height(v) <= MAX_NESTING_DEPTH
            && Nodes(v) <= MAX_TYPED_NODES
            && StringBytes(v) <= MAX_TYPED_STRING_BYTES
  {
    ChargeExact(v, NO_USAGE, 0);
  }
}
