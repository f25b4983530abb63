/** Refusal codes, resource limits and the traversal budget (error.go, limits.go). */
module CanonLimits {
  import opened Bytes

  datatype ErrorCode =
    | InvalidUtf8
    | UnexpectedByte
    | UnexpectedEof
    | InvalidLiteral
    | InvalidEscape
    | LoneSurrogate
    | ControlCharacter
    | UnsupportedNumber
    | NegativeZero
    | UnsafeInteger
    | DuplicateKey
    | UnexpectedToken
    | TrailingData
    | DepthExceeded
    | InputLimit
    | TokenLimit
    | MemberLimit
    | TypedNodeLimit
    | TypedByteLimit
    | InvalidValue
    | RuntimePanic // an out-of-range read, which Go turns into a panic

  type Checked<+T> = Result<T, ErrorCode>

  const MAX_INPUT_BYTES: nat := 0x10_0000
  const MAX_TOKEN_COUNT: nat := 0x2_0000
  const MAX_CONTAINER_MEMBERS: nat := 0x4000
  const MAX_TYPED_NODES: nat := MAX_TOKEN_COUNT
  const MAX_TYPED_STRING_BYTES: nat := 0x10_0000
  const MAX_NESTING_DEPTH: nat := 256
  const MAX_SAFE_INTEGER: int := 0x1F_FFFF_FFFF_FFFF

  /** The value of a traversal budget. */
  datatype Usage = Usage(nodes: nat, stringBytes: nat)

  const NO_USAGE: Usage := Usage(0, 0)

  function EnterUsage(u: Usage): Checked<Usage>
  {
    if u.nodes + 1 > MAX_TYPED_NODES then Err(TypedNodeLimit) else Ok(u.(nodes := u.nodes + 1))
  }

  function AddStringUsage(u: Usage, length: nat): Checked<Usage>
  {
    if length > MAX_TYPED_STRING_BYTES - u.stringBytes then Err(TypedByteLimit)
    else Ok(u.(stringBytes := u.stringBytes + length))
  }

  class TraversalBudget {
    var nodes: nat
    var stringBytes: nat

    constructor ()
      ensures Spent() == NO_USAGE
    {
      nodes, stringBytes := 0, 0;
    }

    ghost function Spent(): Usage
      reads this
    {
      Usage(nodes, stringBytes)
    }

    method Enter() returns (r: Checked<()>)
      modifies this
      ensures r == (match EnterUsage(old(Spent())) case Ok(_) => Ok(()) case Err(e) => Err(e))
      ensures r.Ok? ==> Spent() == EnterUsage(old(Spent())).value
      ensures nodes == old(nodes) + 1 && stringBytes == old(stringBytes)
    {
      nodes := nodes + 1;
      if nodes > MAX_TYPED_NODES {
        return Err(TypedNodeLimit);
      }
      return Ok(());
    }

    method AddString(length: nat) returns (r: Checked<()>)
      modifies this
      ensures r == (match AddStringUsage(old(Spent()), length) case Ok(_) => Ok(()) case Err(e) => Err(e))
      ensures r.Ok? ==> Spent() == AddStringUsage(old(Spent()), length).value
      ensures nodes == old(nodes) && stringBytes == old(stringBytes) + if r.Ok? then length else 0
    {
      if length > MAX_TYPED_STRING_BYTES - stringBytes {
        return Err(TypedByteLimit);
      }
      stringBytes := stringBytes + length;
      return Ok(());
    }
  }
}
