/** Identities shared by the observation, comparison and choice layers. A domain-separated digest
    of a record built in this model is represented by that record; a digest that arrives from
    outside is its text. */
module Domain {
  import opened Bytes

  type Digest = bytes
  type Candidate = bytes

  function Ascii(s: string): (r: bytes)
    ensures |r| == |s|
  {
    seq(|s|, i requires 0 <= i < |s| => s[i] as int % 256)
  }

  predicate LowerHex(b: byte)
  {
    0x30 <= b <= 0x39 || 0x61 <= b <= 0x66
  }

  /** A tag followed by 64 lower-case hexadecimal digits. */
  predicate TaggedHex(tag: bytes, s: bytes)
  {
    |s| == |tag| + 64 && s[..|tag|] == tag && forall i :: |tag| <= i < |s| ==> LowerHex(s[i])
  }

  predicate ValidDigest(d: Digest)
  {
    TaggedHex(Ascii("sha256:"), d)
  }

  predicate ValidCandidate(c: Candidate)
  {
    TaggedHex(Ascii("candidate:"), c)
  }

  datatype Purpose = Discovery | Reduction | FinalSweep | Confirmation | Conformance | OtherPurpose(text: bytes)

  predicate ValidPurpose(p: Purpose)
  {
    !p.OtherPurpose?
  }

  /** The sort key of a list of byte strings. */
  function Itself(b: bytes): bytes
  {
    b
  }

  predicate NoRepeats(s: seq<bytes>)
  {
    forall i, j :: 0 <= i < j < |s| ==> s[i] != s[j]
  }

  function SetOf(raw: seq<bytes>): set<bytes>
  {
    set x | x in raw
  }

  datatype Control =
    | MaterializationError | SetupError | StartError | ReadinessError | ProbeTransportError | Timeout
    | Cancelled | OutputLimit | ProjectionRejected | OrphanRisk | TeardownError | EnvelopeRejected
    | UnsupportedGitMode | MissingObject | BudgetExhausted | OtherControl(text: bytes)

  /** What every comparable row and trial of one run has in common. */
  datatype Binding = Binding(plan: Digest, stimulus: Digest, purpose: Purpose, requiredTrials: int)

  /** `WorldInstance`: the allocation identity of one attempt. */
  datatype World = World(
    digest: Digest, candidate: Candidate, binding: Binding, envelope: Digest,
    capturePolicy: Digest, definition: Digest, attempt: Digest, ordinal: int)

  /** `FinalizedAttempt`. */
  datatype Attempt = Attempt(digest: Digest, purpose: Purpose, primary: Option<Control>, teardown: seq<Control>)
  {
    predicate HasControls() { primary.Some? || teardown != [] }
  }

}
