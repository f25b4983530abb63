/** Trial facts, the eligibility gate, and what one candidate's trials add up to. */
module Eligibility {
  import opened Bytes
  import opened Domain
  import opened Assessment

  type Fingerprint = Digest

  /** `StructuralCapture`. */
  datatype Capture = Capture(
    observation: Digest, projection: Digest, derivation: Digest, fingerprint: Fingerprint,
    world: Digest, attempt: Digest, capturePolicy: Digest, definition: Digest)

  /** `ProjectionRejectionEvidence`; `sound` says that its own digest rebuilds. */
  datatype RejectionEvidence = RejectionEvidence(
    sound: bool, world: Digest, attempt: Digest, candidate: Candidate, capturePolicy: Digest,
    observation: Digest, definition: Digest)

  datatype TrialFact =
    | CapturedFact(world: World, attempt: Attempt, token: Token, capture: Capture)
    | ControlledFact(world: World, attempt: Attempt, token: Token, controls: seq<Control>, rejection: Option<RejectionEvidence>)

  datatype ObserveError =
    | TrialLineageMismatch | CapturedTrialHasControl | IncompleteCapture | CaptureLineageMismatch
    | NoControl | EnvelopeRejectionHasNoToken | RejectionHasControl | InvalidRejectionEvidence
    | InvalidAuthority | NotInRoster | MissingEvidence | RepeatMismatch | RepeatAuthorityMismatch | SlotMismatch
    | InvalidBatchIdentity | InvalidRepeatCount | ExtraTrials | NegativeOrdinal | DuplicateOrdinal | UnorderedOrdinals
    | InvalidTrialIdentity | BatchLineageMismatch | NotInAdmission | MixedRoster | ReusedAttemptEvidence
    | ReusedWorld | InvalidAdmission | ReusedAdmission | InvalidObservation | ReusedObservation
    | InvalidControl | InvalidClassification

  predicate ValidRoster(roster: seq<Candidate>)
  {
    && 2 <= |roster| <= 4 && (forall c <- roster :: ValidCandidate(c))
    && forall i :: 0 < i < |roster| ==> Less(roster[i - 1], roster[i])
  }

  predicate ValidToken(t: Token)
  {
    && ValidDigest(t.admission.envelope) && ValidDigest(t.measurement) && ValidDigest(t.subject)
    && SoundBinding(t.admission.binding) && ValidRoster(t.admission.roster)
  }

  predicate SoundLineage(world: World, attempt: Attempt, token: Token)
  {
    && ValidDigest(world.digest) && ValidDigest(attempt.digest) && world.attempt == attempt.digest
    && world.binding.purpose == attempt.purpose && ValidToken(token) && token.subject == world.digest
    && token.admission.binding == world.binding && token.admission.envelope == world.envelope
  }

  predicate CompleteCapture(c: Capture)
  {
    ValidDigest(c.observation) && ValidDigest(c.projection) && ValidDigest(c.derivation) && ValidDigest(c.fingerprint)
  }

  predicate CaptureOf(c: Capture, world: World, attempt: Attempt)
  {
    && c.world == world.digest && c.attempt == attempt.digest
    && c.capturePolicy == world.capturePolicy && c.definition == world.definition
  }

  predicate RejectionOf(r: RejectionEvidence, world: World, attempt: Attempt)
  {
    && r.sound && r.world == world.digest && r.attempt == attempt.digest && r.candidate == world.candidate
    && r.capturePolicy == world.capturePolicy && r.definition == world.definition
  }

  function NewCapturedTrial(world: World, attempt: Attempt, token: Token, capture: Capture): Result<TrialFact, ObserveError>
  {
    if !SoundLineage(world, attempt, token) then Err(TrialLineageMismatch)
    else if attempt.HasControls() then Err(CapturedTrialHasControl)
    else if !CompleteCapture(capture) then Err(IncompleteCapture)
    else if !CaptureOf(capture, world, attempt) then Err(CaptureLineageMismatch)
    else Ok(CapturedFact(world, attempt, token, capture))
  }

  function FinalizedControls(attempt: Attempt): seq<Control>
  {
    (if attempt.primary.Some? then [attempt.primary.value] else []) + attempt.teardown
  }

  function NewControlledTrial(world: World, attempt: Attempt, token: Token): Result<TrialFact, ObserveError>
  {
    if !SoundLineage(world, attempt, token) then Err(TrialLineageMismatch)
    else
      var controls := FinalizedControls(attempt);
      if controls == [] then Err(NoControl)
      else if EnvelopeRejected in controls then Err(EnvelopeRejectionHasNoToken)
      else Ok(ControlledFact(world, attempt, token, controls, None))
  }

  function NewProjectionRejectedTrial(world: World, attempt: Attempt, token: Token, rejection: RejectionEvidence)
    : Result<TrialFact, ObserveError>
  {
    if !SoundLineage(world, attempt, token) then Err(TrialLineageMismatch)
    else if attempt.HasControls() then Err(RejectionHasControl)
    else if !RejectionOf(rejection, world, attempt) then Err(InvalidRejectionEvidence)
    else Ok(ControlledFact(world, attempt, token, [ProjectionRejected], Some(rejection)))
  }

  // ------------------------------------------------------------ eligibility

  predicate TeardownControl(c: Control)
  {
    c == TeardownError || c == OrphanRisk
  }

  /** `eligibilitycore.Select` on a control fact: one to three post-admission controls without
      repeats, only teardown findings after the first. */
  predicate Selectable(controls: seq<Control>)
  {
    && 1 <= |controls| <= 3
    && (forall c <- controls :: !c.OtherControl? && c != EnvelopeRejected)
    && (forall i, j :: 0 <= i < j < |controls| ==> controls[i] != controls[j])
    && (forall i :: 0 < i < |controls| ==> TeardownControl(controls[i]))
  }

  datatype Eligibility = Eligible(fingerprint: Fingerprint) | Ineligible(reasons: seq<Control>)

  function EligibilityOf(fact: TrialFact): (e: Eligibility)
    ensures e.Ineligible? ==> e.reasons != [] && forall c <- e.reasons :: !c.OtherControl?
    ensures e.Eligible? ==> fact.CapturedFact? && !fact.attempt.HasControls() && fact.token.subject == fact.world.digest
    ensures e.Eligible? ==> e.fingerprint == fact.capture.fingerprint
  {
    match fact
    case ControlledFact(_, _, _, controls, _) =>
      Ineligible(if Selectable(controls) then controls else [ProjectionRejected])
    case CapturedFact(world, attempt, token, capture) =>
      if ValidDigest(world.digest) && ValidDigest(attempt.digest) && !attempt.HasControls() && ValidToken(token)
         && token.subject == world.digest && ValidDigest(capture.observation) && ValidDigest(capture.projection)
         && ValidDigest(capture.fingerprint)
      then Eligible(capture.fingerprint)
      else Ineligible([ProjectionRejected])
  }

  function ObservationOf(fact: TrialFact): Option<Digest>
  {
    match fact
    case CapturedFact(_, _, _, capture) => Some(capture.observation)
    case ControlledFact(_, _, _, _, rejection) =>
      if rejection.Some? && rejection.value.sound then Some(rejection.value.observation) else None
  }

  /** A captured trial is eligible with its own fingerprint, a controlled one never is. */
  lemma FactsAreClassified(world: World, attempt: Attempt, token: Token, capture: Capture, rejection: RejectionEvidence)
    ensures NewCapturedTrial(world, attempt, token, capture).Ok? ==>
      EligibilityOf(NewCapturedTrial(world, attempt, token, capture).value) == Eligible(capture.fingerprint)
    ensures NewControlledTrial(world, attempt, token).Ok? ==>
      EligibilityOf(NewControlledTrial(world, attempt, token).value).Ineligible?
    ensures NewProjectionRejectedTrial(world, attempt, token, rejection).Ok? ==>
      EligibilityOf(NewProjectionRejectedTrial(world, attempt, token, rejection).value) == Ineligible([ProjectionRejected])
  {
    hide ValidDigest, ValidToken;
  }
}
