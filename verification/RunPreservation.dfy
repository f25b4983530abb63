/** When the maps of two runs preserve each other, said of what was measured and observed in them. */
module RunPreservation {
  import opened Bytes
  import opened Sorting
  import opened Domain
  import opened Schedule
  import Envelopes
  import Assessment
  import opened MatrixRecords
  import opened Classification
  import opened ObservationRun
  import OutcomeMap
  import opened RunOutcome

  /** The rows of the first matrix. */
  function FirstRows(env: Environment, run: Run): seq<Assessment.Measurements>
    requires Returned(env, 0, |run.schedule.roster|)
  {
    Rows(env, 0, |run.schedule.roster|)
  }

  /** The map of a run whose input is accepted. */
  function MapOfRun(run: Run): OutcomeMap.CandidateOutcomeMap
    requires run.batches != []
  {
    OutcomeMap.MapOf(run.batches[0].binding.stimulus, run.batches[0].envelope, run.schedule.roster, run.batches)
  }

  /** A run with a map: sound, explained, with an acceptable input. */
  ghost predicate Mapped(env: Environment, config: RunConfig, run: Run, asked: Asked)
  {
    SoundRun(run) && Told(env, config, run, asked) && run.mapInput.Some? && OneProjection(run.batches)
  }

  lemma MappedParts(env: Environment, config: RunConfig, run: Run, asked: Asked)
    requires Mapped(env, config, run, asked)
    ensures run.batches != [] && NoRepeats(run.schedule.roster) && run.schedule.roster != []
    ensures OutcomeMap.SoundBatches(run.batches[0].binding.stimulus, run.batches[0].envelope, run.schedule.roster, run.batches)
  {
    hide SoundRun, Told, OutcomeMap.SoundBatches, ValidCandidate, ValidDigest, Less;
    InputOfRun(run);
    RunMapsExactly(run);
    SortByIdempotent(run.schedule.roster, Itself);
  }

  /** The first matrix was admitted so, and the batches record it. */
  ghost predicate Founds(env: Environment, config: RunConfig, run: Run, a: Assessment.Admission)
    requires Returned(env, 0, |run.schedule.roster|) && run.batches != []
  {
    && AdmittedBy(config.envelope, FirstRows(env, run), a) && Assessment.BasisOf(a) == run.batches[0].basis
    && a.envelope == run.batches[0].envelope && a.binding.plan == run.batches[0].binding.plan && a.roster == run.schedule.roster
  }

  /** The first matrix of a run, and what its batches record of it. */
  lemma FirstMatrix(env: Environment, config: RunConfig, run: Run, asked: Asked)
    requires Mapped(env, config, run, asked) && run.batches != []
    ensures Returned(env, 0, |run.schedule.roster|)
    ensures exists a :: Founds(env, config, run, a)
  {
    hide SoundRun, TrialsAreReplies, AdmittedBy, Returned, Rows, OneProjection;
    RunBatch(run, 0);
    AdmissionNamesRoster(run, 0);
    var a := run.batches[0].trials[0].token.admission;
    assert MatrixAdmitted(env, config.envelope, |run.schedule.roster|, 0, a);
    assert |run.schedule.roster| * 0 == 0;
    assert Founds(env, config, run, a);
  }

  /** The maps of two runs under one acceptable envelope preserve each other exactly when plan and roster
      agree, the first matrices measured the same values in all checked dimensions, and every candidate has
      the same verdict in both. */
  lemma RunsPreserveExactly(env: Environment, config: RunConfig, run: Run, asked: Asked,
                            env2: Environment, config2: RunConfig, run2: Run, asked2: Asked)
    requires Mapped(env, config, run, asked) && Mapped(env2, config2, run2, asked2)
    requires config.envelope == config2.envelope && Envelopes.Acceptable(config.envelope.config)
    ensures run.batches != [] && run2.batches != []
    ensures Returned(env, 0, |run.schedule.roster|) && Returned(env2, 0, |run2.schedule.roster|)
    ensures OutcomeMap.Assess(MapOfRun(run), MapOfRun(run2)) == OutcomeMap.Preserves <==>
      && run.schedule.roster == run2.schedule.roster && run.batches[0].binding.plan == run2.batches[0].binding.plan
      && SameMeasured(config.envelope.config, FirstRows(env, run), FirstRows(env2, run2))
      && OutcomeMap.SameVerdicts(run.batches, run2.batches)
  {
    hide Mapped, OutcomeMap.SoundBatches, OutcomeMap.MapOf, OutcomeMap.Assess, OutcomeMap.SameVerdicts, SameMeasured, AdmittedBy,
      Envelopes.Acceptable, Returned, Rows;
    MappedParts(env, config, run, asked);
    MappedParts(env2, config2, run2, asked2);
    FirstMatrix(env, config, run, asked);
    FirstMatrix(env2, config2, run2, asked2);
    var a :| Founds(env, config, run, a);
    var b :| Founds(env2, config2, run2, b);
    SameBasisExactly(config.envelope, FirstRows(env, run), a, FirstRows(env2, run2), b);
    AdmissionExactly(config.envelope, FirstRows(env, run), a);
    AdmissionExactly(config2.envelope, FirstRows(env2, run2), b);
    OutcomeMap.BuiltPreservesExactly(run.batches[0].binding.stimulus, run.batches[0].envelope, run.schedule.roster, run.batches,
                                     run2.batches[0].binding.stimulus, run2.batches[0].envelope, run2.schedule.roster, run2.batches);
  }
}
