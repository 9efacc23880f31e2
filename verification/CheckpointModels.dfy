/** The checkpoint specifications of the two games: every reachable state of either can be
    captured and restored unchanged, and its continuation repeats from the checkpoint. */
module CheckpointModels {
  import opened Prelude
  import Checkpoint
  import Naming
  import Commons
  import CommonsMemory
  import CommonsRestore
  import NamingStep
  import CommonsStep
  import Tapes

  /** load_state of the naming game: edge ages are recomputed, then everything is checked. */
  ghost function LoadNaming(c: Naming.Config, tick: nat, s: Naming.State): Option<Naming.State> {
    var t := s.(config := c, tick := tick, recentEdges := Naming.Aged(s.recentEdges, tick));
    if Naming.Loadable(t) then Some(t) else None
  }

  /** load_state of the commons. */
  ghost function LoadCommons(c: Commons.Config, tick: nat, s: Commons.State): Option<Commons.State> {
    if CommonsRestore.Loadable(c, s.resources, s.agents, s.messages) then Some(s.(config := c, tick := tick)) else None
  }

  /** A reachable naming state survives capture and restore exactly when the clock and the
      cursor are in range; with two decisions a tick, the cursor may leave it first. */
  lemma {:induction false} NamingCheckpointIff(spec: Checkpoint.Spec<Naming.Config, Naming.State>, s: Naming.State,
                                               log: seq<Naming.Meeting>, rng: nat, policyRng: nat, cursor: nat,
                                               usesProvider: bool)
    requires spec.load == ((c, tick, t) => LoadNaming(c, tick, t)) && spec.validConfig(s.config)
    requires Naming.Consistent(s, log)
    ensures var core := Checkpoint.Core(s.config, s.tick, rng, policyRng, s);
            var payload := Checkpoint.Captured(spec, core, cursor, usesProvider);
            Checkpoint.Restored(spec, payload, usesProvider) == Some(core) <==>
            s.tick <= LIMIT && cursor <= LIMIT
  {
    var core := Checkpoint.Core(s.config, s.tick, rng, policyRng, s);
    Checkpoint.CaptureRestoresIff(spec, core, cursor, usesProvider);
    if s.tick <= LIMIT {
      Naming.ReachableIsLoadable(s, log);
      assert Naming.Aged(s.recentEdges, s.tick) == s.recentEdges;
    }
  }

  /** A reachable commons state survives capture and restore under the same condition. */
  lemma {:induction false} CommonsCheckpointIff(spec: Checkpoint.Spec<Commons.Config, Commons.State>, s: Commons.State,
                                                log: seq<Commons.Event>, rng: nat, policyRng: nat, cursor: nat,
                                                usesProvider: bool)
    requires spec.load == ((c, tick, t) => LoadCommons(c, tick, t)) && spec.validConfig(s.config)
    requires Commons.Sound(s) && CommonsMemory.Consistent(s, log)
    ensures var core := Checkpoint.Core(s.config, s.tick, rng, policyRng, s);
            var payload := Checkpoint.Captured(spec, core, cursor, usesProvider);
            Checkpoint.Restored(spec, payload, usesProvider) == Some(core) <==>
            s.tick <= LIMIT && cursor <= LIMIT
  {
    var core := Checkpoint.Core(s.config, s.tick, rng, policyRng, s);
    Checkpoint.CaptureRestoresIff(spec, core, cursor, usesProvider);
    if s.tick <= LIMIT {
      CommonsRestore.ReachableIsLoadable(s, log);
    }
  }

  /** From a reachable naming game every continuation, with failures, retries, treatments and
      further rewinds, repeats from its checkpoint, exactly when clock and cursor are in range. */
  lemma {:induction false} NamingContinuationRepeats(
        spec: Checkpoint.Spec<Naming.Config, Naming.State>, d: NamingStep.Draws, core: NamingStep.Full, t: Tapes.Tape)
    requires spec.load == ((c, tick, s) => LoadNaming(c, tick, s)) && spec.validConfig(core.config)
    requires NamingStep.Reachable(core)
    ensures forall moves {:trigger Checkpoint.Continues(spec, NamingStep.NamingClient(d), core, t, moves)} ::
              Checkpoint.Continues(spec, NamingStep.NamingClient(d), core, t, moves) <==>
              core.tick <= LIMIT && t.cursor <= LIMIT
  {
    var log :| NamingStep.AgreesWith(core, log);
    NamingCheckpointIff(spec, core.state, log, core.rng, core.policyRng, t.cursor, true);
    Checkpoint.CaptureRestoresIff(spec, core, t.cursor, true);
    forall moves {:trigger Checkpoint.Continues(spec, NamingStep.NamingClient(d), core, t, moves)}
      ensures Checkpoint.Continues(spec, NamingStep.NamingClient(d), core, t, moves) <==>
              core.tick <= LIMIT && t.cursor <= LIMIT
    {
      Checkpoint.RestoredFutureRepeats(spec, NamingStep.NamingClient(d), core, t, moves);
    }
  }

  /** Yet a reachable game restored at the last accepted cursor can complete a step whose
      recording no longer opens. */
  lemma {:induction false} NamingRecordingCanOutrun(
        spec: Checkpoint.Spec<Naming.Config, Naming.State>, d: NamingStep.Draws, core: NamingStep.Full)
    requires spec.load == ((c, tick, s) => LoadNaming(c, tick, s)) && spec.validConfig(core.config)
    requires NamingStep.Reachable(core) && core.tick <= LIMIT
    requires var prompts := NamingStep.Prompts(d, core).0;
             |prompts| == 2 && Tapes.Fits(prompts[0]) && Tapes.Fits(prompts[1])
    ensures var good := Tapes.Answer(Spelled("Q"), [], []);
            var restored := Checkpoint.Restored(spec, Checkpoint.Captured(spec, core, LIMIT, true), true);
            && restored == Some(core)
            && var (_, t, completed) := Tapes.Step(NamingStep.NamingClient(d), restored.value,
                                                   Tapes.LiveTape(2).(cursor := LIMIT),
                                                   [Tapes.Completed(good, 0), Tapes.Completed(good, 0)]);
               completed && Tapes.Load(t.recording).None?
  {
    var log :| NamingStep.AgreesWith(core, log);
    NamingCheckpointIff(spec, core.state, log, core.rng, core.policyRng, 0, true);
    Checkpoint.CaptureRestoresIff(spec, core, 0, true);
    var prompts := NamingStep.Prompts(d, core).0;
    assert prompts == [prompts[0], prompts[1]];
    Checkpoint.RestoredStepOutrunsRecording(spec, NamingStep.NamingClient(d), core, prompts[0], prompts[1],
                                            Tapes.Answer(Spelled("Q"), [], []));
  }

  /** The same for a reachable commons. */
  lemma {:induction false} CommonsContinuationRepeats(
        spec: Checkpoint.Spec<Commons.Config, Commons.State>, d: CommonsStep.Draws, core: CommonsStep.Full,
        t: Tapes.Tape)
    requires spec.load == ((c, tick, s) => LoadCommons(c, tick, s)) && spec.validConfig(core.config)
    requires CommonsStep.Reachable(core)
    ensures forall moves {:trigger Checkpoint.Continues(spec, CommonsStep.CommonsClient(d), core, t, moves)} ::
              Checkpoint.Continues(spec, CommonsStep.CommonsClient(d), core, t, moves) <==>
              core.tick <= LIMIT && t.cursor <= LIMIT
  {
    var log :| CommonsStep.AgreesWith(core, log);
    CommonsCheckpointIff(spec, core.state, log, core.rng, core.policyRng, t.cursor, true);
    Checkpoint.CaptureRestoresIff(spec, core, t.cursor, true);
    forall moves {:trigger Checkpoint.Continues(spec, CommonsStep.CommonsClient(d), core, t, moves)}
      ensures Checkpoint.Continues(spec, CommonsStep.CommonsClient(d), core, t, moves) <==>
              core.tick <= LIMIT && t.cursor <= LIMIT
    {
      Checkpoint.RestoredFutureRepeats(spec, CommonsStep.CommonsClient(d), core, t, moves);
    }
  }
}
