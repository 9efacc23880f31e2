/** Model-owned checkpoints: capture, validated restore, reset and rollback, shared by both
    language-model games, with the decision tape kept outside the checkpoint. */
module Checkpoint {
  import opened Prelude
  import opened Tapes

  const VERSION := 2

  /** What a concrete model supplies: its identity, its configuration check, the fresh state
      of a configuration with its two random states, and its load check. */
  datatype Spec<!C, !S> = Spec(
    modelId: string,
    validConfig: C -> bool,
    create: C -> (S, nat, nat),
    load: (C, nat, S) -> Option<S>)

  /** The model's own continuation state. */
  datatype Core<C, S> = Core(config: C, tick: nat, rng: nat, policyRng: nat, state: S)

  /** A detached checkpoint; counters of paid usage are not part of it. */
  datatype Payload<C, S> = Payload(
    modelId: string,
    version: int,
    config: C,
    tick: int,
    rng: nat,
    policyRng: nat,
    state: S,
    cursor: int,
    usesProvider: bool)

  function Captured<C, S>(spec: Spec<C, S>, core: Core<C, S>, cursor: nat, usesProvider: bool): Payload<C, S> {
    Payload(spec.modelId, VERSION, core.config, core.tick, core.rng, core.policyRng, core.state, cursor, usesProvider)
  }

  /** The state a payload restores to, or nothing when it is rejected. */
  function Restored<C, S>(spec: Spec<C, S>, payload: Payload<C, S>, usesProvider: bool): Option<Core<C, S>> {
    if payload.modelId != spec.modelId || payload.version != VERSION || payload.usesProvider != usesProvider
       || !(0 <= payload.tick <= LIMIT) || !(0 <= payload.cursor <= LIMIT) || !spec.validConfig(payload.config)
    then None
    else
      var loaded := spec.load(payload.config, payload.tick, payload.state);
      if loaded.None? then None
      else Some(Core(payload.config, payload.tick, payload.rng, payload.policyRng, loaded.value))
  }

  /** Capturing and restoring is the identity exactly when the load check returns the state
      unchanged and the clock and the cursor are within the checked range. */
  lemma {:induction false} CaptureRestoresIff<C, S>(spec: Spec<C, S>, core: Core<C, S>, cursor: nat, usesProvider: bool)
    requires spec.validConfig(core.config)
    ensures Restored(spec, Captured(spec, core, cursor, usesProvider), usesProvider) == Some(core) <==>
            spec.load(core.config, core.tick, core.state) == Some(core.state) && core.tick <= LIMIT && cursor <= LIMIT
  {
  }

  class CheckpointModel<C, S> {
    const spec: Spec<C, S>
    const provider: DecisionTape?
    var config: C
    var tick: nat
    var rng: nat
    var policyRng: nat
    var state: S

    constructor (spec: Spec<C, S>, config: C, provider: DecisionTape?)
      ensures this.spec == spec && this.provider == provider
      ensures View() == Core(config, 0, spec.create(config).1, spec.create(config).2, spec.create(config).0)
    {
      this.spec, this.provider, this.config, this.tick := spec, provider, config, 0;
      this.state, this.rng, this.policyRng := spec.create(config).0, spec.create(config).1, spec.create(config).2;
    }

    function View(): Core<C, S>
      reads this
    {
      Core(config, tick, rng, policyRng, state)
    }

    /** The provider, as a frame. */
    ghost function Tapes(): set<DecisionTape> {
      if provider == null then {} else {provider}
    }

    function Cursor(): nat
      reads this, provider
    {
      if provider == null then 0 else provider.cursor
    }

    method Capture() returns (payload: Payload<C, S>)
      ensures payload == Captured(spec, View(), Cursor(), provider != null)
    {
      payload := Payload(spec.modelId, VERSION, config, tick, rng, policyRng, state, Cursor(), provider != null);
    }

    /** Install the declared fields of a candidate; the provider stays. */
    method Install(candidate: CheckpointModel<C, S>)
      modifies this
      ensures View() == old(candidate.View())
    {
      config, tick, rng, policyRng, state :=
        candidate.config, candidate.tick, candidate.rng, candidate.policyRng, candidate.state;
    }

    /** Validate a fresh candidate, then install it. A rejected payload changes neither the
        model nor the provider; an accepted one rewinds the cursor and no counter. */
    method Restore(payload: Payload<C, S>) returns (ok: bool)
      modifies this, Tapes()
      ensures var restored := Restored(spec, payload, provider != null);
              && (ok <==> restored.Some?)
              && View() == (if ok then restored.value else old(View()))
      ensures ok <==>
              && payload.modelId == spec.modelId && payload.version == 2 && payload.usesProvider == (provider != null)
              && 0 <= payload.tick <= 1_000_000_000 && 0 <= payload.cursor <= 1_000_000_000
              && spec.validConfig(payload.config) && spec.load(payload.config, payload.tick, payload.state).Some?
      ensures ok ==> View() == Core(payload.config, payload.tick, payload.rng, payload.policyRng,
                                    spec.load(payload.config, payload.tick, payload.state).value)
      ensures provider != null ==>
                provider.View() == if ok then old(provider.View()).(cursor := payload.cursor) else old(provider.View())
    {
      if payload.modelId != spec.modelId || payload.version != VERSION || payload.usesProvider != (provider != null) {
        return false;
      }
      if !(0 <= payload.tick <= LIMIT) || !(0 <= payload.cursor <= LIMIT) || !spec.validConfig(payload.config) {
        return false;
      }
      var candidate := new CheckpointModel(spec, payload.config, provider);
      candidate.tick := payload.tick;
      var loaded := spec.load(payload.config, payload.tick, payload.state);
      if loaded.None? {
        return false;
      }
      candidate.state := loaded.value;
      candidate.rng, candidate.policyRng := payload.rng, payload.policyRng;
      Install(candidate);
      if provider != null {
        provider.cursor := payload.cursor;
      }
      ok := true;
    }

    /** Start over with the given configuration and the shared answer cache. */
    method Reset(config: C)
      modifies this, Tapes()
      ensures View() == Core(config, 0, spec.create(config).1, spec.create(config).2, spec.create(config).0)
      ensures provider != null ==> provider.View() == old(provider.View()).(cursor := 0)
    {
      var replacement := new CheckpointModel(spec, config, provider);
      Install(replacement);
      if provider != null {
        provider.cursor := 0;
      }
    }

    method TransactionMark() returns (mark: (nat, nat, nat))
      ensures mark == (rng, policyRng, Cursor())
    {
      mark := (rng, policyRng, Cursor());
    }

    /** Random states and logical position go back; request charges persist. */
    method TransactionRollback(mark: (nat, nat, nat))
      modifies this`rng, this`policyRng, Tapes()
      ensures View() == old(View()).(rng := mark.0, policyRng := mark.1)
      ensures provider != null ==> provider.View() == old(provider.View()).(cursor := mark.2)
    {
      rng, policyRng := mark.0, mark.1;
      if provider != null {
        provider.cursor := mark.2;
      }
    }
  }

  /** Capture, run on, restore, and repeat: the checkpoint taken before the moves is accepted
      after them, and the completed moves lead from it to the same model and cursor, with no
      further live call. So the two captures at the end are equal. */
  ghost predicate Continues<C(!new), S(!new)>(spec: Spec<C, S>, client: Client<Core<C, S>>, core: Core<C, S>, t: Tape,
                                              moves: seq<Move<Core<C, S>>>)
  {
    var payload := Captured(spec, core, t.cursor, true);
    var (last, u, kept) := Run(client, core, t, moves);
    var restored := Restored(spec, payload, true);
    && restored == Some(core)
    && var repeated := Replay(client, restored.value, u.(cursor := payload.cursor), kept);
       && repeated.Some? && repeated.value.1.liveCalls == u.liveCalls
       && Captured(spec, repeated.value.0, repeated.value.1.cursor, true) == Captured(spec, last, u.cursor, true)
  }

  /** That is so for every client, on a live tape and on a replaying one, exactly when the load
      check returns the captured state and clock and cursor are within the checked range. */
  lemma {:induction false} RestoredFutureRepeats<C(!new), S(!new)>(
        spec: Spec<C, S>, client: Client<Core<C, S>>, core: Core<C, S>, t: Tape, moves: seq<Move<Core<C, S>>>)
    requires spec.validConfig(core.config)
    ensures Continues(spec, client, core, t, moves) <==>
            spec.load(core.config, core.tick, core.state) == Some(core.state) && core.tick <= LIMIT && t.cursor <= LIMIT
  {
    CaptureRestoresIff(spec, core, t.cursor, true);
    var u := Run(client, core, t, moves).1;
    RunFollows(client, core, t, moves);
    RunReplays(client, core, t, moves, u.(cursor := t.cursor));
  }

  /** The limits of checkpoint and recording differ by a step: a checkpoint at the last
      accepted cursor restores, a step of two prompts completes from there on a live tape, and
      its recording cannot be opened. */
  lemma {:induction false} RestoredStepOutrunsRecording<C, S>(
        spec: Spec<C, S>, client: Client<Core<C, S>>, core: Core<C, S>, first: Request, second: Request, good: Answer)
    requires spec.validConfig(core.config) && spec.load(core.config, core.tick, core.state) == Some(core.state)
    requires core.tick <= LIMIT && client.asks(core) == [first, second] && client.valid(core)(good)
    requires Fits(first) && Fits(second) && Encodable(good.Written())
    ensures var restored := Restored(spec, Captured(spec, core, LIMIT, true), true);
            && restored == Some(core)
            && var (_, t, completed) := Step(client, restored.value, LiveTape(2).(cursor := LIMIT),
                                             [Completed(good, 0), Completed(good, 0)]);
               completed && Load(t.recording).None?
  {
    CaptureRestoresIff(spec, core, LIMIT, true);
    RecordingOutrunsTheLimit(client, core, first, second, good);
  }
}
