/** The optimistic-concurrency protocol over the stored state: any number of callers of
    updateStateWithRetry and SaveStateWithBackoff, interleaved in any way.

    A caller loads a snapshot, applies its update function to it and saves. The repository
    accepts a save only when the stored version is still the one that was loaded, and then
    stores the value and bumps the version. A run is a list of events; each event is one
    atomic action of one caller, and every interleaving is some list of events. */
module SharedState {
  import opened Finite
  import opened Text

  /** U names the callers' update functions and `apply` runs one; None is an update that
      returned an error. A caller makes at most `attempts` load-mutate-save rounds. */
  datatype Caller<U> = Caller(update: U, attempts: nat)

  /** updateStateWithRetry counts attempts 0..maxRetries, with 20 when unconfigured. */
  function RetryAttempts(configured: int): (r: nat)
    ensures r >= 2 && (configured <= 0 ==> r == 21) && (configured > 0 ==> r == configured + 1)
  {
    (if configured <= 0 then 20 else configured) + 1
  }

  const BACKOFF_ATTEMPTS: nat := 20

  datatype Outcome =
    | Saved                // returned nil after a successful save
    | NothingToSave        // returned nil because the loaded state was nil
    | Failed               // load error, update error, save error, cancellation or interruption
    | Exhausted(entry: nat)// every attempt ended in a version conflict

  /** `entry` is the number of commits in the log when the call started; it is only used to
      state what an exhausted caller has seen. */
  datatype Phase<S> =
    | Idle
    | Ready(entry: nat, attempt: nat)
    | Loaded(entry: nat, attempt: nat, version: nat, value: S)
    | Mutated(entry: nat, attempt: nat, version: nat, value: S)
    | Sleeping(entry: nat, attempt: nat)
    | Returned(outcome: Outcome)

  datatype System<S> = System(
    version: nat, value: S,       // the stored record
    phases: seq<Phase<S>>,        // one per caller
    log: seq<nat>)                // the callers whose save committed, in commit order

  datatype Event =
    | Start(caller: nat)
    | Load(caller: nat)
    | LoadFails(caller: nat)
    | LoadsNil(caller: nat)
    | Mutate(caller: nat)
    | Save(caller: nat)
    | SaveFails(caller: nat)      // any error that is not a version conflict
    | Wake(caller: nat)
    | Abandon(caller: nat)        // cancelled or interrupted while sleeping

  ghost predicate Enabled<S>(s: System<S>, e: Event) {
    e.caller < |s.phases| &&
    var p := s.phases[e.caller];
    match e
    case Start(_) => p.Idle?
    case Load(_) => p.Ready?
    case LoadFails(_) => p.Ready?
    case LoadsNil(_) => p.Ready?
    case Mutate(_) => p.Loaded?
    case Save(_) => p.Mutated?
    case SaveFails(_) => p.Mutated?
    case Wake(_) => p.Sleeping?
    case Abandon(_) => p.Sleeping?
  }

  ghost function NextPhase<S, U>(cs: seq<Caller<U>>, apply: (U, S) -> Option<S>, s: System<S>, e: Event): Phase<S>
    requires |cs| == |s.phases| && Enabled(s, e)
  {
    var p := s.phases[e.caller];
    var c := cs[e.caller];
    match e
    case Start(_) => Ready(|s.log|, 0)
    case Load(_) => Loaded(p.entry, p.attempt, s.version, s.value)
    case LoadFails(_) => Returned(Failed)
    case LoadsNil(_) => Returned(NothingToSave)
    case Mutate(_) =>
      (match apply(c.update, p.value)
       case None => Returned(Failed)
       case Some(v) => Mutated(p.entry, p.attempt, p.version, v))
    case Save(_) =>
      if p.version == s.version then Returned(Saved)
      else if p.attempt + 1 >= c.attempts then Returned(Exhausted(p.entry))
      else Sleeping(p.entry, p.attempt)
    case SaveFails(_) => Returned(Failed)
    case Wake(_) => Ready(p.entry, p.attempt + 1)
    case Abandon(_) => Returned(Failed)
  }

  ghost function Next<S, U>(cs: seq<Caller<U>>, apply: (U, S) -> Option<S>, s: System<S>, e: Event): (s': System<S>)
    requires |cs| == |s.phases| && Enabled(s, e)
    ensures |s'.phases| == |s.phases|
  {
    var phases := s.phases[e.caller := NextPhase(cs, apply, s, e)];
    if e.Save? && s.phases[e.caller].version == s.version
    then System(s.version + 1, s.phases[e.caller].value, phases, s.log + [e.caller])
    else s.(phases := phases)
  }

  /** The events can happen in this order from s, and end in s'. */
  ghost predicate Run<S, U>(cs: seq<Caller<U>>, apply: (U, S) -> Option<S>, s: System<S>, es: seq<Event>, s': System<S>)
    decreases |es|
  {
    |cs| == |s.phases| &&
    if es == [] then s' == s
    else Enabled(s, es[0]) && Run(cs, apply, Next(cs, apply, s, es[0]), es[1..], s')
  }

  ghost predicate Initial<S>(s: System<S>) {
    s.log == [] && forall i :: 0 <= i < |s.phases| ==> s.phases[i] == Idle
  }

  /** The updates of the logged callers, applied one after the other. None as soon as one
      of them would have been refused. */
  ghost function Replay<S, U>(cs: seq<Caller<U>>, apply: (U, S) -> Option<S>, start: S, log: seq<nat>): Option<S>
    requires forall i :: 0 <= i < |log| ==> log[i] < |cs|
  {
    if log == [] then Some(start)
    else
      var before := Replay(cs, apply, start, log[..|log| - 1]);
      if before.None? then None else apply(cs[log[|log| - 1]].update, before.value)
  }

  /** What one caller's phase says about the log and the snapshot it holds. */
  ghost predicate PhaseInv<S, U>(cs: seq<Caller<U>>, apply: (U, S) -> Option<S>, s0: System<S>, s: System<S>, i: nat)
    requires i < |s.phases| == |cs| && (forall k :: 0 <= k < |s.log| ==> s.log[k] < |cs|)
  {
    var p := s.phases[i];
    && (i in s.log <==> p == Returned(Saved))
    && (p.Ready? ==> p.entry + p.attempt <= |s.log|)
    && (p.Loaded? || p.Mutated? ==>
          && s0.version + p.entry + p.attempt <= p.version <= s.version
          && p.version - s0.version <= |s.log|
          && var seen := Replay(cs, apply, s0.value, s.log[..p.version - s0.version]);
             && seen.Some?
             && (p.Loaded? ==> p.value == seen.value)
             && (p.Mutated? ==> apply(cs[i].update, seen.value) == Some(p.value)))
    && (p.Sleeping? ==> p.entry + p.attempt + 1 <= |s.log|)
    && (p.Returned? && p.outcome.Exhausted? ==> p.outcome.entry + cs[i].attempts <= |s.log|)
  }

  ghost predicate Inv<S, U>(cs: seq<Caller<U>>, apply: (U, S) -> Option<S>, s0: System<S>, s: System<S>) {
    && |s.phases| == |cs|
    && (forall k :: 0 <= k < |s.log| ==> s.log[k] < |cs|)
    && Distinct(s.log)
    && s.version == s0.version + |s.log|
    && Replay(cs, apply, s0.value, s.log) == Some(s.value)
    && (forall i :: 0 <= i < |cs| ==> PhaseInv(cs, apply, s0, s, i))
  }

  lemma {:induction false} StepKeepsOthers<S, U>(cs: seq<Caller<U>>, apply: (U, S) -> Option<S>, s0: System<S>, s: System<S>, e: Event, i: nat)
    requires Inv(cs, apply, s0, s) && Enabled(s, e) && i < |cs| && i != e.caller
    ensures PhaseInv(cs, apply, s0, Next(cs, apply, s, e), i)
  {
    var s' := Next(cs, apply, s, e);
    assert PhaseInv(cs, apply, s0, s, i);
    var p := s.phases[i];
    if p.Loaded? || p.Mutated? {
      assert s'.log[..p.version - s0.version] == s.log[..p.version - s0.version];
    }
  }

  lemma {:induction false} StepKeepsOwn<S, U>(cs: seq<Caller<U>>, apply: (U, S) -> Option<S>, s0: System<S>, s: System<S>, e: Event)
    requires Inv(cs, apply, s0, s) && Enabled(s, e)
    ensures PhaseInv(cs, apply, s0, Next(cs, apply, s, e), e.caller)
  {
    assert PhaseInv(cs, apply, s0, s, e.caller);
    assert s.log[..|s.log|] == s.log;
  }

  lemma {:induction false} CommitExtendsReplay<S, U>(cs: seq<Caller<U>>, apply: (U, S) -> Option<S>, s0: System<S>, s: System<S>, e: Event)
    requires Inv(cs, apply, s0, s) && Enabled(s, e) && e.Save? && s.phases[e.caller].version == s.version
    ensures Replay(cs, apply, s0.value, s.log + [e.caller]) == Some(s.phases[e.caller].value)
    ensures e.caller !in s.log
  {
    assert PhaseInv(cs, apply, s0, s, e.caller);
    assert s.log[..|s.log|] == s.log;
    assert (s.log + [e.caller])[..|s.log|] == s.log;
  }

  lemma {:induction false} StepKeepsInv<S, U>(cs: seq<Caller<U>>, apply: (U, S) -> Option<S>, s0: System<S>, s: System<S>, e: Event)
    requires Inv(cs, apply, s0, s) && Enabled(s, e)
    ensures Inv(cs, apply, s0, Next(cs, apply, s, e))
  {
    if e.Save? && s.phases[e.caller].version == s.version {
      CommitExtendsReplay(cs, apply, s0, s, e);
    }
    forall i | 0 <= i < |cs| ensures PhaseInv(cs, apply, s0, Next(cs, apply, s, e), i) {
      if i == e.caller {
        StepKeepsOwn(cs, apply, s0, s, e);
      } else {
        StepKeepsOthers(cs, apply, s0, s, e, i);
      }
    }
  }

  lemma {:induction false} RunKeepsInv<S, U>(cs: seq<Caller<U>>, apply: (U, S) -> Option<S>, s0: System<S>, s: System<S>, es: seq<Event>, s': System<S>)
    requires Inv(cs, apply, s0, s) && Run(cs, apply, s, es, s')
    ensures Inv(cs, apply, s0, s')
    decreases |es|
  {
    if es != [] {
      StepKeepsInv(cs, apply, s0, s, es[0]);
      RunKeepsInv(cs, apply, s0, Next(cs, apply, s, es[0]), es[1..], s');
    }
  }

  lemma {:induction false} InitialInv<S, U>(cs: seq<Caller<U>>, apply: (U, S) -> Option<S>, s0: System<S>)
    requires Initial(s0) && |cs| == |s0.phases|
    ensures Inv(cs, apply, s0, s0)
  {
    forall i | 0 <= i < |cs| ensures PhaseInv(cs, apply, s0, s0, i) {
      assert s0.phases[i] == Idle;
    }
  }

  /** No update is lost or applied twice: in every run the stored value is the committed
      updates applied in commit order, the version counts them, a caller that returned nil
      after saving is in the log exactly once, and every other caller is not in it. */
  lemma {:induction false} StoredStateIsReplayOfCommits<S, U>(cs: seq<Caller<U>>, apply: (U, S) -> Option<S>, s0: System<S>, es: seq<Event>, s: System<S>)
    requires Initial(s0) && Run(cs, apply, s0, es, s)
    ensures |s.phases| == |cs| && forall k :: 0 <= k < |s.log| ==> s.log[k] < |cs|
    ensures Replay(cs, apply, s0.value, s.log) == Some(s.value)
    ensures s.version == s0.version + |s.log|
    ensures forall i :: 0 <= i < |cs| ==>
              multiset(s.log)[i] == if s.phases[i] == Returned(Saved) then 1 else 0
  {
    InitialInv(cs, apply, s0);
    RunKeepsInv(cs, apply, s0, s0, es, s);
    forall i | 0 <= i < |cs|
      ensures multiset(s.log)[i] == if s.phases[i] == Returned(Saved) then 1 else 0
    {
      assert PhaseInv(cs, apply, s0, s, i);
      DistinctCount(s.log, i);
    }
  }

  /** A caller that gives up on conflicts has been overtaken by at least as many other
      commits as it had attempts, all of them after its call began. */
  lemma {:induction false} ExhaustedWasOvertaken<S, U>(cs: seq<Caller<U>>, apply: (U, S) -> Option<S>, s0: System<S>, es: seq<Event>, s: System<S>, i: nat)
    requires Initial(s0) && Run(cs, apply, s0, es, s)
    requires i < |s.phases| && s.phases[i].Returned? && s.phases[i].outcome.Exhausted?
    ensures i < |cs| && i !in s.log
    ensures s.phases[i].outcome.entry + cs[i].attempts <= |s.log|
  {
    InitialInv(cs, apply, s0);
    RunKeepsInv(cs, apply, s0, s0, es, s);
    assert PhaseInv(cs, apply, s0, s, i);
  }

  /** So a caller allowed at least as many attempts as there are callers always gets
      through: it can fail, but never by running out of attempts. */
  lemma {:induction false} EnoughAttemptsNeverExhaust<S, U>(cs: seq<Caller<U>>, apply: (U, S) -> Option<S>, s0: System<S>, es: seq<Event>, s: System<S>, i: nat)
    requires Initial(s0) && Run(cs, apply, s0, es, s)
    requires i < |cs| && i < |s.phases| && |cs| <= cs[i].attempts
    ensures !(s.phases[i].Returned? && s.phases[i].outcome.Exhausted?)
  {
    if s.phases[i].Returned? && s.phases[i].outcome.Exhausted? {
      ExhaustedWasOvertaken(cs, apply, s0, es, s, i);
      InitialInv(cs, apply, s0);
      RunKeepsInv(cs, apply, s0, s0, es, s);
      DistinctFits(s.log, Below(|cs|) - {i});
    }
  }
}
