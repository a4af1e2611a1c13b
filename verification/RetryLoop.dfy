/** updateStateWithRetry and SaveStateWithBackoff as written: the load-mutate-save loops
    themselves, run against a repository object that other callers may change between the
    load and the save. */
module RetryLoop {
  import opened SharedState
  import opened Text

  /** What the surroundings do during one attempt: the load may fail or find
      no state, other callers may commit after the load, the save may fail for another reason than a conflict, and the
      sleep before the next attempt may be cancelled or interrupted. */
  datatype Round<U> = Round(loadFails: bool, loadsNil: bool, others: seq<U>, saveFails: bool, sleepEnds: bool)

  /** The updates applied in order; a refused update commits nothing. */
  ghost function Effect<S, U>(apply: (U, S) -> Option<S>, start: S, us: seq<U>): S {
    if us == [] then start
    else
      var before := Effect(apply, start, us[..|us| - 1]);
      match apply(us[|us| - 1], before) case None => before case Some(v) => v
  }

  class Repository<S, U> {
    var version: nat
    var value: S
    ghost var commits: seq<U>

    constructor (v: S)
      ensures version == 0 && value == v && commits == []
    {
      version, value, commits := 0, v, [];
    }

    /** Save succeeds only at the loaded version, and then bumps it. */
    method Save(v: S, loaded: nat, ghost u: U) returns (conflict: bool)
      modifies this
      ensures conflict == (loaded != old(version))
      ensures conflict ==> version == old(version) && value == old(value) && commits == old(commits)
      ensures !conflict ==> version == loaded + 1 && value == v && commits == old(commits) + [u]
    {
      conflict := loaded != version;
      if !conflict {
        version, value := version + 1, v;
        commits := commits + [u];
      }
    }

    /** Other callers' whole updates, each loaded and saved without a conflict. */
    method OthersCommit(apply: (U, S) -> Option<S>, us: seq<U>) returns (ghost added: seq<U>)
      modifies this
      ensures commits == old(commits) + added && version == old(version) + |added|
      ensures value == Effect(apply, old(value), added)
    {
      added := [];
      for i := 0 to |us|
        invariant commits == old(commits) + added && version == old(version) + |added|
        invariant value == Effect(apply, old(value), added)
      {
        match apply(us[i], value) {
          case None =>
          case Some(v) =>
            var conflict := Save(v, version, us[i]);
            assert (added + [us[i]])[..|added|] == added;
            added := added + [us[i]];
        }
      }
    }
  }

  lemma {:induction false} EffectSplits<S, U>(apply: (U, S) -> Option<S>, start: S, a: seq<U>, b: seq<U>)
    ensures Effect(apply, start, a + b) == Effect(apply, Effect(apply, start, a), b)
  {
    if b == [] {
      assert a + b == a;
    } else {
      assert (a + b)[..|a + b| - 1] == a + b[..|b| - 1];
      EffectSplits(apply, start, a, b[..|b| - 1]);
    }
  }

  /** One attempt: None is a version conflict. Only an undisturbed attempt saves, and a
      conflict means that somebody else committed. */
  method Attempt<S, U>(repo: Repository<S, U>, apply: (U, S) -> Option<S>, u: U, round: Round<U>)
      returns (end: Option<Outcome>, ghost added: seq<U>)
    modifies repo
    ensures end in {None, Some(Saved), Some(Failed)} && (end.None? ==> added != [])
    ensures end == Some(Failed) ==> round.loadFails || round.saveFails || apply(u, old(repo.value)).None?
    ensures end == Some(Saved) ==>
              && added == [] && apply(u, old(repo.value)) == Some(repo.value)
              && repo.commits == old(repo.commits) + [u] && repo.version == old(repo.version) + 1
    ensures end != Some(Saved) ==>
              && repo.value == Effect(apply, old(repo.value), added)
              && repo.commits == old(repo.commits) + added && repo.version == old(repo.version) + |added|
  {
    added := [];
    if round.loadFails {
      return Some(Failed), added;
    }
    var value, version := repo.value, repo.version;
    var updated := apply(u, value);
    if updated.None? {
      return Some(Failed), added;
    }
    added := repo.OthersCommit(apply, round.others);
    if round.saveFails {
      return Some(Failed), added;
    }
    var conflict := repo.Save(updated.value, version, u);
    end := if conflict then None else Some(Saved);
  }

  /** What a whole call may have done to the repository: r is its outcome, `foreign` what the
      others committed meanwhile. */
  ghost predicate Accounted<S, U>(apply: (U, S) -> Option<S>, u: U, r: Outcome, foreign: seq<U>, attempts: nat,
                                  value: S, version: nat, commits: seq<U>, value': S, version': nat, commits': seq<U>) {
    if r.Saved? then
      && commits' == commits + foreign + [u] && version' == version + |foreign| + 1
      && apply(u, Effect(apply, value, foreign)) == Some(value')
    else
      && commits' == commits + foreign && version' == version + |foreign|
      && value' == Effect(apply, value, foreign)
      && (r.Exhausted? ==> |foreign| >= attempts)
  }

  /** Something other than conflicts ended the call: a failing load or save, a sleep cut
      short, or an update that is refused in a state the call has seen. */
  ghost predicate Excused<S, U>(apply: (U, S) -> Option<S>, u: U, rounds: seq<Round<U>>, value: S, foreign: seq<U>) {
    || (exists k :: 0 <= k < |rounds| && (rounds[k].loadFails || rounds[k].saveFails || rounds[k].sleepEnds))
    || (exists j :: 0 <= j <= |foreign| && apply(u, Effect(apply, value, foreign[..j])).None?)
  }

  lemma {:induction false} AttemptExcused<S, U>(apply: (U, S) -> Option<S>, u: U, rounds: seq<Round<U>>, k: nat, value: S, foreign: seq<U>, added: seq<U>)
    requires k < |rounds|
    ensures rounds[k].loadFails || rounds[k].saveFails || rounds[k].sleepEnds ==> Excused(apply, u, rounds, value, foreign + added)
    ensures apply(u, Effect(apply, value, foreign)).None? ==> Excused(apply, u, rounds, value, foreign + added)
  {
    assert (foreign + added)[..|foreign|] == foreign;
  }

  /** The loop returns nil exactly when its own update was committed, as the last commit of
      the call and on top of the state all the others left; an error means it committed
      nothing; and it gives up on conflicts only after as many foreign commits as attempts. */
  method UpdateStateWithRetry<S, U>(repo: Repository<S, U>, apply: (U, S) -> Option<S>, u: U, configured: int, rounds: seq<Round<U>>)
      returns (r: Outcome, ghost foreign: seq<U>)
    requires |rounds| >= RetryAttempts(configured)
    modifies repo
    ensures Accounted(apply, u, r, foreign, RetryAttempts(configured), old(repo.value), old(repo.version), old(repo.commits),
                      repo.value, repo.version, repo.commits)
    ensures r != NothingToSave && (r.Failed? ==> Excused(apply, u, rounds, old(repo.value), foreign))
  {
    var maxRetries := if configured <= 0 then 20 else configured;
    foreign := [];
    var attempt := 0;
    var entry := repo.version;
    // The source tests attempt <= maxRetries here; its last attempt always returns, so the
    // test never fails.
    while true
      invariant 0 <= attempt <= maxRetries && attempt <= |foreign|
      invariant repo.commits == old(repo.commits) + foreign && repo.version == old(repo.version) + |foreign|
      invariant repo.value == Effect(apply, old(repo.value), foreign)
      decreases maxRetries - attempt
    {
      var end, added := Attempt(repo, apply, u, rounds[attempt]);
      EffectSplits(apply, old(repo.value), foreign, added);
      AttemptExcused(apply, u, rounds, attempt, old(repo.value), foreign, added);
      foreign := foreign + added;
      if end.Some? {
        return end.value, foreign;
      }
      if attempt == maxRetries {
        return Exhausted(entry), foreign;
      }
      if rounds[attempt].sleepEnds {
        return Failed, foreign;
      }
      attempt := attempt + 1;
    }
  }

  /** The second loop keeps the same account; it also sleeps after its last attempt, and
      returns nil without saving when there is no state. */
  method SaveStateWithBackoff<S, U>(repo: Repository<S, U>, mutate: (U, S) -> S, u: U, rounds: seq<Round<U>>)
      returns (r: Outcome, ghost foreign: seq<U>)
    requires |rounds| >= BACKOFF_ATTEMPTS
    modifies repo
    ensures Accounted((u, s) => Some(mutate(u, s)), u, r, foreign, BACKOFF_ATTEMPTS, old(repo.value), old(repo.version), old(repo.commits),
                      repo.value, repo.version, repo.commits)
    ensures r.Exhausted? ==> forall k :: 0 <= k < BACKOFF_ATTEMPTS ==> !rounds[k].sleepEnds
    ensures r.Failed? ==> Excused((u, s) => Some(mutate(u, s)), u, rounds, old(repo.value), foreign)
    ensures r.NothingToSave? ==> exists k :: 0 <= k < BACKOFF_ATTEMPTS && rounds[k].loadsNil
  {
    var apply := (u, s) => Some(mutate(u, s));
    var entry := repo.version;
    foreign := [];
    for attempt := 0 to BACKOFF_ATTEMPTS
      invariant attempt <= |foreign|
      invariant repo.commits == old(repo.commits) + foreign && repo.version == old(repo.version) + |foreign|
      invariant repo.value == Effect(apply, old(repo.value), foreign)
      invariant forall k :: 0 <= k < attempt ==> !rounds[k].sleepEnds
    {
      if !rounds[attempt].loadFails && rounds[attempt].loadsNil {
        return NothingToSave, foreign;
      }
      var end, added := Attempt(repo, apply, u, rounds[attempt]);
      EffectSplits(apply, old(repo.value), foreign, added);
      AttemptExcused(apply, u, rounds, attempt, old(repo.value), foreign, added);
      foreign := foreign + added;
      if end.Some? {
        return end.value, foreign;
      }
      if rounds[attempt].sleepEnds {
        return Failed, foreign;
      }
    }
    r := Exhausted(entry);
  }
}
