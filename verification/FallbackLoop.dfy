/** The turn loop of RunFallbackAgent with its refunded turns and its growing ceiling, and
    the AdaptiveTurnManager that grants the extensions. */
module FallbackLoop {
  import opened Oscillation

  // ----- AdaptiveTurnManager -----

  const MIN_TURNS := 2

  function MaxExtensions(configured: int): (r: nat)
    ensures r > 0
  {
    if configured > 0 then configured else 3
  }

  function EnforceMinTurns(configured: int): (r: nat)
    ensures r >= MIN_TURNS && r >= configured && (r == configured || r == MIN_TURNS)
  {
    if configured < MIN_TURNS then MIN_TURNS else configured
  }

  /** Progress means fewer failures than before, or more passing tests while some still fail. */
  predicate GrantsExtension(maxExtensions: nat, prevFailures: int, currFailures: int, prevPassed: int, currPassed: int, used: nat) {
    used < maxExtensions &&
    ((prevFailures > 0 && currFailures >= 0 && currFailures < prevFailures) || (currPassed > prevPassed && currFailures > 0))
  }

  // ----- the loop -----

  /** What one turn of the agent brings: whether the tests pass now, whether it changed any
      file, the fingerprint of the remaining failure, and the test counts read from the log. */
  datatype Reply = Reply(passed: bool, mutated: bool, hash: string, summary: string, failures: int, passing: int)

  datatype Ending = Repaired | TurnsUsed | CircuitTripped

  const NOOP_STRIKES := 2

  /** The verdicts of the circuit breaker in one call, in order. */
  ghost predicate OneReconciliation(vs: seq<Action>, ending: Ending) {
    && (forall i, j :: 0 <= i < j < |vs| ==> !(vs[i].Reconcile? && vs[j].Reconcile?))
    && (forall i :: 0 <= i < |vs| && vs[i].Trip? ==> i == |vs| - 1 && ending.CircuitTripped? && exists j :: 0 <= j < i && vs[j].Reconcile?)
    && (forall i, j :: 0 <= i < j < |vs| && !vs[i].Continue? && !vs[j].Continue? ==> vs[j].Trip?)
  }

  // ----- what a run of replies amounts to -----

  type Replies = nat -> Reply

  /** Fruitless replies in a row, up to the two that are forgiven. */
  ghost function Strikes(reply: Replies, n: nat): nat {
    if n == 0 || reply(n - 1).mutated then 0
    else if Strikes(reply, n - 1) < NOOP_STRIKES then Strikes(reply, n - 1) + 1 else NOOP_STRIKES
  }

  /** A reply without a change costs no turn unless the two before it were refunded already. */
  ghost predicate Refunded(reply: Replies, k: nat) { !reply(k).mutated && Strikes(reply, k) < NOOP_STRIKES }

  /** That is, unless both replies before it changed nothing either. */
  lemma {:induction false} RefundedMeans(reply: Replies, k: nat)
    ensures Refunded(reply, k) <==> !reply(k).mutated && (k < 2 || reply(k - 1).mutated || reply(k - 2).mutated)
  {
    if k == 1 {
      assert Strikes(reply, 0) == 0 && Strikes(reply, 1) <= 1;
    } else if k >= 2 {
      StrikesMean(reply, k - 1);
      assert !reply(k - 1).mutated ==> Strikes(reply, k) == if Strikes(reply, k - 1) < NOOP_STRIKES then Strikes(reply, k - 1) + 1 else NOOP_STRIKES;
    }
  }

  lemma {:induction false} StrikesMean(reply: Replies, n: nat)
    ensures Strikes(reply, n) == 0 <==> n == 0 || reply(n - 1).mutated
  {
  }

  /** The failures of the replies that cost a turn, with their turns. */
  ghost function Failures(reply: Replies, n: nat): seq<Failure> {
    if n == 0 then []
    else
      var earlier, r := Failures(reply, n - 1), reply(n - 1);
      if Refunded(reply, n - 1) then earlier else earlier + [Failure(|earlier| + 1, r.hash, r.summary)]
  }

  /** The last test counts seen: failing and passing, or -1 each. */
  ghost function Counts(reply: Replies, n: nat): (int, int) {
    if n == 0 then (-1, -1)
    else
      var r := reply(n - 1);
      if !Refunded(reply, n - 1) && (r.failures > 0 || r.passing > 0) then (r.failures, r.passing) else Counts(reply, n - 1)
  }

  /** Compared with the last counts, fewer tests fail, or more pass while some fail. */
  ghost predicate Progress(reply: Replies, k: nat) {
    var (failing, passing) := Counts(reply, k);
    var r := reply(k);
    && !Refunded(reply, k) && failing >= 0
    && ((0 <= r.failures < failing) || (passing < r.passing && 0 < r.failures))
  }

  ghost function ProgressCount(reply: Replies, n: nat): nat {
    if n == 0 then 0 else ProgressCount(reply, n - 1) + if Progress(reply, n - 1) then 1 else 0
  }

  /** The extensions granted after n replies: one for every progress, up to the limit. */
  ghost function Extensions(reply: Replies, limit: nat, n: nat): nat {
    if ProgressCount(reply, n) < limit then ProgressCount(reply, n) else limit
  }

  ghost predicate TurnLeft(reply: Replies, turns: nat, limit: nat, n: nat) {
    |Failures(reply, n)| < turns + Extensions(reply, limit, n)
  }

  /** The loop's variables after n replies. */
  ghost predicate Matches(reply: Replies, limit: nat, n: nat, strikes: int, failing: int, passing: int, past: seq<Failure>, extensions: int) {
    && strikes == Strikes(reply, n) && (failing, passing) == Counts(reply, n)
    && past == Failures(reply, n) && extensions == Extensions(reply, limit, n)
  }

  lemma {:induction false} RefundStep(reply: Replies, limit: nat, n: nat, strikes: int, failing: int, passing: int, past: seq<Failure>, extensions: int)
    requires Matches(reply, limit, n, strikes, failing, passing, past, extensions) && !reply(n).mutated && strikes < NOOP_STRIKES
    ensures Matches(reply, limit, n + 1, strikes + 1, failing, passing, past, extensions)
  {
    assert Refunded(reply, n);
  }

  lemma {:induction false} CountedFailure(reply: Replies, n: nat)
    requires !Refunded(reply, n)
    ensures Failures(reply, n + 1) == Failures(reply, n) + [Failure(|Failures(reply, n)| + 1, reply(n).hash, reply(n).summary)]
    ensures Strikes(reply, n + 1) == if reply(n).mutated then 0 else NOOP_STRIKES
  {
    StrikesBounded(reply, n);
  }

  lemma {:induction false} StrikesBounded(reply: Replies, n: nat)
    ensures Strikes(reply, n) <= NOOP_STRIKES
  {
  }

  lemma {:induction false} CountedStep(reply: Replies, limit: nat, n: nat, strikes: int, failing: int, passing: int, past: seq<Failure>, extensions: nat)
    requires Matches(reply, limit, n, strikes, failing, passing, past, extensions) && (reply(n).mutated || strikes == NOOP_STRIKES)
    ensures var r := reply(n);
            var more := failing >= 0 && GrantsExtension(limit, failing, r.failures, passing, r.passing, extensions);
            var seen := r.failures > 0 || r.passing > 0;
            Matches(reply, limit, n + 1, if r.mutated then 0 else NOOP_STRIKES, if seen then r.failures else failing, if seen then r.passing else passing,
                    past + [Failure(|past| + 1, r.hash, r.summary)], if more then extensions + 1 else extensions)
  {
    assert !Refunded(reply, n);
    CountedFailure(reply, n);
  }

  ghost predicate NonePassed(reply: Replies, n: nat) { forall k: nat :: k < n ==> !reply(k).passed }

  lemma {:induction false} NonePassedMore(reply: Replies, n: nat)
    requires NonePassed(reply, n) && !reply(n).passed
    ensures NonePassed(reply, n + 1)
  {
  }

  /** A turn was left before each of the first n replies. */
  ghost predicate LeftUntil(reply: Replies, turns: nat, limit: nat, n: nat) {
    forall k: nat :: k < n ==> TurnLeft(reply, turns, limit, k)
  }

  lemma {:induction false} LeftOnceMore(reply: Replies, turns: nat, limit: nat, n: nat)
    requires LeftUntil(reply, turns, limit, n) && TurnLeft(reply, turns, limit, n)
    ensures LeftUntil(reply, turns, limit, n + 1)
  {
  }

  /** Replies refunded since the last one that cost a turn. */
  ghost function Pending(reply: Replies, n: nat): nat {
    if n == 0 || !Refunded(reply, n - 1) then 0 else Pending(reply, n - 1) + 1
  }

  lemma {:induction false} RefundsBounded(reply: Replies, n: nat)
    ensures Pending(reply, n) <= Strikes(reply, n) <= NOOP_STRIKES
    ensures n <= 3 * |Failures(reply, n)| + Pending(reply, n)
  {
    if n > 0 {
      RefundsBounded(reply, n - 1);
    }
  }

  /** As long as a turn is left before every reply, there are at most three per turn there can
      ever be: at most two fruitless ones in a row are refunded, every extension adds one turn. */
  lemma {:induction false} IterationsBounded(reply: Replies, turns: nat, limit: nat, n: nat)
    requires LeftUntil(reply, turns, limit, n)
    ensures n <= 3 * (turns + limit)
  {
    if n > 0 {
      assert TurnLeft(reply, turns, limit, n - 1);
      RefundsBounded(reply, n - 1);
    }
  }

  /** What a finished loop has done, in terms of the replies: it went on exactly while a turn was
      left, ended with the first passing reply or with the breaker's trip, the breaker saw exactly
      the failures that cost a turn, and extensions were granted for progress. */
  ghost predicate Explained(reply: Replies, least: nat, limit: nat, ending: Ending, iterations: nat, turns: nat, extensions: nat, verdicts: seq<Action>) {
    && LeftUntil(reply, least, limit, iterations) && (ending.TurnsUsed? ==> !TurnLeft(reply, least, limit, iterations))
    && (ending.TurnsUsed? || iterations > 0)
    && NonePassed(reply, if ending.Repaired? then iterations - 1 else iterations) && (ending.Repaired? ==> reply(iterations - 1).passed)
    && VerdictsOf(verdicts, Failures(reply, if ending.Repaired? then iterations - 1 else iterations))
    && (ending.CircuitTripped? <==> verdicts != [] && verdicts[|verdicts| - 1].Trip?)
    && var settled := if ending.TurnsUsed? then iterations else iterations - 1;
       turns == |Failures(reply, settled)| && extensions == Extensions(reply, limit, settled)
  }

  /** Nothing has ended the loop so far. */
  ghost predicate GoingOn(reply: Replies, least: nat, limit: nat, n: nat, strikes: int, failing: int, passing: int,
                          past: seq<Failure>, extensions: nat, verdicts: seq<Action>) {
    && Matches(reply, limit, n, strikes, failing, passing, past, extensions)
    && LeftUntil(reply, least, limit, n) && NonePassed(reply, n)
    && VerdictsOf(verdicts, past) && forall i :: 0 <= i < |verdicts| ==> !verdicts[i].Trip?
  }

  /** Ends the loop at a passing reply. */
  lemma {:induction false} EndsRepaired(reply: Replies, least: nat, limit: nat, n: nat, strikes: int, failing: int, passing: int,
                                        past: seq<Failure>, extensions: nat, verdicts: seq<Action>)
    requires GoingOn(reply, least, limit, n, strikes, failing, passing, past, extensions, verdicts)
    requires |past| < least + extensions && reply(n).passed
    ensures Explained(reply, least, limit, Repaired, n + 1, |past|, extensions, verdicts) && OneReconciliation(verdicts, Repaired)
  {
    LeftOnceMore(reply, least, limit, n);
    VerdictsReconcileOnce(verdicts, past, Repaired);
  }

  lemma {:induction false} EndsUsed(reply: Replies, least: nat, limit: nat, n: nat, strikes: int, failing: int, passing: int,
                                    past: seq<Failure>, extensions: nat, verdicts: seq<Action>)
    requires GoingOn(reply, least, limit, n, strikes, failing, passing, past, extensions, verdicts)
    requires |past| >= least + extensions
    ensures Explained(reply, least, limit, TurnsUsed, n, |past|, extensions, verdicts) && OneReconciliation(verdicts, TurnsUsed)
  {
    VerdictsReconcileOnce(verdicts, past, TurnsUsed);
  }

  lemma {:induction false} EndsTripped(reply: Replies, least: nat, limit: nat, n: nat, strikes: int, failing: int, passing: int,
                                       past: seq<Failure>, extensions: nat, verdicts: seq<Action>, f: Failure)
    requires GoingOn(reply, least, limit, n, strikes, failing, passing, past, extensions, verdicts)
    requires |past| < least + extensions && !reply(n).passed && past + [f] == Failures(reply, n + 1) && VerdictsOf(verdicts + [Trip], past + [f])
    ensures Explained(reply, least, limit, CircuitTripped, n + 1, |past|, extensions, verdicts + [Trip])
    ensures OneReconciliation(verdicts + [Trip], CircuitTripped)
  {
    LeftOnceMore(reply, least, limit, n);
    NonePassedMore(reply, n);
    VerdictsReconcileOnce(verdicts + [Trip], past + [f], CircuitTripped);
  }

  lemma {:induction false} GoesOnRefunded(reply: Replies, least: nat, limit: nat, n: nat, strikes: int, failing: int, passing: int,
                                          past: seq<Failure>, extensions: nat, verdicts: seq<Action>)
    requires GoingOn(reply, least, limit, n, strikes, failing, passing, past, extensions, verdicts)
    requires |past| < least + extensions && !reply(n).passed && !reply(n).mutated && strikes < NOOP_STRIKES
    ensures GoingOn(reply, least, limit, n + 1, strikes + 1, failing, passing, past, extensions, verdicts)
  {
    LeftOnceMore(reply, least, limit, n);
    NonePassedMore(reply, n);
    RefundStep(reply, limit, n, strikes, failing, passing, past, extensions);
  }

  lemma {:induction false} GoesOnCounted(reply: Replies, least: nat, limit: nat, n: nat, strikes: int, failing: int, passing: int,
                                         past: seq<Failure>, extensions: nat, verdicts: seq<Action>,
                                         strikes': int, failing': int, passing': int, past': seq<Failure>, extensions': nat, action: Action)
    requires GoingOn(reply, least, limit, n, strikes, failing, passing, past, extensions, verdicts)
    requires |past| < least + extensions && !reply(n).passed && !action.Trip?
    requires Matches(reply, limit, n + 1, strikes', failing', passing', past', extensions') && VerdictsOf(verdicts + [action], past')
    ensures GoingOn(reply, least, limit, n + 1, strikes', failing', passing', past', extensions', verdicts + [action])
  {
    LeftOnceMore(reply, least, limit, n);
    NonePassedMore(reply, n);
  }

  /** The loop of RunFallbackAgent. It makes at most three iterations per turn it can ever have;
      what it does is explained by the replies; the breaker reconciles at most once, trips only
      after that, and its second detected oscillation ends the loop. */
  method RunTurns(configuredTurns: int, configuredExtensions: int, reply: Replies)
      returns (ending: Ending, iterations: nat, turns: nat, extensions: nat, ghost verdicts: seq<Action>)
    ensures iterations <= 3 * (EnforceMinTurns(configuredTurns) + MaxExtensions(configuredExtensions))
    ensures Explained(reply, EnforceMinTurns(configuredTurns), MaxExtensions(configuredExtensions), ending, iterations, turns, extensions, verdicts)
    ensures OneReconciliation(verdicts, ending)
  {
    var limit, least := MaxExtensions(configuredExtensions), EnforceMinTurns(configuredTurns);
    ending, iterations, turns, extensions, verdicts := TakeTurns(limit, least, reply);
    IterationsBounded(reply, least, limit, iterations);
  }

  method TakeTurns(limit: nat, least: nat, reply: Replies)
      returns (ending: Ending, iterations: nat, turns: nat, extensions: nat, ghost verdicts: seq<Action>)
    ensures Explained(reply, least, limit, ending, iterations, turns, extensions, verdicts) && OneReconciliation(verdicts, ending)
  {
    extensions := 0;
    var lastFailures, lastPassed := -1, -1;
    var strikes := 0;
    var breaker := new Breaker();
    ghost var past: seq<Failure> := [];
    var turn := 1;
    iterations, verdicts := 0, [];
    while turn <= least + extensions
      invariant turn - 1 == |past|
      invariant GoingOn(reply, least, limit, iterations, strikes, lastFailures, lastPassed, past, extensions, verdicts)
      invariant fresh(breaker) && breaker.Valid() && breaker.past == past
      decreases 3 * (least + limit) - iterations
    {
      MoreToCome(reply, least, limit, iterations, strikes, lastFailures, lastPassed, past, extensions, verdicts);
      var over;
      over, ending, strikes, lastFailures, lastPassed, extensions, turn, past, verdicts :=
        TakeReply(reply, least, limit, iterations, turn, strikes, lastFailures, lastPassed, extensions, breaker, past, verdicts);
      iterations := iterations + 1;
      if over {
        return ending, iterations, turn - 1, extensions, verdicts;
      }
    }
    EndsUsed(reply, least, limit, iterations, strikes, lastFailures, lastPassed, past, extensions, verdicts);
    ending, turns := TurnsUsed, turn - 1;
  }

  lemma {:induction false} MoreToCome(reply: Replies, least: nat, limit: nat, n: nat, strikes: int, failing: int, passing: int,
                                      past: seq<Failure>, extensions: nat, verdicts: seq<Action>)
    requires GoingOn(reply, least, limit, n, strikes, failing, passing, past, extensions, verdicts) && |past| < least + extensions
    ensures n < 3 * (least + limit)
  {
    LeftOnceMore(reply, least, limit, n);
    IterationsBounded(reply, least, limit, n + 1);
  }

  /** One iteration: a passing reply or the breaker's trip ends the loop, a refunded reply gives
      its turn back, any other one spends it. */
  method TakeReply(reply: Replies, least: nat, limit: nat, n: nat, turn0: nat, strikes0: int, failing0: int, passing0: int, extensions0: nat,
                   breaker: Breaker, ghost past0: seq<Failure>, ghost verdicts0: seq<Action>)
      returns (over: bool, ending: Ending, strikes: int, failing: int, passing: int, extensions: nat, turn: nat, ghost past: seq<Failure>, ghost verdicts: seq<Action>)
    requires GoingOn(reply, least, limit, n, strikes0, failing0, passing0, past0, extensions0, verdicts0)
    requires turn0 - 1 == |past0| < least + extensions0 && breaker.Valid() && breaker.past == past0
    modifies breaker
    ensures over ==> turn > 0 && Explained(reply, least, limit, ending, n + 1, turn - 1, extensions, verdicts) && OneReconciliation(verdicts, ending)
    ensures !over ==> turn - 1 == |past| && GoingOn(reply, least, limit, n + 1, strikes, failing, passing, past, extensions, verdicts)
    ensures !over ==> breaker.Valid() && breaker.past == past
  {
    turn, ending := turn0, TurnsUsed;
    strikes, failing, passing, extensions, past, verdicts := strikes0, failing0, passing0, extensions0, past0, verdicts0;
    var r := reply(n);
    if r.passed {
      EndsRepaired(reply, least, limit, n, strikes, failing, passing, past, extensions, verdicts);
      return true, Repaired, strikes, failing, passing, extensions, turn, past, verdicts;
    }
    if !r.mutated && strikes < NOOP_STRIKES {
      // the turn is given back
      GoesOnRefunded(reply, least, limit, n, strikes, failing, passing, past, extensions, verdicts);
      strikes := strikes + 1;
      return false, ending, strikes, failing, passing, extensions, turn, past, verdicts;
    }
    var action;
    action, strikes, failing, passing, extensions := SpendTurn(reply, limit, n, turn, strikes, failing, passing, extensions, breaker, past, verdicts);
    past, verdicts := past + [Failure(turn, r.hash, r.summary)], verdicts + [action];
    if action.Trip? {
      EndsTripped(reply, least, limit, n, strikes0, failing0, passing0, past0, extensions, verdicts0, Failure(turn, r.hash, r.summary));
      return true, CircuitTripped, strikes, failing, passing, extensions, turn, past, verdicts;
    }
    GoesOnCounted(reply, least, limit, n, strikes0, failing0, passing0, past0, extensions0, verdicts0, strikes, failing, passing, past, extensions, action);
    over, turn := false, turn + 1;
  }

  /** A reply that costs a turn: the breaker judges its failure and, unless it trips, progress
      is rewarded and the test counts are remembered. */
  method SpendTurn(reply: Replies, limit: nat, n: nat, turn: nat, strikes0: int, failing0: int, passing0: int, extensions0: nat,
                   breaker: Breaker, ghost past: seq<Failure>, ghost verdicts: seq<Action>)
      returns (action: Action, strikes: int, failing: int, passing: int, extensions: nat)
    requires Matches(reply, limit, n, strikes0, failing0, passing0, past, extensions0) && (reply(n).mutated || strikes0 == NOOP_STRIKES)
    requires breaker.Valid() && breaker.past == past && VerdictsOf(verdicts, past) && turn == |past| + 1
    modifies breaker
    ensures var longer := past + [Failure(turn, reply(n).hash, reply(n).summary)];
            && breaker.Valid() && breaker.past == longer == Failures(reply, n + 1) && VerdictsOf(verdicts + [action], longer)
            && (if action.Trip? then extensions == extensions0 else Matches(reply, limit, n + 1, strikes, failing, passing, longer, extensions))
  {
    var r := reply(n);
    CountedStep(reply, limit, n, strikes0, failing0, passing0, past, extensions0);
    strikes, failing, passing, extensions := if r.mutated then 0 else strikes0, failing0, passing0, extensions0;
    var decision := breaker.RecordFailure(Failure(turn, r.hash, r.summary));
    VerdictsGrow(verdicts, past, breaker.past, decision.action);
    action := decision.action;
    if action.Trip? {
      return;
    }
    if failing >= 0 && GrantsExtension(limit, failing, r.failures, passing, r.passing, extensions) {
      extensions := extensions + 1;
    }
    if r.failures > 0 || r.passing > 0 {
      failing, passing := r.failures, r.passing;
    }
  }

  ghost predicate VerdictsOf(vs: seq<Action>, past: seq<Failure>) {
    |vs| == |past| && forall i :: 0 <= i < |vs| ==> vs[i] == VerdictAt(past, i)
  }

  lemma {:induction false} VerdictsGrow(vs: seq<Action>, before: seq<Failure>, after: seq<Failure>, a: Action)
    requires VerdictsOf(vs, before) && |after| == |before| + 1 && before == after[..|before|] && a == VerdictAt(after, |before|)
    ensures VerdictsOf(vs + [a], after)
  {
    forall i | 0 <= i < |vs| ensures vs[i] == VerdictAt(after, i) {
      assert after[..i] == before[..i];
    }
  }

  lemma {:induction false} VerdictsReconcileOnce(vs: seq<Action>, past: seq<Failure>, ending: Ending)
    requires VerdictsOf(vs, past)
    requires forall i :: 0 <= i < |vs| && vs[i].Trip? ==> i == |vs| - 1 && ending.CircuitTripped?
    ensures OneReconciliation(vs, ending)
  {
    forall i, j | 0 <= i < j < |vs|
      ensures !(vs[i].Reconcile? && vs[j].Reconcile?)
      ensures !vs[i].Continue? && !vs[j].Continue? ==> vs[j].Trip?
    {
      ReconcileThenTrip(past, i, j);
    }
    forall i | 0 <= i < |vs| && vs[i].Trip? ensures exists j :: 0 <= j < i && vs[j].Reconcile? {
      TripNeedsReconcile(past, i);
      var j :| 0 <= j < i && VerdictAt(past, j).Reconcile?;
      assert vs[j].Reconcile?;
    }
  }
}
