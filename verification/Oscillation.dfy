/** OscillationCircuitBreaker: detection of recurring failure states over a bounded history. */
module Oscillation {

  /** One failed turn, with the fingerprint of its log. */
  datatype Failure = Failure(turn: int, hash: string, summary: string)

  datatype Action = Continue | Reconcile | Trip

  datatype Decision = Decision(action: Action, period: nat, stateA: string, stateB: string)

  const WINDOW := 12
  const MAX_RECONCILIATIONS := 1
  const MAX_PERIOD := 4

  // ----- the breaker that forgets nothing -----

  /** p turns ago the failure was the same, and it was different at some point in between. */
  predicate Recurs(past: seq<Failure>, hash: string, p: nat) {
    var n := |past|;
    && 2 <= p <= MAX_PERIOD && p <= n && past[n - p].hash == hash
    && exists k :: n - p < k < n && past[k].hash != hash
  }

  function Period(past: seq<Failure>, hash: string): nat {
    if Recurs(past, hash, 2) then 2 else if Recurs(past, hash, 3) then 3 else if Recurs(past, hash, 4) then 4 else 0
  }

  /** The period reported is the least one in which the failure recurs, or 0 when none does. */
  lemma {:induction false} PeriodIsLeast(past: seq<Failure>, hash: string)
    ensures var p := Period(past, hash);
            if p == 0 then forall q :: 2 <= q <= 4 ==> !SameAgo(past, hash, q)
            else 2 <= p <= 4 && SameAgo(past, hash, p) && forall q :: 2 <= q < p ==> !SameAgo(past, hash, q)
  {
    forall q: nat | 2 <= q <= 4 ensures Recurs(past, hash, q) <==> SameAgo(past, hash, q) {}
    var p := Period(past, hash);
    forall q | 2 <= q <= 4 && (p == 0 || q < p) ensures !SameAgo(past, hash, q) {
      assert q == 2 || q == 3 || q == 4;
    }
  }

  /** q failures ago the hash was the same, and some failure since then had another. */
  ghost predicate SameAgo(past: seq<Failure>, hash: string, q: int) {
    0 < q <= |past| && past[|past| - q].hash == hash && exists k :: |past| - q < k < |past| && past[k].hash != hash
  }

  function Verdict(period: nat, reconciliations: nat): Action {
    if period == 0 then Continue else if reconciliations < MAX_RECONCILIATIONS then Reconcile else Trip
  }

  /** The verdicts over a whole stream of failures, with unbounded memory. */
  function Reconciliations(stream: seq<Failure>): nat {
    if stream == [] then 0
    else
      var n := |stream| - 1;
      Reconciliations(stream[..n])
      + if Verdict(Period(stream[..n], stream[n].hash), Reconciliations(stream[..n])).Reconcile? then 1 else 0
  }

  function VerdictAt(stream: seq<Failure>, i: nat): Action
    requires i < |stream|
  {
    Verdict(Period(stream[..i], stream[i].hash), Reconciliations(stream[..i]))
  }

  // ----- the breaker as written -----

  /** The search of RecordFailure: periods from short to long, each with its own check that
      the states in between are not all the same. */
  method FindPeriod(history: seq<Failure>, hash: string) returns (period: nat)
    ensures period == Period(history, hash)
  {
    var n := |history|;
    var p := 2;
    while p <= MAX_PERIOD && p <= n
      invariant 2 <= p <= MAX_PERIOD + 1
      invariant forall q: nat :: q < p ==> !Recurs(history, hash, q)
    {
      if history[n - p].hash == hash {
        var differs := false;
        for k := n - p + 1 to n
          invariant differs <==> exists i :: n - p < i < k && history[i].hash != hash
        {
          if history[k].hash != hash {
            differs := true;
            break;
          }
        }
        if differs {
          PeriodFound(history, hash, p);
          return p;
        }
      }
      p := p + 1;
    }
    PeriodFound(history, hash, 0);
    period := 0;
  }

  /** The last failures of a stream, as many as the window holds. */
  function Recent(past: seq<Failure>): seq<Failure> {
    if |past| <= WINDOW then past else past[|past| - WINDOW..]
  }

  lemma {:induction false} WindowSlides(past: seq<Failure>, f: Failure)
    ensures Recent(past + [f]) == (var h := Recent(past) + [f]; if |h| > WINDOW then h[|h| - WINDOW..] else h)
    ensures past != [] ==> Recent(past + [f])[|Recent(past)| - 1] == if |past| < WINDOW then past[|past| - 1] else f
  {
  }

  lemma {:induction false} StreamGrows(past: seq<Failure>, f: Failure)
    ensures VerdictAt(past + [f], |past|) == Verdict(Period(past, f.hash), Reconciliations(past))
    ensures Reconciliations(past + [f]) == Reconciliations(past) + if VerdictAt(past + [f], |past|).Reconcile? then 1 else 0
  {
    assert (past + [f])[..|past|] == past;
  }

  /** What the breaker must answer, in terms of everything recorded so far. The first state it
      reports is the earlier occurrence; the second is the failure just before the current
      one only while the window is not full: the list is trimmed before it is read, so with
      a full window it is the current failure itself. */
  function DecisionOn(past: seq<Failure>, reconciliations: nat, f: Failure): Decision {
    var p := Period(past, f.hash);
    if p == 0 then Decision(Continue, 0, "", "")
    else Decision(Verdict(p, reconciliations), p, past[|past| - p].summary,
                  (if |past| < WINDOW then past[|past| - 1] else f).summary)
  }

  method Decide(history: seq<Failure>, reconciliations: nat, f: Failure, ghost past: seq<Failure>)
      returns (d: Decision, trimmed: seq<Failure>)
    requires history == Recent(past)
    ensures trimmed == Recent(past + [f]) && d == DecisionOn(past, reconciliations, f)
  {
    var n := |history|;
    var period := FindPeriod(history, f.hash);
    SameInWindow(past, f.hash);
    WindowSlides(past, f);
    trimmed := history + [f];
    if |trimmed| > WINDOW {
      trimmed := trimmed[|trimmed| - WINDOW..];
    }
    if period > 0 {
      var a, b := history[n - period].summary, trimmed[n - 1].summary;
      assert a == past[|past| - period].summary;
      if reconciliations < MAX_RECONCILIATIONS {
        return Decision(Reconcile, period, a, b), trimmed;
      }
      return Decision(Trip, period, a, b), trimmed;
    }
    d := Decision(Continue, 0, "", "");
  }

  class Breaker {
    var history: seq<Failure>
    var reconciliations: nat
    ghost var past: seq<Failure>      // every failure ever recorded

    ghost predicate Valid()
      reads this
    {
      && history == Recent(past)
      && reconciliations == Reconciliations(past)
    }

    constructor ()
      ensures Valid() && past == [] && reconciliations == 0
    {
      history, reconciliations, past := [], 0, [];
    }

    /** The windowed breaker decides exactly as one that remembers everything. */
    method RecordFailure(f: Failure) returns (d: Decision)
      requires Valid()
      modifies this
      ensures Valid() && past == old(past) + [f] && |history| <= 12
      ensures d == DecisionOn(old(past), old(reconciliations), f)
      ensures d.action == VerdictAt(past, |old(past)|) && d.period == Period(old(past), f.hash)
    {
      d, history := Decide(history, reconciliations, f, past);
      StreamGrows(past, f);
      if d.action.Reconcile? {
        reconciliations := reconciliations + 1;
      }
      past := past + [f];
    }
  }

  lemma {:induction false} PeriodFound(history: seq<Failure>, hash: string, p: nat)
    requires p == 0 ==> forall q :: !Recurs(history, hash, q)
    requires p != 0 ==> Recurs(history, hash, p) && forall q: nat :: q < p ==> !Recurs(history, hash, q)
    ensures Period(history, hash) == p
  {
  }

  /** The window is long enough for every period looked for. */
  lemma {:induction false} SameInWindow(past: seq<Failure>, hash: string)
    ensures Period(past, hash) == Period(Recent(past), hash) <= |Recent(past)|
  {
    RecursInSuffix(past, |past| - |Recent(past)|, hash, 2);
    RecursInSuffix(past, |past| - |Recent(past)|, hash, 3);
    RecursInSuffix(past, |past| - |Recent(past)|, hash, 4);
  }

  lemma {:induction false} RecursInSuffix(past: seq<Failure>, d: nat, hash: string, q: nat)
    requires d <= |past| && (d > 0 ==> q <= |past| - d)
    ensures Recurs(past, hash, q) <==> Recurs(past[d..], hash, q)
  {
    var recent := past[d..];
    if Recurs(past, hash, q) {
      var k :| |past| - q < k < |past| && past[k].hash != hash;
      assert recent[k - d] == past[k];
    }
    if Recurs(recent, hash, q) {
      var k :| |recent| - q < k < |recent| && recent[k].hash != hash;
      assert past[k + d] == recent[k];
    }
  }

  // ----- whole streams -----

  lemma {:induction false} ReconcileOnce(stream: seq<Failure>)
    ensures Reconciliations(stream) <= 1
    ensures Reconciliations(stream) == 0 <==> forall i: nat :: i < |stream| ==> VerdictAt(stream, i).Continue?
  {
    if stream != [] {
      var n := |stream| - 1;
      var init := stream[..n];
      ReconcileOnce(init);
      forall i: nat | i < n ensures VerdictAt(stream, i) == VerdictAt(init, i) {
        assert init[..i] == stream[..i];
      }
      assert VerdictAt(stream, n) == Verdict(Period(init, stream[n].hash), Reconciliations(init));
      if Reconciliations(init) != 0 {
        var i: nat :| i < |init| && !VerdictAt(init, i).Continue?;
        assert !VerdictAt(stream, i).Continue?;
      }
    }
  }

  /** Over any stream of failures the breaker asks for a reconciliation at most once, the
      first oscillation it detects is the one it reconciles, and every later one trips. */
  lemma {:induction false} ReconcileThenTrip(stream: seq<Failure>, i: nat, j: nat)
    requires i < j < |stream|
    ensures VerdictAt(stream, j).Trip? <== !VerdictAt(stream, i).Continue? && !VerdictAt(stream, j).Continue?
    ensures VerdictAt(stream, j).Reconcile? ==> VerdictAt(stream, i).Continue?
  {
    ReconcileOnce(stream[..j]);
    assert stream[..j][..i] == stream[..i];
    assert VerdictAt(stream[..j], i) == VerdictAt(stream, i);
  }

  lemma {:induction false} TripNeedsReconcile(stream: seq<Failure>, j: nat)
    requires j < |stream| && VerdictAt(stream, j).Trip?
    ensures exists i :: 0 <= i < j && VerdictAt(stream, i).Reconcile?
  {
    FirstDetectionReconciles(stream, j);
  }

  lemma {:induction false} FirstDetectionReconciles(stream: seq<Failure>, j: nat)
    requires j <= |stream| && Reconciliations(stream[..j]) > 0
    ensures exists i :: 0 <= i < j && VerdictAt(stream, i).Reconcile?
  {
    if j > 0 {
      var n := j - 1;
      assert stream[..j][..n] == stream[..n];
      if !VerdictAt(stream, n).Reconcile? {
        FirstDetectionReconciles(stream, n);
      }
    }
  }

  /** Failing in the same way for ever is stagnation, not oscillation: the verdict is always
      to continue. */
  lemma {:induction false} ConstantStreamContinues(stream: seq<Failure>, i: nat)
    requires i < |stream| && forall a, b :: 0 <= a < b < |stream| ==> stream[a].hash == stream[b].hash
    ensures VerdictAt(stream, i) == Continue
  {
    var past := stream[..i];
    forall q ensures !Recurs(past, stream[i].hash, q) {
      forall k | 0 <= k < |past| ensures past[k].hash == stream[i].hash {}
    }
  }
}
