/** The outcome update of executeTask as a retry state machine, and how many attempts any
    schedule of any number of concurrent tasks can make. */
module TaskAttempts {
  import opened TaskStatus

  datatype Build = Passing | Failing | Unknown
  datatype Task = Task(id: string, status: Status, retries: nat, maxRetries: int, progress: int, failureLog: string)

  /** The task's own limit, else the configured one, else 3. */
  function EffectiveMax(t: Task, configured: int): (r: nat)
    ensures r > 0 && (t.maxRetries > 0 ==> r == t.maxRetries)
    ensures t.maxRetries <= 0 ==> r == if configured > 0 then configured else 3
  {
    if t.maxRetries > 0 then t.maxRetries else if configured > 0 then configured else 3
  }

  /** How an attempt ended; a sandbox failure is one the environment is to blame for. */
  datatype Attempt = Passed | SandboxFailure(log: string) | OrdinaryFailure(log: string)

  /** The task after an attempt. The decision to retry was taken on the snapshot loaded when
      the attempt started; the task it is applied to is the stored one. */
  function Settled(stored: Task, snapshot: Task, a: Attempt, configured: int): Task {
    var limit := EffectiveMax(snapshot, configured);
    var t := if stored.maxRetries <= 0 then stored.(maxRetries := limit) else stored;
    match a
    case Passed => t.(status := Success, progress := 100, failureLog := "")
    case SandboxFailure(log) =>
      t.(status := Failed, progress := 0, failureLog := "Unrecoverable environment error (sandbox): " + log)
    case OrdinaryFailure(log) =>
      if snapshot.retries < limit then t.(status := Pending, retries := t.retries + 1, progress := 0, failureLog := log)
      else t.(status := Failed, progress := 0, failureLog := log)
  }

  function Find(tasks: seq<Task>, id: string): (r: nat)
    ensures r <= |tasks| && (r < |tasks| ==> tasks[r].id == id) && forall k :: 0 <= k < r ==> tasks[k].id != id
  {
    if tasks == [] || tasks[0].id == id then 0 else 1 + Find(tasks[1..], id)
  }

  /** The stored state that the update closure changes in place. */
  class Store {
    var tasks: seq<Task>
    var build: Build

    constructor (ts: seq<Task>)
      ensures tasks == ts && build == Unknown
    {
      tasks, build := ts, Unknown;
    }

    /** A task that vanished from the stored state is put back first; all other tasks stay
        as they are. */
    method RecordOutcome(id: string, snapshot: Task, a: Attempt, configured: int)
      requires snapshot.id == id
      modifies this
      ensures var k := Find(old(tasks), id);
              var present := if k < |old(tasks)| then old(tasks) else old(tasks) + [snapshot];
              && k < |present| && tasks == present[k := Settled(present[k], snapshot, a, configured)]
              && AfterAttempt(present[k], snapshot, a, configured, tasks[k])
      ensures build == if a.Passed? then old(build) else Failing
    {
      var limit := if snapshot.maxRetries > 0 then snapshot.maxRetries else if configured > 0 then configured else 3;
      var shouldRetry := a.OrdinaryFailure? && snapshot.retries < limit;
      var k := 0;
      while k < |tasks| && tasks[k].id != id
        invariant 0 <= k <= Find(old(tasks), id) && tasks == old(tasks) && build == old(build)
        decreases Find(old(tasks), id) - k
      {
        k := k + 1;
      }
      if k == |tasks| {
        tasks := tasks + [snapshot];
      }
      var target := tasks[k];
      if target.maxRetries <= 0 {
        target := target.(maxRetries := limit);
      }
      if a.Passed? {
        target := target.(status := Success, progress := 100, failureLog := "");
      } else {
        if a.SandboxFailure? {
          target := target.(status := Failed, failureLog := "Unrecoverable environment error (sandbox): " + a.log);
        } else if shouldRetry {
          target := target.(retries := target.retries + 1, failureLog := a.log, status := Pending);
        } else {
          target := target.(status := Failed, failureLog := a.log);
        }
        target := target.(progress := 0);
        build := Failing;
      }
      AttemptOutcomes(tasks[k], snapshot, a, configured);
      tasks := tasks[k := target];
    }
  }

  /** What an attempt does to the stored task, case by case: success exactly when it passed,
      pending with one more retry exactly after an ordinary failure whose snapshot had retries
      left, failed in every other case. */
  ghost predicate AfterAttempt(stored: Task, snapshot: Task, a: Attempt, configured: int, after: Task) {
    var limit := if snapshot.maxRetries > 0 then snapshot.maxRetries else if configured > 0 then configured else 3;
    var again := a.OrdinaryFailure? && snapshot.retries < limit;
    && after.id == stored.id && after.maxRetries == (if stored.maxRetries > 0 then stored.maxRetries else limit)
    && (after.status.Success? <==> a.Passed?) && (after.status.Pending? <==> again) && (after.status.Failed? <==> !a.Passed? && !again)
    && after.retries == stored.retries + (if again then 1 else 0)
    && after.progress == (if a.Passed? then 100 else 0)
    && after.failureLog == (match a
                            case Passed => ""
                            case SandboxFailure(log) => "Unrecoverable environment error (sandbox): " + log
                            case OrdinaryFailure(log) => log)
  }

  lemma {:induction false} AttemptOutcomes(stored: Task, snapshot: Task, a: Attempt, configured: int)
    ensures AfterAttempt(stored, snapshot, a, configured, Settled(stored, snapshot, a, configured))
  {
  }

  /** A task that goes back to the queue stays within its effective maximum. */
  lemma {:induction false} RetriesStayWithin(t: Task, a: Attempt, configured: int)
    ensures var r := Settled(t, t, a, configured);
            EffectiveMax(r, configured) == EffectiveMax(t, configured) && (r.status.Pending? ==> r.retries <= EffectiveMax(t, configured))
  {
  }

  // ----- schedules -----

  predicate Eligible(t: Task) { MayStart(t.status, t.retries, t.maxRetries) }

  /** The attempts a task can still be given. */
  function Credit(t: Task, configured: int): nat {
    var left := if t.retries < EffectiveMax(t, configured) then EffectiveMax(t, configured) - t.retries else 0;
    if Eligible(t) then left + 1 else if t.status.InProgress? then left else 0
  }

  function TotalCredit(tasks: seq<Task>, configured: int): nat {
    if tasks == [] then 0 else TotalCredit(tasks[..|tasks| - 1], configured) + Credit(tasks[|tasks| - 1], configured)
  }

  /** `revivals` counts the attempts that failed a task without using up a retry although it
      had retries left: a sandbox failure, or a workspace that could not be set up. */
  datatype State = State(tasks: seq<Task>, running: map<nat, Task>, started: nat, revivals: nat)

  datatype Event =
    | Start(task: nat)
    | End(task: nat, attempt: Attempt)
    | SetupFails(task: nat)

  ghost predicate Enabled(s: State, e: Event) {
    e.task < |s.tasks| &&
    match e
    case Start(i) => i !in s.running && Eligible(s.tasks[i])
    case End(i, _) => i in s.running
    case SetupFails(i) => i in s.running
  }

  ghost function Next(s: State, e: Event, configured: int): State
    requires Enabled(s, e)
  {
    var t := s.tasks[e.task];
    match e
    case Start(i) =>
      s.(tasks := s.tasks[i := t.(status := InProgress, progress := 10)], running := s.running[i := t], started := s.started + 1)
    case End(i, a) => Ended(s, i, Settled(t, s.running[i], a, configured))
    case SetupFails(i) => Ended(s, i, t.(status := Failed))
  }

  ghost function Ended(s: State, i: nat, t: Task): State
    requires i < |s.tasks|
  {
    s.(tasks := s.tasks[i := t], running := s.running - {i},
       revivals := s.revivals + if t.status.Failed? && Eligible(t) then 1 else 0)
  }

  ghost predicate Run(s: State, es: seq<Event>, configured: int, s': State)
    decreases |es|
  {
    if es == [] then s' == s
    else Enabled(s, es[0]) && Run(Next(s, es[0], configured), es[1..], configured, s')
  }

  /** A running task is in progress, and its retries are those of its snapshot. */
  ghost predicate Inv(s: State) {
    forall i :: i in s.running ==>
      i < |s.tasks| && s.tasks[i].status.InProgress?
      && s.tasks[i].retries == s.running[i].retries && s.tasks[i].maxRetries == s.running[i].maxRetries
  }

  lemma {:induction false} CreditUpdate(tasks: seq<Task>, i: nat, t: Task, configured: int)
    requires i < |tasks|
    ensures TotalCredit(tasks[i := t], configured) == TotalCredit(tasks, configured) - Credit(tasks[i], configured) + Credit(t, configured)
  {
    var n := |tasks| - 1;
    if i == n {
      assert tasks[i := t][..n] == tasks[..n];
    } else {
      assert tasks[i := t][..n] == tasks[..n][i := t];
      CreditUpdate(tasks[..n], i, t, configured);
    }
  }

  /** The events that leave a failed task which may start again: an attempt that fails for
      environment reasons, or a workspace that cannot be set up, while retries are left. A
      failed setup does not fill in a missing limit, so there it must be the task's own. */
  ghost predicate Revives(s: State, e: Event, configured: int)
    requires Enabled(s, e)
  {
    var t := s.tasks[e.task];
    match e
    case Start(_) => false
    case End(_, a) => a.SandboxFailure? && t.retries < EffectiveMax(t, configured)
    case SetupFails(_) => t.retries < t.maxRetries
  }

  /** The credit an event throws away: what a task still had when it ended for good. */
  ghost function Forfeited(s: State, e: Event, configured: int): nat
    requires Enabled(s, e)
  {
    if e.Start? || Eligible(Next(s, e, configured).tasks[e.task]) then 0 else Credit(s.tasks[e.task], configured)
  }

  /** The account is exact: a start costs one unit of credit; a revival returns one; every other
      end gives back nothing and forfeits what the task had left, if it ended for good. */
  lemma {:induction false} StepAccounts(s: State, e: Event, configured: int)
    requires Inv(s) && Enabled(s, e)
    ensures var s' := Next(s, e, configured);
            && Inv(s') && |s'.tasks| == |s.tasks|
            && s'.started == s.started + (if e.Start? then 1 else 0)
            && s'.revivals == s.revivals + (if Revives(s, e, configured) then 1 else 0)
            && s'.started + TotalCredit(s'.tasks, configured) + Forfeited(s, e, configured)
                 == s.started + TotalCredit(s.tasks, configured) + (if Revives(s, e, configured) then 1 else 0)
  {
    var s' := Next(s, e, configured);
    CreditUpdate(s.tasks, e.task, s'.tasks[e.task], configured);
    TaskAccounts(s, e, configured);
  }

  lemma {:induction false} TaskAccounts(s: State, e: Event, configured: int)
    requires Inv(s) && Enabled(s, e)
    ensures var s', i := Next(s, e, configured), e.task;
            && s'.revivals == s.revivals + (if Revives(s, e, configured) then 1 else 0)
            && (if e.Start? then 1 else 0) + Credit(s'.tasks[i], configured) + Forfeited(s, e, configured)
                 == Credit(s.tasks[i], configured) + (if Revives(s, e, configured) then 1 else 0)
  {
    if e.End? {
      EndAccounts(s.tasks[e.task], s.running[e.task], e.attempt, configured);
    }
  }

  lemma {:induction false} EndAccounts(t: Task, snapshot: Task, a: Attempt, configured: int)
    requires t.status.InProgress? && t.retries == snapshot.retries && t.maxRetries == snapshot.maxRetries
    ensures var r, revived := Settled(t, snapshot, a, configured), a.SandboxFailure? && t.retries < EffectiveMax(t, configured);
            && (r.status.Failed? && Eligible(r) <==> revived)
            && (if Eligible(r) then Credit(r, configured) == Credit(t, configured) + (if revived then 1 else 0) else Credit(r, configured) == 0)
  {
  }

  /** Any schedule of any number of tasks, running concurrently in any interleaving, makes at
      most the sum of (remaining retries + 1) attempts over the eligible tasks, plus one for
      every revival. */
  lemma {:induction false} AttemptsBounded(s: State, es: seq<Event>, configured: int, s': State)
    requires Inv(s) && Run(s, es, configured, s')
    ensures s'.started + s.revivals <= s.started + TotalCredit(s.tasks, configured) + s'.revivals
    decreases |es|
  {
    if es != [] {
      StepAccounts(s, es[0], configured);
      AttemptsBounded(Next(s, es[0], configured), es[1..], configured, s');
    }
  }

  /** No event of the run revives a task. */
  ghost predicate NothingRevives(s: State, es: seq<Event>, configured: int)
    decreases |es|
  {
    es == [] || (Enabled(s, es[0]) && !Revives(s, es[0], configured) && NothingRevives(Next(s, es[0], configured), es[1..], configured))
  }

  /** Revivals are counted exactly. */
  lemma {:induction false} RevivalsCountedIff(s: State, es: seq<Event>, configured: int, s': State)
    requires Inv(s) && Run(s, es, configured, s')
    ensures s.revivals <= s'.revivals && (s'.revivals == s.revivals <==> NothingRevives(s, es, configured))
    decreases |es|
  {
    if es != [] {
      StepAccounts(s, es[0], configured);
      RevivalsCountedIff(Next(s, es[0], configured), es[1..], configured, s');
    }
  }

  /** Where no event revives a task, the retry budget alone bounds the attempts. */
  lemma {:induction false} RetryBudgetBounds(s: State, es: seq<Event>, configured: int, s': State)
    requires Inv(s) && Run(s, es, configured, s') && NothingRevives(s, es, configured)
    ensures s'.started <= s.started + TotalCredit(s.tasks, configured)
  {
    RevivalsCountedIff(s, es, configured, s');
    AttemptsBounded(s, es, configured, s');
  }

  ghost predicate OnlySandboxFailures(es: seq<Event>) {
    forall k :: 0 <= k < |es| ==> es[k].Start? || (es[k].End? && es[k].attempt.SandboxFailure?)
  }

  ghost predicate OnlySetupFailures(es: seq<Event>) {
    forall k :: 0 <= k < |es| ==> es[k].Start? || es[k].SetupFails?
  }

  /** Each kind of revival alone removes the bound: a task whose environment keeps failing is
      attempted as often as the schedule likes. */
  lemma {:induction false} SandboxFailuresRetryForever(t: Task, n: nat, configured: int) returns (es: seq<Event>, s': State)
    requires Eligible(t) && t.retries < EffectiveMax(t, configured)
    ensures Run(State([t], map[], 0, 0), es, configured, s') && s'.started == n && OnlySandboxFailures(es)
  {
    es, s' := Repeat(t, End(0, SandboxFailure("command not found")), 0, 0, n, configured);
  }

  /** So is a task whose workspace can never be set up. */
  lemma {:induction false} SetupFailuresRetryForever(t: Task, n: nat, configured: int) returns (es: seq<Event>, s': State)
    requires Eligible(t) && t.retries < t.maxRetries
    ensures Run(State([t], map[], 0, 0), es, configured, s') && s'.started == n && OnlySetupFailures(es)
  {
    es, s' := Repeat(t, SetupFails(0), 0, 0, n, configured);
  }

  /** The task keeps its retries when it ends this way. */
  ghost predicate EndsAlive(t: Task, e: Event, configured: int) {
    match e
    case Start(_) => false
    case End(i, a) => i == 0 && a.SandboxFailure? && t.retries < EffectiveMax(t, configured)
    case SetupFails(i) => i == 0 && t.retries < t.maxRetries
  }

  lemma {:induction false} Repeat(t: Task, e: Event, started: nat, revivals: nat, n: nat, configured: int) returns (es: seq<Event>, s': State)
    requires Eligible(t) && EndsAlive(t, e, configured)
    ensures Run(State([t], map[], started, revivals), es, configured, s') && s'.started == started + n
    ensures forall k :: 0 <= k < |es| ==> es[k] == Start(0) || es[k] == e
    decreases n
  {
    var s := State([t], map[], started, revivals);
    if n == 0 {
      es, s' := [], s;
    } else {
      var s1 := Next(s, Start(0), configured);
      var s2 := Next(s1, e, configured);
      var again := s2.tasks[0];
      assert s2.running == map[] && s2.tasks == [again];
      var rest;
      rest, s' := Repeat(again, e, s2.started, s2.revivals, n - 1, configured);
      es := [Start(0), e] + rest;
      assert es[1..] == [e] + rest;
      assert es[1..][1..] == rest;
    }
  }
}
