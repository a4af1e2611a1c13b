/** recordTokenUsage as a client of the shared-state protocol: the token counters of the
    stored state, and what concurrent recording conserves. */
module TokenLedger {
  import opened SharedState
  import opened Text

  datatype TaskTokens = TaskTokens(id: string, used: int)
  datatype Ledger = Ledger(total: int, tasks: seq<TaskTokens>)
  datatype Usage = Usage(tokens: int, taskId: string)

  /** The first task with the given id, or |tasks|. */
  function IndexOf(tasks: seq<TaskTokens>, id: string): (r: nat)
    ensures r <= |tasks| && (r < |tasks| ==> tasks[r].id == id)
    ensures forall i :: 0 <= i < r ==> tasks[i].id != id
  {
    if tasks == [] || tasks[0].id == id then 0 else 1 + IndexOf(tasks[1..], id)
  }

  function Recorded(u: Usage, l: Ledger): Option<Ledger> {
    var k := IndexOf(l.tasks, u.taskId);
    var tasks := if u.taskId == "" || k == |l.tasks| then l.tasks
                 else l.tasks[k := TaskTokens(l.tasks[k].id, l.tasks[k].used + u.tokens)];
    Some(Ledger(l.total + u.tokens, tasks))
  }

  /** The update closure, with its loop over the tasks. */
  method RecordTokenUsage(l: Ledger, u: Usage) returns (r: Ledger)
    ensures Recorded(u, l) == Some(r)
  {
    var total := l.total + u.tokens;
    var tasks := l.tasks;
    if u.taskId != "" {
      var i := 0;
      while i < |tasks|
        invariant 0 <= i <= |tasks| && tasks == l.tasks
        invariant i <= IndexOf(l.tasks, u.taskId)
      {
        if tasks[i].id == u.taskId {
          tasks := tasks[i := TaskTokens(tasks[i].id, tasks[i].used + u.tokens)];
          break;
        }
        i := i + 1;
      }
    }
    r := Ledger(total, tasks);
  }

  function TaskSum(tasks: seq<TaskTokens>): int {
    if tasks == [] then 0 else tasks[0].used + TaskSum(tasks[1..])
  }

  /** A usage is charged to a task exactly when it names one that the ledger knows. */
  predicate Charged(u: Usage, tasks: seq<TaskTokens>) {
    u.taskId != "" && exists i :: 0 <= i < |tasks| && tasks[i].id == u.taskId
  }

  lemma {:induction false} BumpSum(tasks: seq<TaskTokens>, k: nat, d: int)
    requires k < |tasks|
    ensures TaskSum(tasks[k := TaskTokens(tasks[k].id, tasks[k].used + d)]) == TaskSum(tasks) + d
  {
    var bumped := tasks[k := TaskTokens(tasks[k].id, tasks[k].used + d)];
    if k == 0 {
      assert bumped[1..] == tasks[1..];
    } else {
      assert bumped[1..] == tasks[1..][k - 1 := TaskTokens(tasks[k].id, tasks[k].used + d)];
      BumpSum(tasks[1..], k - 1, d);
    }
  }

  /** Tokens of the logged callers, all of them or only those charged to a known task. */
  ghost function Spent(cs: seq<Caller<Usage>>, log: seq<nat>, tasks: seq<TaskTokens>, onlyCharged: bool): int
    requires forall i :: 0 <= i < |log| ==> log[i] < |cs|
  {
    if log == [] then 0
    else
      var u := cs[log[|log| - 1]].update;
      Spent(cs, log[..|log| - 1], tasks, onlyCharged)
      + if onlyCharged && !Charged(u, tasks) then 0 else u.tokens
  }

  /** The task a usage is charged to: the first one with its id. */
  predicate ChargedTo(u: Usage, tasks: seq<TaskTokens>, i: int) {
    && u.taskId != "" && 0 <= i < |tasks| && tasks[i].id == u.taskId
    && forall j :: 0 <= j < i ==> tasks[j].id != u.taskId
  }

  /** Tokens of the logged callers that are charged to task i. */
  ghost function SpentOn(cs: seq<Caller<Usage>>, log: seq<nat>, tasks: seq<TaskTokens>, i: int): int
    requires forall k :: 0 <= k < |log| ==> log[k] < |cs|
  {
    if log == [] then 0
    else
      var u := cs[log[|log| - 1]].update;
      SpentOn(cs, log[..|log| - 1], tasks, i) + if ChargedTo(u, tasks, i) then u.tokens else 0
  }

  /** Every single task's counter grows by exactly the committed usage charged to it. */
  lemma {:induction false} ReplayConservesEach(cs: seq<Caller<Usage>>, start: Ledger, log: seq<nat>, i: nat)
    requires (forall k :: 0 <= k < |log| ==> log[k] < |cs|) && i < |start.tasks|
    ensures var r := Replay(cs, Recorded, start, log);
            r.Some? && |r.value.tasks| == |start.tasks| && r.value.tasks[i].used == start.tasks[i].used + SpentOn(cs, log, start.tasks, i)
  {
    ReplayConserves(cs, start, log);
    if log != [] {
      var shorter := log[..|log| - 1];
      ReplayConservesEach(cs, start, shorter, i);
      ReplayConserves(cs, start, shorter);
      var before := Replay(cs, Recorded, start, shorter).value;
      assert forall j :: 0 <= j < |start.tasks| ==> before.tasks[j].id == start.tasks[j].id;
      var u := cs[log[|log| - 1]].update;
      assert ChargedTo(u, start.tasks, i) <==> u.taskId != "" && IndexOf(before.tasks, u.taskId) == i;
    }
  }

  lemma {:induction false} ReplayConserves(cs: seq<Caller<Usage>>, start: Ledger, log: seq<nat>)
    requires forall i :: 0 <= i < |log| ==> log[i] < |cs|
    ensures var r := Replay(cs, Recorded, start, log);
            && r.Some?
            && r.value.total == start.total + Spent(cs, log, start.tasks, false)
            && TaskSum(r.value.tasks) == TaskSum(start.tasks) + Spent(cs, log, start.tasks, true)
            && |r.value.tasks| == |start.tasks|
            && forall i :: 0 <= i < |start.tasks| ==> r.value.tasks[i].id == start.tasks[i].id
  {
    if log != [] {
      ReplayConserves(cs, start, log[..|log| - 1]);
      var before := Replay(cs, Recorded, start, log[..|log| - 1]).value;
      var u := cs[log[|log| - 1]].update;
      var k := IndexOf(before.tasks, u.taskId);
      if u.taskId != "" && k < |before.tasks| {
        BumpSum(before.tasks, k, u.tokens);
        assert start.tasks[k].id == u.taskId;
      } else if u.taskId != "" {
        assert forall i :: 0 <= i < |start.tasks| ==> before.tasks[i].id == start.tasks[i].id;
      }
    }
  }

  lemma {:induction false} ChargedIsPartOfSpent(cs: seq<Caller<Usage>>, log: seq<nat>, tasks: seq<TaskTokens>)
    requires forall i :: 0 <= i < |log| ==> log[i] < |cs| && cs[log[i]].update.tokens > 0
    ensures Spent(cs, log, tasks, true) <= Spent(cs, log, tasks, false)
  {
    if log != [] {
      ChargedIsPartOfSpent(cs, log[..|log| - 1], tasks);
    }
  }

  /** In every interleaving of any number of recorders the grand total is the initial one
      plus exactly the committed usage, the per-task counters grow by exactly the charged
      part of it, and a total that covers the tasks keeps covering them. */
  lemma {:induction false} TokensAreConserved(cs: seq<Caller<Usage>>, s0: System<Ledger>, es: seq<Event>, s: System<Ledger>)
    requires Initial(s0) && Run(cs, Recorded, s0, es, s)
    requires forall i :: 0 <= i < |cs| ==> cs[i].update.tokens > 0
    ensures forall k :: 0 <= k < |s.log| ==> s.log[k] < |cs|
    ensures s.value.total == s0.value.total + Spent(cs, s.log, s0.value.tasks, false)
    ensures TaskSum(s.value.tasks) == TaskSum(s0.value.tasks) + Spent(cs, s.log, s0.value.tasks, true)
    ensures TaskSum(s0.value.tasks) <= s0.value.total ==> TaskSum(s.value.tasks) <= s.value.total
    ensures |s.value.tasks| == |s0.value.tasks|
    ensures forall i :: 0 <= i < |s0.value.tasks| ==> s.value.tasks[i].used == s0.value.tasks[i].used + SpentOn(cs, s.log, s0.value.tasks, i)
  {
    StoredStateIsReplayOfCommits(cs, Recorded, s0, es, s);
    ReplayConserves(cs, s0.value, s.log);
    ChargedIsPartOfSpent(cs, s.log, s0.value.tasks);
    forall i | 0 <= i < |s0.value.tasks| ensures s.value.tasks[i].used == s0.value.tasks[i].used + SpentOn(cs, s.log, s0.value.tasks, i) {
      ReplayConservesEach(cs, s0.value, s.log, i);
    }
  }
}
