/** handleDeadlockOrRescue and UnblockIndependentTasks: what happens to the task graph when
    nothing is ready and nobody is working. Saves are taken to succeed without a conflict, so
    the loaded state is the stored one. */
module Deadlock {
  import opened Graph
  import opened TaskStatus
  import opened Text

  datatype Task = Task(id: string, storyId: string, status: Status, dependsOn: seq<string>, targetFiles: seq<string>, failureLog: string)

  const MARKER := "pipeline_deadlock"

  predicate Marked(t: Task) { Contains(t.failureLog, MARKER) }

  predicate Settled(t: Task) { t.status.Success? || t.status.Failed? }

  // ----- pruning -----

  /** Different stories, by story id or by the story part of both task ids. */
  predicate CrossStory(t: Task, f: Task) {
    || (t.storyId != "" && f.storyId != "" && t.storyId != f.storyId)
    || ("US-" <= t.id && "US-" <= f.id && |t.id| >= 6 && |f.id| >= 6 && t.id[..6] != f.id[..6])
  }

  /** A common target file; `fold` maps names that differ only in case to the same string. */
  predicate Collide(t: Task, f: Task, fold: string -> string) {
    exists i, j :: 0 <= i < |t.targetFiles| && 0 <= j < |f.targetFiles| && fold(Trim(t.targetFiles[i])) == fold(Trim(f.targetFiles[j]))
  }

  /** The failed tasks by id. */
  function FailedById(tasks: seq<Task>): map<string, Task> {
    if tasks == [] then map[]
    else
      var t := tasks[|tasks| - 1];
      if t.status.Failed? then FailedById(tasks[..|tasks| - 1])[t.id := t] else FailedById(tasks[..|tasks| - 1])
  }

  /** A dependency on a failed task of another story that touches other files. */
  predicate Prunable(t: Task, dep: string, failed: map<string, Task>, fold: string -> string) {
    var d := Trim(dep);
    && d in failed && CrossStory(t, failed[d])
    && t.targetFiles != [] && failed[d].targetFiles != [] && !Collide(t, failed[d], fold)
  }

  function KeptDeps(t: Task, deps: seq<string>, failed: map<string, Task>, fold: string -> string): seq<string> {
    if deps == [] then []
    else
      var earlier, d := KeptDeps(t, deps[..|deps| - 1], failed, fold), deps[|deps| - 1];
      if Prunable(t, d, failed, fold) then earlier else earlier + [d]
  }

  function PrunedTask(t: Task, failed: map<string, Task>, fold: string -> string): Task {
    if t.status.Pending? then t.(dependsOn := KeptDeps(t, t.dependsOn, failed, fold)) else t
  }

  function Prune(tasks: seq<Task>, failed: map<string, Task>, fold: string -> string): seq<Task> {
    if tasks == [] then []
    else Prune(tasks[..|tasks| - 1], failed, fold) + [PrunedTask(tasks[|tasks| - 1], failed, fold)]
  }

  function PruneCount(tasks: seq<Task>, failed: map<string, Task>, fold: string -> string): nat {
    if tasks == [] then 0
    else
      var t := tasks[|tasks| - 1];
      PruneCount(tasks[..|tasks| - 1], failed, fold) + if PrunedTask(t, failed, fold) != t then 1 else 0
  }

  lemma {:induction false} KeptDepsExact(t: Task, deps: seq<string>, failed: map<string, Task>, fold: string -> string, d: string)
    ensures d in KeptDeps(t, deps, failed, fold) <==> d in deps && !Prunable(t, d, failed, fold)
    ensures |KeptDeps(t, deps, failed, fold)| <= |deps|
    ensures KeptDeps(t, deps, failed, fold) != deps ==> |KeptDeps(t, deps, failed, fold)| < |deps|
  {
    if deps != [] {
      var init := deps[..|deps| - 1];
      KeptDepsExact(t, init, failed, fold, d);
      assert deps == init + [deps[|deps| - 1]];
    }
  }

  lemma {:induction false} PruneAt(tasks: seq<Task>, failed: map<string, Task>, fold: string -> string, i: nat)
    requires i < |tasks|
    ensures |Prune(tasks, failed, fold)| == |tasks| && Prune(tasks, failed, fold)[i] == PrunedTask(tasks[i], failed, fold)
  {
    if i < |tasks| - 1 {
      PruneAt(tasks[..|tasks| - 1], failed, fold, i);
    } else if |tasks| > 1 {
      PruneAt(tasks[..|tasks| - 1], failed, fold, 0);
    }
  }

  /** Pruning removes exactly the prunable dependencies of pending tasks and changes nothing
      else. */
  lemma {:induction false} PruningIsExact(tasks: seq<Task>, fold: string -> string, i: nat, d: string)
    requires i < |tasks|
    ensures var failed := FailedById(tasks);
            var after := Prune(tasks, failed, fold);
            && |after| == |tasks| && after[i] == tasks[i].(dependsOn := after[i].dependsOn)
            && (d in after[i].dependsOn <==>
                  d in tasks[i].dependsOn && !(tasks[i].status.Pending? && Prunable(tasks[i], d, failed, fold)))
  {
    PruneAt(tasks, FailedById(tasks), fold, i);
    KeptDepsExact(tasks[i], tasks[i].dependsOn, FailedById(tasks), fold, d);
  }

  /** The dependency graph as declared, by task id. */
  ghost predicate GraphOf(tasks: seq<Task>, g: Graph) {
    forall a, b :: Edge(g, a, b) <==> exists i :: 0 <= i < |tasks| && tasks[i].id == a && b in tasks[i].dependsOn
  }

  // ----- the same in terms of the tasks alone -----

  /** f is the last failed task with this id. */
  ghost predicate LastFailed(tasks: seq<Task>, id: string, f: Task) {
    exists i :: 0 <= i < |tasks| && tasks[i] == f && f.status.Failed? && f.id == id
             && forall j :: i < j < |tasks| && tasks[j].id == id ==> !tasks[j].status.Failed?
  }

  lemma {:induction false} FailedByIdMeans(tasks: seq<Task>, id: string)
    ensures id in FailedById(tasks) <==> exists i :: 0 <= i < |tasks| && tasks[i].status.Failed? && tasks[i].id == id
    ensures id in FailedById(tasks) ==> LastFailed(tasks, id, FailedById(tasks)[id])
  {
    if tasks != [] {
      var n := |tasks| - 1;
      var init, t := tasks[..n], tasks[n];
      FailedByIdMeans(init, id);
      assert forall i :: 0 <= i < n ==> init[i] == tasks[i];
      if t.status.Failed? && t.id == id {
        assert LastFailed(tasks, id, tasks[n]);
      } else if id in FailedById(init) {
        var f := FailedById(init)[id];
        var i :| 0 <= i < |init| && init[i] == f && f.status.Failed? && f.id == id && forall j :: i < j < |init| && init[j].id == id ==> !init[j].status.Failed?;
        assert tasks[i] == f;
      }
    }
  }

  lemma {:induction false} LastFailedUnique(tasks: seq<Task>, id: string, f: Task, g: Task)
    requires LastFailed(tasks, id, f) && LastFailed(tasks, id, g)
    ensures f == g
  {
  }

  /** The two tasks belong to different stories: by their story ids or, if both ids are long
      enough and start with US-, by the first six characters of their ids. */
  ghost predicate OtherStory(t: Task, f: Task) {
    || (t.storyId != "" && f.storyId != "" && t.storyId != f.storyId)
    || (|t.id| >= 6 && |f.id| >= 6 && t.id[..3] == "US-" == f.id[..3] && t.id[..6] != f.id[..6])
  }

  ghost predicate DisjointFiles(t: Task, f: Task, fold: string -> string) {
    && |t.targetFiles| > 0 && |f.targetFiles| > 0
    && forall i, j :: 0 <= i < |t.targetFiles| && 0 <= j < |f.targetFiles| ==> fold(Trim(t.targetFiles[i])) != fold(Trim(f.targetFiles[j]))
  }

  /** A dependency may go exactly when it names a failed task, the last one with that id counting,
      of another story with other files. */
  lemma {:induction false} PrunableMeans(tasks: seq<Task>, t: Task, dep: string, fold: string -> string)
    ensures Prunable(t, dep, FailedById(tasks), fold) <==>
              exists f :: LastFailed(tasks, Trim(dep), f) && OtherStory(t, f) && DisjointFiles(t, f, fold)
  {
    var id := Trim(dep);
    FailedByIdMeans(tasks, id);
    if id in FailedById(tasks) {
      var g := FailedById(tasks)[id];
      forall f | LastFailed(tasks, id, f) ensures f == g {
        LastFailedUnique(tasks, id, f, g);
      }
      StoriesDiffer(t, g);
    }
  }

  lemma {:induction false} StoriesDiffer(t: Task, f: Task)
    ensures CrossStory(t, f) <==> OtherStory(t, f)
  {
    assert |t.id| >= 3 ==> ("US-" <= t.id <==> t.id[..3] == "US-");
    assert |f.id| >= 3 ==> ("US-" <= f.id <==> f.id[..3] == "US-");
  }

  /** An abort fails exactly the tasks that had neither succeeded nor failed, with the message, and
      leaves everything else as it was. */
  lemma {:induction false} AbortMeans(tasks: seq<Task>, message: string, i: nat)
    requires i < |tasks|
    ensures |Abort(tasks, message)| == |tasks|
    ensures var t, after := tasks[i], Abort(tasks, message)[i];
            if t.status.Success? || t.status.Failed? then after == t
            else after.status.Failed? && after.failureLog == message && after == t.(status := after.status, failureLog := after.failureLog)
  {
    var n := |tasks| - 1;
    if n > 0 {
      AbortMeans(tasks[..n], message, if i < n then i else 0);
    }
  }

  /** What the call records of a rescue: k is the first failed task without the marker, j the
      first task with its id. Success is recorded at j and ends the call; failure leaves the
      marker at j, whether the graph is then pruned or aborted. */
  lemma {:induction false} RescueIsRecorded(tasks: seq<Task>, w: World, k: nat, j: nat)
    requires Stalled(tasks, w) && w.fallback && j <= k < |tasks| && tasks[j].id == tasks[k].id
    requires NeedsRescue(tasks[k]) && (forall i :: 0 <= i < k ==> !NeedsRescue(tasks[i])) && forall i :: 0 <= i < j ==> tasks[i].id != tasks[k].id
    ensures var (v, after) := Reaction(tasks, w);
            && |after| == |tasks| && v != NotStalled
            && (w.rescue(tasks[k]).Rescued? ==>
                  && v == Resumed && after[j] == tasks[j].(status := Success, failureLog := "")
                  && forall i :: 0 <= i < |tasks| && i != j ==> after[i] == tasks[i])
            && (w.rescue(tasks[k]).NotRescued? && Settled(tasks[j]) ==>
                  after[j].failureLog == "[pipeline_deadlock] " + w.rescue(tasks[k]).log && after[j].status == tasks[j].status)
  {
    assert Candidate(tasks) == k && FirstWith(tasks, tasks[k].id) == j;
    var r := w.rescue(tasks[k]);
    if r.NotRescued? {
      var stored := tasks[j := tasks[j].(failureLog := "[pipeline_deadlock] " + r.log)];
      PruneAt(stored, FailedById(tasks), w.fold, j);
      AbortMeans(stored, w.message, j);
    }
  }

  /** So every order that respected the dependencies still does. */
  lemma {:induction false} PruningKeepsOrders(tasks: seq<Task>, fold: string -> string, g: Graph, h: Graph, order: seq<string>)
    requires GraphOf(tasks, g) && GraphOf(Prune(tasks, FailedById(tasks), fold), h)
    requires PrerequisitesFirst(g, order)
    ensures PrerequisitesFirst(h, order)
  {
    var after := Prune(tasks, FailedById(tasks), fold);
    forall k, d | 0 <= k < |order| && Edge(h, order[k], d) ensures d in order[..k] {
      var i :| 0 <= i < |after| && after[i].id == order[k] && d in after[i].dependsOn;
      PruneLength(tasks, FailedById(tasks), fold);
      PruningIsExact(tasks, fold, i, d);
      assert Edge(g, order[k], d);
    }
  }

  lemma {:induction false} PruneLength(tasks: seq<Task>, failed: map<string, Task>, fold: string -> string)
    ensures |Prune(tasks, failed, fold)| == |tasks|
  {
    if tasks != [] { PruneLength(tasks[..|tasks| - 1], failed, fold); }
  }

  // ----- the whole reaction -----

  /** What the call finds around it: live workers, which tasks belong to the story, whether the
      fallback agent is enabled, and what a rescue of each task would bring. */
  datatype World = World(workers: nat, inStory: Task -> bool, fallback: bool, rescue: Task -> Rescue, fold: string -> string, message: string)

  datatype Rescue = Rescued | NotRescued(log: string)

  datatype Verdict = NotStalled | Resumed | Aborted

  /** allTasksFinished looks at the story's tasks only, or at all when none belongs to it. */
  predicate AllFinished(tasks: seq<Task>, inStory: Task -> bool) {
    && tasks != []
    && (forall i :: 0 <= i < |tasks| && inStory(tasks[i]) ==> Settled(tasks[i]))
    && ((forall i :: 0 <= i < |tasks| ==> !inStory(tasks[i])) ==> forall i :: 0 <= i < |tasks| ==> Settled(tasks[i]))
  }

  predicate Stalled(tasks: seq<Task>, w: World) {
    && tasks != [] && w.workers == 0 && !AllFinished(tasks, w.inStory)
    && forall i :: 0 <= i < |tasks| ==> !tasks[i].status.InProgress?
  }

  predicate NeedsRescue(t: Task) { t.status.Failed? && !Marked(t) }

  /** The first failed task without the marker, or |tasks|. */
  function Candidate(tasks: seq<Task>): (r: nat)
    ensures r <= |tasks| && (r < |tasks| ==> NeedsRescue(tasks[r]))
    ensures forall i :: 0 <= i < r ==> !NeedsRescue(tasks[i])
  {
    if tasks == [] || NeedsRescue(tasks[0]) then 0 else 1 + Candidate(tasks[1..])
  }

  function Abort(tasks: seq<Task>, message: string): seq<Task> {
    if tasks == [] then []
    else
      var t := tasks[|tasks| - 1];
      Abort(tasks[..|tasks| - 1], message) + [if Settled(t) then t else t.(status := Failed, failureLog := message)]
  }

  function PruneOrAbort(loaded: seq<Task>, stored: seq<Task>, w: World): (Verdict, seq<Task>) {
    var failed := FailedById(loaded);
    if failed != map[] && PruneCount(stored, failed, w.fold) > 0 then (Resumed, Prune(stored, failed, w.fold))
    else (Aborted, Abort(stored, w.message))
  }

  function Reaction(tasks: seq<Task>, w: World): (Verdict, seq<Task>) {
    if !Stalled(tasks, w) then (NotStalled, tasks)
    else
      var k := Candidate(tasks);
      if k < |tasks| && w.fallback then
        var j := FirstWith(tasks, tasks[k].id);
        match w.rescue(tasks[k])
        case Rescued => (Resumed, tasks[j := tasks[j].(status := Success, failureLog := "")])
        case NotRescued(log) => PruneOrAbort(tasks, tasks[j := tasks[j].(failureLog := "[pipeline_deadlock] " + log)], w)
      else PruneOrAbort(tasks, tasks, w)
  }

  /** The task an update by id reaches: the first one that carries it. */
  function FirstWith(tasks: seq<Task>, id: string): (r: nat)
    requires exists i :: 0 <= i < |tasks| && tasks[i].id == id
    ensures r < |tasks| && tasks[r].id == id && forall i :: 0 <= i < r ==> tasks[i].id != id
  {
    if tasks[0].id == id then 0
    else
      assert exists i :: 0 <= i < |tasks[1..]| && tasks[1..][i].id == id by {
        var i :| 0 <= i < |tasks| && tasks[i].id == id;
        assert tasks[1..][i - 1].id == id;
      }
      1 + FirstWith(tasks[1..], id)
  }

  /** The rescue succeeds, but an earlier task with the same id takes the credit. */
  ghost predicate RescueMisses(tasks: seq<Task>, w: World) {
    var k := Candidate(tasks);
    k < |tasks| && w.fallback && w.rescue(tasks[k]).Rescued? && FirstWith(tasks, tasks[k].id) < k
  }

  ghost predicate DistinctIds(tasks: seq<Task>) { forall i, j :: 0 <= i < j < |tasks| ==> tasks[i].id != tasks[j].id }

  // ----- progress -----

  function Unmarked(tasks: seq<Task>): nat {
    if tasks == [] then 0 else Unmarked(tasks[..|tasks| - 1]) + if NeedsRescue(tasks[|tasks| - 1]) then 1 else 0
  }

  function EdgeCount(tasks: seq<Task>): nat {
    if tasks == [] then 0 else EdgeCount(tasks[..|tasks| - 1]) + |tasks[|tasks| - 1].dependsOn|
  }

  /** Failed tasks that can still be rescued, plus dependency edges. */
  function Work(tasks: seq<Task>): nat { Unmarked(tasks) + EdgeCount(tasks) }

  lemma {:induction false} WorkUpdate(tasks: seq<Task>, k: nat, t: Task)
    requires k < |tasks| && !NeedsRescue(t) && t.dependsOn == tasks[k].dependsOn
    ensures Work(tasks[k := t]) == Work(tasks) - if NeedsRescue(tasks[k]) then 1 else 0
  {
    var n := |tasks| - 1;
    if k == n {
      assert tasks[k := t][..n] == tasks[..n];
    } else {
      assert tasks[k := t][..n] == tasks[..n][k := t];
      WorkUpdate(tasks[..n], k, t);
    }
  }

  lemma {:induction false} PruneWork(tasks: seq<Task>, failed: map<string, Task>, fold: string -> string)
    ensures Unmarked(Prune(tasks, failed, fold)) == Unmarked(tasks)
    ensures EdgeCount(Prune(tasks, failed, fold)) <= EdgeCount(tasks)
    ensures PruneCount(tasks, failed, fold) > 0 ==> EdgeCount(Prune(tasks, failed, fold)) < EdgeCount(tasks)
  {
    if tasks != [] {
      var init, t := tasks[..|tasks| - 1], tasks[|tasks| - 1];
      PruneWork(init, failed, fold);
      KeptDepsExact(t, t.dependsOn, failed, fold, "");
      assert Prune(tasks, failed, fold)[..|Prune(init, failed, fold)|] == Prune(init, failed, fold);
    }
  }

  lemma {:induction false} AbortSettles(tasks: seq<Task>, message: string)
    ensures |Abort(tasks, message)| == |tasks| && forall i :: 0 <= i < |tasks| ==> Settled(Abort(tasks, message)[i])
    ensures forall i :: 0 <= i < |tasks| && Settled(tasks[i]) ==> Abort(tasks, message)[i] == tasks[i]
  {
    if tasks != [] {
      AbortSettles(tasks[..|tasks| - 1], message);
    }
  }

  lemma {:induction false} MarkerIsFound(log: string)
    ensures Contains("[pipeline_deadlock] " + log, MARKER)
  {
    assert OccursAt("[pipeline_deadlock] " + log, MARKER, 1);
  }

  lemma {:induction false} PruneOrAbortProgress(loaded: seq<Task>, stored: seq<Task>, w: World)
    ensures var (v, after) := PruneOrAbort(loaded, stored, w);
            && v != NotStalled && |after| == |stored|
            && (v == Resumed ==> Work(after) < Work(stored))
            && (v == Aborted ==> forall i :: 0 <= i < |after| ==> Settled(after[i]))
  {
    PruneWork(stored, FailedById(loaded), w.fold);
    PruneLength(stored, FailedById(loaded), w.fold);
    AbortSettles(stored, w.message);
  }

  /** Every call on a stalled graph either resumes or ends with every task succeeded or failed;
      on a graph that is not stalled it changes nothing. A call that resumes makes strict
      progress exactly unless its rescue was credited to an earlier task with the same id. */
  lemma {:induction false} ReactionProgress(tasks: seq<Task>, w: World)
    ensures var (v, after) := Reaction(tasks, w);
            && (v == NotStalled <==> !Stalled(tasks, w)) && |after| == |tasks|
            && (v == NotStalled ==> after == tasks)
            && (v == Resumed ==> Work(after) <= Work(tasks) && (Work(after) < Work(tasks) <==> !RescueMisses(tasks, w)))
            && (v == Aborted ==> forall i :: 0 <= i < |after| ==> Settled(after[i]))
  {
    var k := Candidate(tasks);
    PruneOrAbortProgress(tasks, tasks, w);
    if k < |tasks| {
      var j := FirstWith(tasks, tasks[k].id);
      assert NeedsRescue(tasks[j]) <==> j == k;
      WorkUpdate(tasks, j, tasks[j].(status := Success, failureLog := ""));
      var r := w.rescue(tasks[k]);
      if r.NotRescued? {
        MarkerIsFound(r.log);
        var t := tasks[j].(failureLog := "[pipeline_deadlock] " + r.log);
        WorkUpdate(tasks, j, t);
        PruneOrAbortProgress(tasks, tasks[j := t], w);
      }
    }
  }

  ghost predicate SameIds(a: seq<Task>, b: seq<Task>) {
    |a| == |b| && forall i :: 0 <= i < |a| ==> a[i].id == b[i].id
  }

  lemma {:induction false} PruneKeepsIds(tasks: seq<Task>, failed: map<string, Task>, fold: string -> string)
    ensures SameIds(tasks, Prune(tasks, failed, fold))
  {
    PruneLength(tasks, failed, fold);
    forall i | 0 <= i < |tasks| ensures tasks[i].id == Prune(tasks, failed, fold)[i].id {
      PruneAt(tasks, failed, fold, i);
    }
  }

  lemma {:induction false} ResumingKeepsIds(tasks: seq<Task>, w: World)
    ensures var (v, after) := Reaction(tasks, w); v == Resumed ==> SameIds(tasks, after)
  {
    var failed, k := FailedById(tasks), Candidate(tasks);
    PruneKeepsIds(tasks, failed, w.fold);
    if k < |tasks| {
      var j, r := FirstWith(tasks, tasks[k].id), w.rescue(tasks[k]);
      if r.NotRescued? {
        PruneKeepsIds(tasks[j := tasks[j].(failureLog := "[pipeline_deadlock] " + r.log)], failed, w.fold);
      }
    }
  }

  /** With distinct ids no rescue misses, so every call that resumes makes progress. */
  lemma {:induction false} DistinctIdsNeverMiss(tasks: seq<Task>, w: World)
    requires DistinctIds(tasks)
    ensures !RescueMisses(tasks, w)
    ensures var (v, after) := Reaction(tasks, w); v == Resumed ==> DistinctIds(after)
  {
    ResumingKeepsIds(tasks, w);
  }

  /** A rescue that misses can repeat for ever: when the earlier task has succeeded already, the
      call resumes and leaves everything as it was. */
  lemma {:induction false} MissedRescueRepeats(tasks: seq<Task>, w: World)
    requires Stalled(tasks, w) && RescueMisses(tasks, w)
    requires var t := tasks[FirstWith(tasks, tasks[Candidate(tasks)].id)]; t.status.Success? && t.failureLog == ""
    ensures Reaction(tasks, w) == (Resumed, tasks)
  {
    var j := FirstWith(tasks, tasks[Candidate(tasks)].id);
    assert tasks[j].(status := Success, failureLog := "") == tasks[j];
    assert tasks[j := tasks[j]] == tasks;
  }

  /** The states of consecutive calls, with nothing else happening in between. */
  ghost predicate Calls(states: seq<seq<Task>>, ws: seq<World>) {
    |states| == |ws| + 1 && forall k :: 0 <= k < |ws| ==> Reaction(states[k], ws[k]) == (Resumed, states[k + 1])
  }

  /** How many of the calls rescued a task whose credit went elsewhere. */
  ghost function Misses(states: seq<seq<Task>>, ws: seq<World>): nat
    requires |states| > |ws|
    decreases |ws|
  {
    if ws == [] then 0
    else
      var n := |ws| - 1;
      Misses(states, ws[..n]) + if RescueMisses(states[n], ws[n]) then 1 else 0
  }

  /** Deadlock healing cannot go on for ever: apart from missed rescues, consecutive calls resume
      at most as often as there were rescuable tasks and dependency edges to begin with. */
  lemma {:induction false} HealingBounded(states: seq<seq<Task>>, ws: seq<World>)
    requires Calls(states, ws)
    ensures |ws| + Work(states[|ws|]) <= Work(states[0]) + Misses(states, ws)
    decreases |ws|
  {
    if ws != [] {
      var n := |ws| - 1;
      assert Calls(states[..n + 1], ws[..n]);
      HealingBounded(states[..n + 1], ws[..n]);
      SameMisses(states[..n + 1], states, ws[..n]);
      ReactionProgress(states[n], ws[n]);
    }
  }

  lemma {:induction false} SameMisses(some: seq<seq<Task>>, all: seq<seq<Task>>, ws: seq<World>)
    requires |ws| < |some| <= |all| && some == all[..|some|]
    ensures Misses(some, ws) == Misses(all, ws)
    decreases |ws|
  {
    if ws != [] {
      SameMisses(some, all, ws[..|ws| - 1]);
    }
  }

  /** With distinct ids there are no missed rescues, so healing terminates. */
  lemma {:induction false} HealingTerminates(states: seq<seq<Task>>, ws: seq<World>)
    requires Calls(states, ws) && DistinctIds(states[0])
    ensures |ws| + Work(states[|ws|]) <= Work(states[0]) && DistinctIds(states[|ws|])
    decreases |ws|
  {
    if ws != [] {
      var n := |ws| - 1;
      assert Calls(states[..n + 1], ws[..n]);
      HealingTerminates(states[..n + 1], ws[..n]);
      DistinctIdsNeverMiss(states[n], ws[n]);
      ReactionProgress(states[n], ws[n]);
    }
  }

  // ----- the code -----

  method CollectFailed(tasks: seq<Task>) returns (failed: map<string, Task>)
    ensures failed == FailedById(tasks)
  {
    failed := map[];
    for i := 0 to |tasks|
      invariant failed == FailedById(tasks[..i])
    {
      assert tasks[..i + 1][..i] == tasks[..i];
      if tasks[i].status.Failed? {
        failed := failed[tasks[i].id := tasks[i]];
      }
    }
    assert tasks[..|tasks|] == tasks;
  }

  method FilesCollide(t: Task, f: Task, fold: string -> string) returns (hit: bool)
    ensures hit <==> Collide(t, f, fold)
  {
    for i := 0 to |t.targetFiles|
      invariant forall a, b :: 0 <= a < i && 0 <= b < |f.targetFiles| ==> fold(Trim(t.targetFiles[a])) != fold(Trim(f.targetFiles[b]))
    {
      for j := 0 to |f.targetFiles|
        invariant forall b :: 0 <= b < j ==> fold(Trim(t.targetFiles[i])) != fold(Trim(f.targetFiles[b]))
      {
        if fold(Trim(t.targetFiles[i])) == fold(Trim(f.targetFiles[j])) {
          return true;
        }
      }
    }
    hit := false;
  }

  method CanPrune(t: Task, dep: string, failed: map<string, Task>, fold: string -> string) returns (yes: bool)
    ensures yes <==> Prunable(t, dep, failed, fold)
  {
    var d := Trim(dep);
    yes := false;
    if d in failed && CrossStory(t, failed[d]) && |t.targetFiles| > 0 && |failed[d].targetFiles| > 0 {
      var collision := FilesCollide(t, failed[d], fold);
      yes := !collision;
    }
  }

  lemma {:induction false} KeptNext(t: Task, i: nat, failed: map<string, Task>, fold: string -> string)
    requires i < |t.dependsOn|
    ensures var d, kept := t.dependsOn[i], KeptDeps(t, t.dependsOn[..i], failed, fold);
            KeptDeps(t, t.dependsOn[..i + 1], failed, fold) == if Prunable(t, d, failed, fold) then kept else kept + [d]
    ensures t.dependsOn[..i + 1] == t.dependsOn[..i] + [t.dependsOn[i]]
  {
    KeptMore(t, t.dependsOn[..i], t.dependsOn[i], failed, fold);
    assert t.dependsOn[..i + 1] == t.dependsOn[..i] + [t.dependsOn[i]];
  }

  lemma {:induction false} KeptMore(t: Task, deps: seq<string>, d: string, failed: map<string, Task>, fold: string -> string)
    ensures var kept := KeptDeps(t, deps, failed, fold);
            KeptDeps(t, deps + [d], failed, fold) == if Prunable(t, d, failed, fold) then kept else kept + [d]
  {
    assert (deps + [d])[..|deps|] == deps;
  }

  method FilterDeps(t: Task, failed: map<string, Task>, fold: string -> string) returns (deps: seq<string>, pruned: bool)
    ensures deps == KeptDeps(t, t.dependsOn, failed, fold)
    ensures pruned <==> deps != t.dependsOn
  {
    deps, pruned := [], false;
    for i := 0 to |t.dependsOn|
      invariant deps == KeptDeps(t, t.dependsOn[..i], failed, fold) && |deps| <= i
      invariant if pruned then |deps| < i else deps == t.dependsOn[..i]
    {
      var dep := t.dependsOn[i];
      KeptNext(t, i, failed, fold);
      var drop := CanPrune(t, dep, failed, fold);
      if drop {
        pruned := true;
      } else {
        deps := deps + [dep];
      }
    }
    assert t.dependsOn[..|t.dependsOn|] == t.dependsOn;
  }

  method PruneEach(before: seq<Task>, failed: map<string, Task>, fold: string -> string) returns (tasks: seq<Task>, unblocked: nat)
    ensures tasks == Prune(before, failed, fold) && unblocked == PruneCount(before, failed, fold)
    ensures unblocked == 0 ==> tasks == before
  {
    tasks, unblocked := [], 0;
    for i := 0 to |before|
      invariant tasks == Prune(before[..i], failed, fold) && unblocked == PruneCount(before[..i], failed, fold)
      invariant unblocked == 0 ==> tasks == before[..i]
    {
      assert before[..i + 1][..i] == before[..i];
      var t, pruned := PruneOne(before[i], failed, fold);
      if pruned {
        unblocked := unblocked + 1;
      }
      tasks := tasks + [t];
    }
    assert before[..|before|] == before;
  }

  method PruneOne(before: Task, failed: map<string, Task>, fold: string -> string) returns (t: Task, pruned: bool)
    ensures t == PrunedTask(before, failed, fold) && (pruned <==> t != before)
  {
    t, pruned := before, false;
    if before.status.Pending? {
      var deps;
      deps, pruned := FilterDeps(before, failed, fold);
      if pruned {
        t := before.(dependsOn := deps);
      }
    }
  }

  method FindCandidate(tasks: seq<Task>) returns (k: nat)
    ensures k == Candidate(tasks)
  {
    k := 0;
    while k < |tasks| && !NeedsRescue(tasks[k])
      invariant k <= Candidate(tasks)
    {
      k := k + 1;
    }
  }

  /** The stored state. */
  class Store {
    var tasks: seq<Task>

    constructor (ts: seq<Task>)
      ensures tasks == ts
    {
      tasks := ts;
    }

    method UnblockIndependentTasks(loaded: seq<Task>, fold: string -> string) returns (unblocked: nat)
      modifies this
      ensures var failed := FailedById(loaded);
              && unblocked == (if failed == map[] then 0 else PruneCount(old(tasks), failed, fold))
              && tasks == if unblocked > 0 then Prune(old(tasks), failed, fold) else old(tasks)
    {
      unblocked := 0;
      var failed := CollectFailed(loaded);
      if |failed| == 0 {
        return;
      }
      tasks, unblocked := PruneEach(tasks, failed, fold);
    }

    /** handleDeadlockOrRescue, with its loops, does exactly what the reaction says. */
    method HandleDeadlockOrRescue(w: World) returns (resumed: bool, failed: bool)
      modifies this
      ensures var (v, after) := Reaction(old(tasks), w);
              tasks == after && resumed == v.Resumed? && failed == v.Aborted?
    {
      var loaded := tasks;
      var hasInProgress := exists i :: 0 <= i < |loaded| && loaded[i].status.InProgress?;
      if AllFinished(loaded, w.inStory) || w.workers > 0 || hasInProgress || |loaded| == 0 {
        return false, false;
      }
      var k := FindCandidate(loaded);
      if k < |loaded| && w.fallback {
        match w.rescue(loaded[k]) {
          case Rescued =>
            Update(loaded[k].id, (t: Task) => t.(status := Success, failureLog := ""));
            return true, false;
          case NotRescued(log) =>
            Update(loaded[k].id, (t: Task) => t.(failureLog := "[pipeline_deadlock] " + log));
        }
      }
      resumed, failed := PruneElseAbort(loaded, w);
    }

    /** The tail of the call: remove false dependencies, or fail what is left. */
    method PruneElseAbort(loaded: seq<Task>, w: World) returns (resumed: bool, failed: bool)
      modifies this
      ensures var (v, after) := PruneOrAbort(loaded, old(tasks), w);
              tasks == after && resumed == v.Resumed? && failed == v.Aborted?
    {
      var unblocked := UnblockIndependentTasks(loaded, w.fold);
      if unblocked > 0 {
        return true, false;
      }
      FailRemaining(w.message);
      return false, true;
    }

    /** The update closures change the first task with the id. */
    method Update(id: string, change: Task -> Task)
      requires exists i :: 0 <= i < |tasks| && tasks[i].id == id
      modifies this
      ensures var j := FirstWith(old(tasks), id); tasks == old(tasks)[j := change(old(tasks)[j])]
    {
      for i := 0 to |tasks|
        invariant tasks == old(tasks) && i <= FirstWith(old(tasks), id)
      {
        if tasks[i].id == id {
          tasks := tasks[i := change(tasks[i])];
          break;
        }
      }
    }

    method FailRemaining(message: string)
      modifies this
      ensures tasks == Abort(old(tasks), message)
    {
      ghost var before := tasks;
      for i := 0 to |tasks|
        invariant |tasks| == |before| && tasks[i..] == before[i..] && tasks[..i] == Abort(before[..i], message)
      {
        assert before[..i + 1][..i] == before[..i];
        var t := tasks[i];
        assert t == tasks[i..][0] == before[i];
        ghost var front, rest := tasks[..i], tasks[i + 1..];
        assert rest == before[i + 1..];
        if !Settled(t) {
          tasks := tasks[i := t.(status := Failed, failureLog := message)];
        }
        assert tasks[..i + 1] == front + [if Settled(t) then t else t.(status := Failed, failureLog := message)];
        assert tasks[i + 1..] == rest;
      }
      assert before[..|before|] == before && tasks[..|tasks|] == tasks;
    }
  }
}
