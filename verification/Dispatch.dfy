/** dispatchContinuously: the slot scheduler. The loop launches tasks as goroutines, takes
    their completions from an unbuffered channel, and refills the freed slots.

    Attempt k is the k-th goroutine launched. Each event is one atomic action: the loop
    looking at one task of a batch, an attempt finishing its work, the loop receiving a
    completion, the loop deciding what to do next, or the context being cancelled. */
module Dispatch {
  import opened Finite
  import opened TaskStatus

  type Id = string

  datatype Phase =
    | Launching(batch: seq<Id>)  // inside dispatch, with the tasks still to look at
    | Receiving                  // blocked on the completions channel
    | Deciding                   // a completion was received
    | Returned

  datatype Loop = Loop(
    slots: nat, phase: Phase, inflight: set<Id>,
    working: set<nat>,           // attempts that are executing their task
    sending: set<nat>,           // attempts that are done and wait to hand over their completion
    cancelled: bool,
    // history
    launched: seq<Id>, received: seq<nat>,
    observed: bool, frozen: nat) // cancellation seen by the loop, and the launches up to then

  datatype Event =
    | Look                       // the next task of the batch
    | EndBatch
    | Finish(attempt: nat)
    | Receive(attempt: nat)
    | Stop                       // the loop sees the cancellation and only drains from here on
    | Skip                       // the state could not be re-loaded
    | Refill(batch: seq<Id>)     // whatever the scheduler answers
    | Cancel

  ghost predicate Enabled(l: Loop, e: Event) {
    match e
    case Look => l.phase.Launching? && l.phase.batch != []
    case EndBatch => l.phase.Launching? && l.phase.batch == []
    case Finish(k) => k in l.working
    case Receive(k) => l.phase.Receiving? && k in l.sending
    case Stop => l.phase.Deciding? && l.cancelled
    case Skip => l.phase.Deciding? && !l.cancelled
    case Refill(_) => l.phase.Deciding? && !l.cancelled && |l.inflight| < l.slots
    case Cancel => !l.cancelled
  }

  /** The loop goes on as long as something is in flight. */
  ghost function Again(l: Loop): Phase { if l.inflight == {} then Returned else Receiving }

  ghost function Next(l: Loop, e: Event): Loop
    requires Enabled(l, e) && forall k :: k in l.sending ==> k < |l.launched|
  {
    match e
    case Look =>
      var t := l.phase.batch[0];
      var l' := l.(phase := Launching(l.phase.batch[1..]));
      if t in l.inflight || |l.inflight| >= l.slots then l'
      else l'.(inflight := l.inflight + {t}, working := l.working + {|l.launched|}, launched := l.launched + [t])
    case EndBatch => l.(phase := Again(l))
    case Finish(k) => l.(working := l.working - {k}, sending := l.sending + {k})
    case Receive(k) =>
      l.(phase := Deciding, sending := l.sending - {k}, inflight := l.inflight - {l.launched[k]}, received := l.received + [k])
    case Stop =>
      l.(phase := Again(l), observed := true, frozen := if l.observed then l.frozen else |l.launched|)
    case Skip => l.(phase := Again(l))
    case Refill(batch) => l.(phase := Launching(batch))
    case Cancel => l.(cancelled := true)
  }

  ghost predicate Initial(l: Loop) {
    && l.phase.Launching? && l.inflight == {} && l.working == {} && l.sending == {}
    && l.launched == [] && l.received == [] && !l.observed
  }

  ghost predicate Run(l: Loop, es: seq<Event>, l': Loop)
    decreases |es|
  {
    (forall k :: k in l.sending ==> k < |l.launched|) &&
    if es == [] then l' == l
    else Enabled(l, es[0]) && Run(Next(l, es[0]), es[1..], l')
  }

  ghost function Live(l: Loop): set<nat> { l.working + l.sending }

  /** Live attempts are launched, not yet received, and one per in-flight task. */
  ghost predicate LiveInv(l: Loop) {
    && (forall k :: k in Live(l) ==> k < |l.launched| && l.launched[k] in l.inflight && k !in l.received)
    && (forall j, k :: j in Live(l) && k in Live(l) && l.launched[j] == l.launched[k] ==> j == k)
  }

  ghost predicate CountInv(l: Loop) {
    && |l.inflight| <= l.slots && l.working !! l.sending
    && |Live(l)| == |l.inflight|
    && |l.launched| == |l.received| + |l.inflight|
  }

  ghost predicate ReceivedInv(l: Loop) {
    Distinct(l.received) && forall k :: 0 <= k < |l.received| ==> l.received[k] < |l.launched|
  }

  ghost predicate PhaseInv(l: Loop) {
    && (l.phase.Receiving? ==> l.inflight != {})
    && (l.phase.Returned? ==> l.inflight == {})
    && (l.phase.Deciding? ==> |l.inflight| < l.slots)
    && (l.observed ==> l.cancelled && !l.phase.Launching? && l.frozen == |l.launched|)
  }

  ghost predicate Inv(l: Loop) { LiveInv(l) && CountInv(l) && ReceivedInv(l) && PhaseInv(l) }

  lemma {:induction false} LaunchKeepsLive(l: Loop, l': Loop, t: Id)
    requires LiveInv(l) && ReceivedInv(l) && t !in l.inflight
    requires l'.inflight == l.inflight + {t} && l'.launched == l.launched + [t] && l'.received == l.received
    requires Live(l') == Live(l) + {|l.launched|}
    ensures LiveInv(l') && ReceivedInv(l') && |l.launched| !in Live(l)
  {
    assert forall j :: j in Live(l) ==> l'.launched[j] == l.launched[j];
    assert |l.launched| !in l.received;
  }

  lemma {:induction false} LaunchKeepsCount(l: Loop, l': Loop, t: Id)
    requires CountInv(l) && t !in l.inflight && |l.inflight| < l.slots && |l.launched| !in Live(l)
    requires l'.inflight == l.inflight + {t} && l'.launched == l.launched + [t] && l'.received == l.received
    requires l'.working == l.working + {|l.launched|} && l'.sending == l.sending && l'.slots == l.slots
    ensures CountInv(l')
  {
    assert Live(l') == Live(l) + {|l.launched|};
  }

  lemma {:induction false} LaunchKeepsInv(l: Loop)
    requires Inv(l) && Enabled(l, Look)
    ensures Inv(Next(l, Look))
  {
    var t := l.phase.batch[0];
    var l' := Next(l, Look);
    if t !in l.inflight && |l.inflight| < l.slots {
      LaunchAccepted(l, t);
    } else {
      SameAttemptsKeepInv(l, l');
      assert PhaseInv(l');
    }
  }

  lemma {:induction false} LaunchAccepted(l: Loop, t: Id)
    requires Inv(l) && Enabled(l, Look) && t == l.phase.batch[0] && t !in l.inflight && |l.inflight| < l.slots
    ensures Inv(Next(l, Look))
  {
    var l' := Next(l, Look);
    assert Live(l') == Live(l) + {|l.launched|};
    LaunchKeepsLive(l, l', t);
    LaunchKeepsCount(l, l', t);
    assert PhaseInv(l');
  }

  lemma {:induction false} SameAttemptsKeepInv(l: Loop, l': Loop)
    requires Inv(l) && Live(l') == Live(l) && l'.working !! l'.sending && l'.slots == l.slots
    requires l'.inflight == l.inflight && l'.launched == l.launched && l'.received == l.received
    ensures LiveInv(l') && CountInv(l') && ReceivedInv(l')
  {
  }

  lemma {:induction false} ReceiveKeepsLive(l: Loop, l': Loop, k: nat)
    requires LiveInv(l) && ReceivedInv(l) && k in Live(l) && Live(l') == Live(l) - {k}
    requires l'.inflight == l.inflight - {l.launched[k]} && l'.launched == l.launched && l'.received == l.received + [k]
    ensures LiveInv(l') && ReceivedInv(l') && l.launched[k] in l.inflight
  {
    forall j | j in Live(l') ensures l.launched[j] in l'.inflight && j !in l'.received {
      assert j in Live(l) && j != k;
      assert l.launched[j] != l.launched[k];
    }
  }

  lemma {:induction false} ReceiveKeepsInv(l: Loop, k: nat)
    requires Inv(l) && Enabled(l, Receive(k))
    ensures Inv(Next(l, Receive(k)))
  {
    var l' := Next(l, Receive(k));
    assert Live(l') == Live(l) - {k};
    ReceiveKeepsLive(l, l', k);
    assert CountInv(l');
    assert PhaseInv(l');
  }

  lemma {:induction false} StepKeepsInv(l: Loop, e: Event)
    requires Inv(l) && Enabled(l, e)
    ensures Inv(Next(l, e))
  {
    match e {
      case Look => LaunchKeepsInv(l);
      case Receive(k) => ReceiveKeepsInv(l, k);
      case _ => OtherKeepsInv(l, e);
    }
  }

  lemma {:induction false} OtherKeepsInv(l: Loop, e: Event)
    requires Inv(l) && Enabled(l, e) && !e.Look? && !e.Receive?
    ensures Inv(Next(l, e))
  {
    var l' := Next(l, e);
    assert Live(l') == Live(l);
    SameAttemptsKeepInv(l, l');
    assert PhaseInv(l');
  }

  lemma {:induction false} RunKeepsInv(l: Loop, es: seq<Event>, l': Loop)
    requires Inv(l) && Run(l, es, l')
    ensures Inv(l') && l'.slots == l.slots
    decreases |es|
  {
    if es != [] {
      StepKeepsInv(l, es[0]);
      RunKeepsInv(Next(l, es[0]), es[1..], l');
    }
  }

  /** In every interleaving the live attempts never exceed the slots, no task id has two of
      them, and they are exactly the tasks the loop believes to be in flight. */
  lemma {:induction false} SlotsRespected(l0: Loop, es: seq<Event>, l: Loop)
    requires Initial(l0) && Run(l0, es, l)
    ensures |Live(l)| == |l.inflight| <= l0.slots
    ensures forall k :: k in Live(l) ==> k < |l.launched|
    ensures forall j, k :: j in Live(l) && k in Live(l) && j != k ==> l.launched[j] != l.launched[k]
    ensures forall k :: k in Live(l) ==> l.launched[k] in l.inflight
  {
    assert Live(l0) == {};
    RunKeepsInv(l0, es, l);
  }

  /** A completion is received at most once, and when the loop returns every attempt that was
      ever launched has been received exactly once and none is left running. */
  lemma {:induction false} AllCompletionsReceived(l0: Loop, es: seq<Event>, l: Loop)
    requires Initial(l0) && Run(l0, es, l)
    ensures Distinct(l.received) && forall k :: 0 <= k < |l.received| ==> l.received[k] < |l.launched|
    ensures l.phase.Returned? ==> Live(l) == {} && |l.received| == |l.launched|
    ensures l.phase.Returned? ==> forall k: nat :: k < |l.launched| ==> multiset(l.received)[k] == 1
  {
    assert Live(l0) == {};
    RunKeepsInv(l0, es, l);
    if l.phase.Returned? {
      forall k: nat | k < |l.launched| ensures multiset(l.received)[k] == 1 {
        DistinctCount(l.received, k);
        if k !in l.received {
          DistinctFits(l.received, Below(|l.launched|) - {k});
          assert false;
        }
      }
    }
  }

  /** While the loop waits for a completion there is always an attempt that can deliver one
      or can finish: the channel never starves it. */
  lemma {:induction false} ReceiverNeverStarves(l0: Loop, es: seq<Event>, l: Loop)
    requires Initial(l0) && Run(l0, es, l) && l.phase.Receiving?
    ensures exists k :: Enabled(l, Receive(k)) || Enabled(l, Finish(k))
  {
    assert Live(l0) == {};
    RunKeepsInv(l0, es, l);
    assert Live(l) != {};
    var k :| k in Live(l);
    assert Enabled(l, Receive(k)) || Enabled(l, Finish(k));
  }

  lemma {:induction false} StoppedStaysStopped(l: Loop, es: seq<Event>, l': Loop)
    requires Inv(l) && l.observed && Run(l, es, l')
    ensures l'.observed && l'.launched == l.launched
    decreases |es|
  {
    if es != [] {
      StepKeepsInv(l, es[0]);
      StoppedStaysStopped(Next(l, es[0]), es[1..], l');
    }
  }

  /** Once the loop has seen the cancellation, no continuation of the run launches anything. */
  lemma {:induction false} NothingLaunchedAfterCancellation(l0: Loop, es: seq<Event>, l: Loop, more: seq<Event>, l': Loop)
    requires Initial(l0) && Run(l0, es, l) && l.observed && Run(l, more, l')
    ensures l'.launched == l.launched
  {
    assert Live(l0) == {};
    RunKeepsInv(l0, es, l);
    StoppedStaysStopped(l, more, l');
  }

  // ----- one batch -----

  datatype Task = Task(id: Id, status: Status, retries: int, maxRetries: int)

  /** What is relied on of Scheduler.GetReadyTasks: it picks eligible tasks of the state it is
      given, each id once, and at most as many as the limit leaves over the working agents. */
  ghost predicate SchedulerAnswer(tasks: seq<Task>, limit: int, working: nat, ready: seq<Task>) {
    && (forall i :: 0 <= i < |ready| ==> ready[i] in tasks && MayStart(ready[i].status, ready[i].retries, ready[i].maxRetries))
    && (forall i, j :: 0 <= i < j < |ready| ==> ready[i].id != ready[j].id)
    && |ready| <= if limit - working < 0 then 0 else limit - working
  }

  /** The snapshot readyTasksForFreeSlots hands to the scheduler: in-flight tasks are marked. */
  method MarkInFlight(tasks: seq<Task>, inflight: set<Id>) returns (marked: seq<Task>)
    ensures |marked| == |tasks|
    ensures forall i :: 0 <= i < |tasks| ==> marked[i] == if tasks[i].id in inflight then tasks[i].(status := InProgress) else tasks[i]
  {
    marked := tasks;
    for i := 0 to |tasks|
      invariant |marked| == |tasks|
      invariant forall k :: 0 <= k < i ==> marked[k] == if tasks[k].id in inflight then tasks[k].(status := InProgress) else tasks[k]
      invariant forall k :: i <= k < |tasks| ==> marked[k] == tasks[k]
    {
      if marked[i].id in inflight {
        marked := marked[i := marked[i].(status := InProgress)];
      }
    }
  }

  /** The ready tasks that are not in flight, in order. */
  function NotInFlight(ready: seq<Task>, inflight: set<Id>): seq<Task> {
    if ready == [] then []
    else
      var earlier, t := NotInFlight(ready[..|ready| - 1], inflight), ready[|ready| - 1];
      if t.id in inflight then earlier else earlier + [t]
  }

  method DropInFlight(ready: seq<Task>, inflight: set<Id>) returns (out: seq<Task>)
    ensures out == NotInFlight(ready, inflight)
  {
    out := [];
    for k := 0 to |ready|
      invariant out == NotInFlight(ready[..k], inflight)
    {
      assert ready[..k + 1][..k] == ready[..k];
      if ready[k].id !in inflight {
        out := out + [ready[k]];
      }
    }
    assert ready[..|ready|] == ready;
  }

  /** Every ready task that is not in flight is kept as often as it was there, none that is in
      flight is, and a list with nothing in flight is kept as it is. */
  lemma {:induction false} DropIsExact(ready: seq<Task>, inflight: set<Id>, t: Task)
    ensures multiset(NotInFlight(ready, inflight))[t] == if t.id in inflight then 0 else multiset(ready)[t]
    ensures (forall i :: 0 <= i < |ready| ==> ready[i].id !in inflight) ==> NotInFlight(ready, inflight) == ready
  {
    if ready != [] {
      var earlier, last := ready[..|ready| - 1], ready[|ready| - 1];
      DropIsExact(earlier, inflight, t);
      assert ready == earlier + [last];
    }
  }

  /** Asking for the free slots plus the working agents gives back at most the free slots, and
      marking the in-flight tasks means the scheduler never offers one of them again: every
      task it answers with survives the filter. */
  lemma {:induction false} FreeSlotsAnswer(tasks: seq<Task>, marked: seq<Task>, inflight: set<Id>, freeSlots: nat, working: nat, ready: seq<Task>)
    requires |marked| == |tasks|
    requires forall i :: 0 <= i < |tasks| ==> marked[i] == if tasks[i].id in inflight then tasks[i].(status := InProgress) else tasks[i]
    requires SchedulerAnswer(marked, freeSlots + working, working, ready)
    ensures |ready| <= freeSlots
    ensures forall i :: 0 <= i < |ready| ==> ready[i].id !in inflight && ready[i] in tasks
  {
    forall i | 0 <= i < |ready| ensures ready[i].id !in inflight && ready[i] in tasks {
      var k :| 0 <= k < |marked| && marked[k] == ready[i];
      assert tasks[k].id == ready[i].id;
    }
  }

  ghost function LookAll(l: Loop): Loop
    requires l.phase.Launching? && forall k :: k in l.sending ==> k < |l.launched|
    decreases |l.phase.batch|
  {
    if l.phase.batch == [] then l else LookAll(Next(l, Look))
  }

  /** A batch of distinct ids that are not in flight and fit the free slots is launched whole
      and in order: the loop's own guards never turn a scheduler's answer away. */
  lemma {:induction false} FittingBatchLaunches(l: Loop)
    requires l.phase.Launching? && (forall k :: k in l.sending ==> k < |l.launched|)
    requires Distinct(l.phase.batch) && |l.inflight| + |l.phase.batch| <= l.slots
    requires forall i :: 0 <= i < |l.phase.batch| ==> l.phase.batch[i] !in l.inflight
    ensures LookAll(l).launched == l.launched + l.phase.batch
    decreases |l.phase.batch|
  {
    if l.phase.batch == [] {
      assert l.launched + [] == l.launched;
    } else {
      var b := l.phase.batch;
      FittingBatchLaunches(Next(l, Look));
      assert l.launched + [b[0]] + b[1..] == l.launched + b;
    }
  }
}
