/** CommandMailbox: a bounded command queue with one consumer loop, a `running` flag, a
    read/write lock and a drain at shutdown, used by any number of senders.

    Every event is one atomic action of the loop (Start), of one synchronous caller
    (SendSync) or of an asynchronous sender (Send, which takes no lock). Caller i makes one
    SendSync call, whose wrapper is the command Sync(i). */
module Mailbox {
  const CAPACITY := 100

  datatype Command = Async(tag: nat) | Sync(caller: nat)

  datatype Reply = Result | Shutdown

  datatype Loop =
    | NotStarted
    | Selecting                  // at the select of Start
    | Executing(command: Command)
    | Closing                    // context done, waiting for the write lock
    | Draining                   // holding the write lock
    | Stopped

  datatype Caller =
    | Fresh
    | Locked                     // holds the read lock, has not looked at `running` yet
    | Admitted                   // holds the read lock, saw running, waits for queue space
    | Waiting                    // command enqueued, lock released
    | Direct                     // saw a stopped mailbox, executes the command itself
    | Refused                    // left before anything was enqueued
    | Departed                   // left after enqueuing, without an answer
    | Answered(reply: Reply)
    | Executed                   // direct execution finished

  datatype Box = Box(
    loop: Loop, running: bool, readers: set<nat>, writer: bool,
    queue: seq<Command>, callers: seq<Caller>,
    done: map<nat, Reply>,       // the one-slot reply channels that hold a value
    // history
    enqueued: seq<Command>, executed: seq<Command>, drained: seq<Command>,
    replies: multiset<nat>)      // one element per value ever put in a caller's reply channel

  datatype Event =
    | Begin | Take | Finish | ContextDone | Lock | Drain | Unlock
    | RLock(caller: nat) | Check(caller: nat) | Enqueue(caller: nat)
    | Refuse(caller: nat) | Cancel(caller: nat) | Receive(caller: nat) | Depart(caller: nat)
    | RunDirect(caller: nat)
    | Send(tag: nat)

  predicate Enabled(b: Box, e: Event) {
    match e
    case Begin => b.loop.NotStarted?
    case Take => b.loop.Selecting? && b.queue != []
    case Finish => b.loop.Executing? && (b.loop.command.Sync? ==> b.loop.command.caller !in b.done)
    case ContextDone => b.loop.Selecting?
    case Lock => b.loop.Closing? && b.readers == {} && !b.writer
    case Drain => b.loop.Draining? && b.queue != []
    case Unlock => b.loop.Draining? && b.queue == []
    case RLock(i) => i < |b.callers| && b.callers[i].Fresh? && !b.writer
    case Check(i) => i < |b.callers| && b.callers[i].Locked?
    case Enqueue(i) => i < |b.callers| && b.callers[i].Admitted? && |b.queue| < CAPACITY
    case Refuse(i) => i < |b.callers| && b.callers[i].Fresh?
    case Cancel(i) => i < |b.callers| && b.callers[i].Admitted?
    case Receive(i) => i < |b.callers| && b.callers[i].Waiting? && i in b.done
    case Depart(i) => i < |b.callers| && b.callers[i].Waiting?
    case RunDirect(i) => i < |b.callers| && b.callers[i].Direct?
    case Send(_) => |b.queue| < CAPACITY
  }

  function Next(b: Box, e: Event): Box
    requires Enabled(b, e)
  {
    match e
    case Begin => b.(loop := Selecting, running := true)
    case Take => b.(loop := Executing(b.queue[0]), queue := b.queue[1..])
    case Finish =>
      var b' := b.(loop := Selecting, executed := b.executed + [b.loop.command]);
      if b.loop.command.Sync? then b'.(done := b.done[b.loop.command.caller := Result], replies := b.replies + multiset{b.loop.command.caller}) else b'
    case ContextDone => b.(loop := Closing)
    case Lock => b.(loop := Draining, writer := true, running := false)
    case Drain =>
      var c := b.queue[0];
      var b' := b.(queue := b.queue[1..], drained := b.drained + [c]);
      // a non-blocking send: nothing happens when the slot is already taken
      if c.Sync? && c.caller !in b.done then b'.(done := b.done[c.caller := Shutdown], replies := b.replies + multiset{c.caller}) else b'
    case Unlock => b.(loop := Stopped, writer := false)
    case RLock(i) => b.(callers := b.callers[i := Locked], readers := b.readers + {i})
    case Check(i) =>
      if b.running then b.(callers := b.callers[i := Admitted])
      else b.(callers := b.callers[i := Direct], readers := b.readers - {i})
    case Enqueue(i) =>
      b.(callers := b.callers[i := Waiting], readers := b.readers - {i},
         queue := b.queue + [Sync(i)], enqueued := b.enqueued + [Sync(i)])
    case Refuse(i) => b.(callers := b.callers[i := Refused])
    case Cancel(i) => b.(callers := b.callers[i := Refused], readers := b.readers - {i})
    case Receive(i) => b.(callers := b.callers[i := Answered(b.done[i])], done := b.done - {i})
    case Depart(i) => b.(callers := b.callers[i := Departed])
    case RunDirect(i) => b.(callers := b.callers[i := Executed])
    case Send(k) => b.(queue := b.queue + [Async(k)], enqueued := b.enqueued + [Async(k)])
  }

  ghost predicate Initial(b: Box) {
    && b.loop.NotStarted? && !b.running && b.readers == {} && !b.writer
    && b.queue == b.enqueued == b.executed == b.drained == [] && b.done == map[] && b.replies == multiset{}
    && forall i :: 0 <= i < |b.callers| ==> b.callers[i].Fresh?
  }

  /** The events can happen in this order from b, and end in b'. */
  ghost predicate Run(b: Box, es: seq<Event>, b': Box)
    decreases |es|
  {
    if es == [] then b' == b
    else Enabled(b, es[0]) && Run(Next(b, es[0]), es[1..], b')
  }

  function InHand(b: Box): seq<Command> {
    if b.loop.Executing? then [b.loop.command] else []
  }

  predicate Posted(c: Caller) { c.Waiting? || c.Departed? || c.Answered? }

  /** Commands leave the queue in the order they entered it; only a drain skips execution. */
  ghost predicate OrderInv(b: Box) {
    && b.enqueued == b.executed + InHand(b) + b.drained + b.queue
    && (!b.loop.Draining? && !b.loop.Stopped? ==> b.drained == [])
    && |b.queue| <= CAPACITY
  }

  ghost predicate LockInv(b: Box) {
    && (b.writer <==> b.loop.Draining?)
    && (b.writer ==> b.readers == {})
    && (b.running <==> b.loop.Selecting? || b.loop.Executing? || b.loop.Closing?)
    && (forall i :: i in b.readers <==> 0 <= i < |b.callers| && (b.callers[i].Locked? || b.callers[i].Admitted?))
    && (forall i :: 0 <= i < |b.callers| && b.callers[i].Admitted? ==> b.running)
    && (b.loop.Stopped? ==> forall k :: 0 <= k < |b.queue| ==> b.queue[k].Async?)
  }

  /** Sync(i) was answered exactly when it was executed or drained, and the answer sits in
      the reply slot until the caller picks it up or has left. */
  ghost predicate CallerInv(b: Box, i: nat)
    requires i < |b.callers|
  {
    var c := b.callers[i];
    && multiset(b.enqueued)[Sync(i)] == (if Posted(c) then 1 else 0)
    && b.replies[i] == (if Sync(i) in b.executed || Sync(i) in b.drained then 1 else 0)
    && (i in b.done ==> Posted(c) && Sync(i) in (if b.done[i].Result? then b.executed else b.drained))
    && (c.Answered? ==> i !in b.done && Sync(i) in (if c.reply.Result? then b.executed else b.drained))
    && (c.Waiting? || c.Departed? ==> (Sync(i) in b.executed || Sync(i) in b.drained ==> i in b.done))
  }

  ghost predicate ReplyInv(b: Box) {
    && (forall i: nat :: Sync(i) in b.enqueued ==> i < |b.callers|)
    && (forall i: nat :: i < |b.callers| ==> CallerInv(b, i))
  }

  ghost predicate Inv(b: Box) { OrderInv(b) && LockInv(b) && ReplyInv(b) }

  lemma {:induction false} OrderKept(b: Box, e: Event)
    requires OrderInv(b) && LockInv(b) && Enabled(b, e)
    ensures OrderInv(Next(b, e))
  {
    var b' := Next(b, e);
    if e.Take? || e.Drain? {
      assert b.queue == [b.queue[0]] + b.queue[1..];
    }
    assert b'.enqueued == b'.executed + InHand(b') + b'.drained + b'.queue;
  }

  lemma {:induction false} LockKept(b: Box, e: Event)
    requires LockInv(b) && Enabled(b, e)
    ensures LockInv(Next(b, e))
  {
  }

  /** Where a command is, given that it was enqueued at most once. */
  lemma {:induction false} PlaceOf(b: Box, c: Command)
    requires OrderInv(b)
    ensures multiset(b.enqueued)[c]
         == multiset(b.executed)[c] + multiset(InHand(b))[c] + multiset(b.drained)[c] + multiset(b.queue)[c]
  {
  }

  lemma {:induction false} AnswerSlotFree(b: Box, i: nat)
    requires OrderInv(b) && ReplyInv(b) && (b.loop == Executing(Sync(i)) || (b.queue != [] && b.queue[0] == Sync(i)))
    ensures i < |b.callers| && i !in b.done && Posted(b.callers[i]) && !b.callers[i].Answered?
    ensures Sync(i) !in b.executed && Sync(i) !in b.drained
  {
    PlaceOf(b, Sync(i));
    assert Sync(i) in multiset(b.enqueued);
    assert CallerInv(b, i);
    if b.loop == Executing(Sync(i)) {
      assert multiset(InHand(b))[Sync(i)] == 1;
    } else {
      assert Sync(i) in multiset(b.queue);
    }
    assert Sync(i) !in multiset(b.executed) && Sync(i) !in multiset(b.drained);
  }

  lemma {:induction false} AnswerKeepsCaller(b: Box, c: Command, reply: Reply, b': Box, i: nat)
    requires i < |b.callers| && CallerInv(b, i)
    requires c.Sync? ==> c.caller < |b.callers| && c.caller !in b.done && Posted(b.callers[c.caller]) && !b.callers[c.caller].Answered?
    requires b'.callers == b.callers && b'.enqueued == b.enqueued
    requires b'.done == if c.Sync? then b.done[c.caller := reply] else b.done
    requires c.Sync? ==> c !in b.executed && c !in b.drained
    requires b'.replies == if c.Sync? then b.replies + multiset{c.caller} else b.replies
    requires b'.executed == if reply.Result? then b.executed + [c] else b.executed
    requires b'.drained == if reply.Shutdown? then b.drained + [c] else b.drained
    ensures CallerInv(b', i)
  {
  }

  lemma {:induction false} AppendCount(s: seq<Command>, x: Command, c: Command)
    ensures multiset(s + [x])[c] == multiset(s)[c] + if x == c then 1 else 0
  {
    assert multiset(s + [x]) == multiset(s) + multiset{x};
  }

  lemma {:induction false} NotPosted(b: Box, i: nat)
    requires OrderInv(b) && i < |b.callers| && CallerInv(b, i) && !Posted(b.callers[i])
    ensures Sync(i) !in b.executed && Sync(i) !in b.drained
  {
    PlaceOf(b, Sync(i));
    assert Sync(i) !in multiset(b.executed) && Sync(i) !in multiset(b.drained);
  }

  lemma {:induction false} ArrivalKeepsCaller(b: Box, e: Event, i: nat)
    requires i < |b.callers| && CallerInv(b, i) && Enabled(b, e) && (e.Enqueue? || e.Send?)
    requires e == Enqueue(i) ==> Sync(i) !in b.executed && Sync(i) !in b.drained
    ensures CallerInv(Next(b, e), i)
  {
    AppendCount(b.enqueued, if e.Enqueue? then Sync(e.caller) else Async(e.tag), Sync(i));
  }

  lemma {:induction false} OtherKeepsCaller(b: Box, e: Event, i: nat)
    requires i < |b.callers| && CallerInv(b, i) && Enabled(b, e)
    requires !e.Finish? && !e.Drain? && !e.Enqueue? && !e.Send?
    ensures CallerInv(Next(b, e), i)
  {
  }

  lemma {:induction false} RepliesKept(b: Box, e: Event)
    requires Inv(b) && Enabled(b, e)
    ensures ReplyInv(Next(b, e))
  {
    if e.Finish? && b.loop.command.Sync? {
      AnswerSlotFree(b, b.loop.command.caller);
    }
    if e.Drain? && b.queue[0].Sync? {
      AnswerSlotFree(b, b.queue[0].caller);
    }
    forall i: nat | i < |b.callers| ensures CallerInv(Next(b, e), i) {
      match e {
        case Finish => AnswerKeepsCaller(b, b.loop.command, Result, Next(b, e), i);
        case Drain => AnswerKeepsCaller(b, b.queue[0], Shutdown, Next(b, e), i);
        case Enqueue(k) =>
          if k == i { NotPosted(b, i); }
          ArrivalKeepsCaller(b, e, i);
        case Send(_) => ArrivalKeepsCaller(b, e, i);
        case _ => OtherKeepsCaller(b, e, i);
      }
    }
  }

  lemma {:induction false} StepKeepsInv(b: Box, e: Event)
    requires Inv(b) && Enabled(b, e)
    ensures Inv(Next(b, e))
  {
    OrderKept(b, e);
    LockKept(b, e);
    RepliesKept(b, e);
  }

  lemma {:induction false} RunKeepsInv(b: Box, es: seq<Event>, b': Box)
    requires Inv(b) && Run(b, es, b')
    ensures Inv(b')
    decreases |es|
  {
    if es != [] {
      StepKeepsInv(b, es[0]);
      RunKeepsInv(Next(b, es[0]), es[1..], b');
    }
  }

  lemma {:induction false} ReachableInv(b0: Box, es: seq<Event>, b: Box)
    requires Initial(b0) && Run(b0, es, b)
    ensures Inv(b)
  {
    forall i: nat | i < |b0.callers| ensures CallerInv(b0, i) {
      assert b0.callers[i].Fresh?;
    }
    RunKeepsInv(b0, es, b);
  }

  /** Executed commands are a prefix of the enqueue order; what was enqueued and not
      executed is in the loop's hand, drained, or still queued, in that order. */
  lemma {:induction false} ExecutionIsPrefixOfArrival(b0: Box, es: seq<Event>, b: Box)
    requires Initial(b0) && Run(b0, es, b)
    ensures b.executed <= b.enqueued
    ensures b.enqueued == b.executed + InHand(b) + b.drained + b.queue
    ensures b.running ==> b.drained == []
  {
    ReachableInv(b0, es, b);
  }

  /** An accepted synchronous command has exactly one reply once it left the queue and the
      loop's hand, and none before; a caller that was answered got the result exactly when
      its command was executed and the shutdown error exactly when it was drained. */
  lemma {:induction false} OneReplyPerAcceptedCommand(b0: Box, es: seq<Event>, b: Box, i: nat)
    requires Initial(b0) && Run(b0, es, b) && i < |b.callers|
    ensures Posted(b.callers[i]) <==> Sync(i) in b.enqueued
    ensures b.replies[i] == if Posted(b.callers[i]) && Sync(i) !in InHand(b) + b.queue then 1 else 0
    ensures b.callers[i] == Answered(Result) ==> Sync(i) in b.executed && Sync(i) !in b.drained
    ensures b.callers[i] == Answered(Shutdown) ==> Sync(i) in b.drained && Sync(i) !in b.executed
  {
    ReachableInv(b0, es, b);
    assert CallerInv(b, i);
    PlaceOf(b, Sync(i));
    assert multiset(InHand(b) + b.queue)[Sync(i)] == multiset(InHand(b))[Sync(i)] + multiset(b.queue)[Sync(i)];
    assert Sync(i) in b.enqueued <==> Sync(i) in multiset(b.enqueued);
    assert Sync(i) in b.executed <==> Sync(i) in multiset(b.executed);
    assert Sync(i) in b.drained <==> Sync(i) in multiset(b.drained);
    assert Sync(i) in InHand(b) + b.queue <==> Sync(i) in multiset(InHand(b) + b.queue);
  }

  /** The loop never waits for a caller: a finished command can always deliver its result,
      whether or not its caller is still there, and a drained one always its error. */
  lemma {:induction false} DeliveryNeverBlocks(b0: Box, es: seq<Event>, b: Box)
    requires Initial(b0) && Run(b0, es, b)
    ensures b.loop.Executing? ==> Enabled(b, Finish)
    ensures b.loop.Draining? && b.queue != [] && b.queue[0].Sync? ==>
              Next(b, Drain).replies == b.replies + multiset{b.queue[0].caller}
  {
    ReachableInv(b0, es, b);
    if b.loop.Executing? && b.loop.command.Sync? {
      AnswerSlotFree(b, b.loop.command.caller);
    }
    if b.queue != [] && b.queue[0].Sync? {
      AnswerSlotFree(b, b.queue[0].caller);
    }
  }

  /** Once the drain has released the lock no synchronous command is left in the queue, so
      every one that was ever accepted has its one reply. */
  lemma {:induction false} DrainLeavesNoCallerBehind(b0: Box, es: seq<Event>, b: Box)
    requires Initial(b0) && Run(b0, es, b) && b.loop.Stopped?
    ensures forall k :: 0 <= k < |b.queue| ==> b.queue[k].Async?
    ensures forall i: nat :: i < |b.callers| && Posted(b.callers[i]) ==> b.replies[i] == 1
  {
    ReachableInv(b0, es, b);
    forall i: nat | i < |b.callers| && Posted(b.callers[i]) ensures b.replies[i] == 1 {
      OneReplyPerAcceptedCommand(b0, es, b, i);
    }
  }

  ghost predicate CancelFree(es: seq<Event>) { forall k :: 0 <= k < |es| ==> !es[k].Cancel? }

  /** Shutdown has begun, and the callers inside do not all fit in what is left of the queue,
      which nobody empties any more. */
  ghost predicate Overfull(b: Box) { b.loop.Closing? && |b.queue| + |b.readers| > CAPACITY }

  lemma {:induction false} OverfullStays(b: Box, e: Event)
    requires Inv(b) && Overfull(b) && Enabled(b, e) && !e.Cancel?
    ensures Overfull(Next(b, e))
  {
    if e.RLock? {
      assert e.caller !in b.readers;
    } else if e.Enqueue? {
      assert e.caller in b.readers;
    }
  }

  lemma {:induction false} OverfullRun(b: Box, es: seq<Event>, b': Box)
    requires Inv(b) && Overfull(b) && Run(b, es, b') && CancelFree(es)
    ensures Overfull(b')
    decreases |es|
  {
    if es != [] {
      assert !es[0].Cancel?;
      StepKeepsInv(b, es[0]);
      OverfullStays(b, es[0]);
      OverfullRun(Next(b, es[0]), es[1..], b');
    }
  }

  /** A caller inside looks at `running`, finds space and leaves. */
  lemma {:induction false} LetOneThrough(b: Box, i: nat) returns (es: seq<Event>, b': Box)
    requires Inv(b) && b.loop.Closing? && i in b.readers && |b.queue| < CAPACITY
    ensures Run(b, es, b') && CancelFree(es) && Inv(b') && b'.loop.Closing?
    ensures b'.readers == b.readers - {i} && |b'.queue| == |b.queue| + 1
  {
    if b.callers[i].Locked? {
      var m := Next(b, Check(i));
      StepKeepsInv(b, Check(i));
      b' := Next(m, Enqueue(i));
      StepKeepsInv(m, Enqueue(i));
      es := [Check(i), Enqueue(i)];
      assert es[1..] == [Enqueue(i)];
    } else {
      b' := Next(b, Enqueue(i));
      StepKeepsInv(b, Enqueue(i));
      es := [Enqueue(i)];
    }
  }

  /** One after the other, all callers inside leave and the shutdown gets the lock. */
  lemma {:induction false} ReachDrain(b: Box) returns (es: seq<Event>, b': Box)
    requires Inv(b) && b.loop.Closing? && |b.queue| + |b.readers| <= CAPACITY
    ensures Run(b, es, b') && CancelFree(es) && b'.loop.Draining?
    decreases |b.readers|
  {
    if b.readers == {} {
      es, b' := [Lock], Next(b, Lock);
    } else {
      var i :| i in b.readers;
      var first, m := LetOneThrough(b, i);
      var rest;
      rest, b' := ReachDrain(m);
      RunConcat(b, first, m, rest, b');
      es := first + rest;
    }
  }

  /** Some continuation in which no caller's context is cancelled lets the shutdown drain. */
  ghost predicate DrainReachable(b: Box) {
    exists es, b' :: Run(b, es, b') && CancelFree(es) && b'.loop.Draining?
  }

  /** Once the loop's context has ended, the shutdown can get the lock without a caller being
      cancelled if and only if the callers inside fit in the rest of the queue. Otherwise it
      waits for ever: every continuation without a cancelled caller leaves it waiting. */
  lemma {:induction false} ShutdownStallsIff(b0: Box, es: seq<Event>, b: Box)
    requires Initial(b0) && Run(b0, es, b) && b.loop.Closing?
    ensures DrainReachable(b) <==> |b.queue| + |b.readers| <= CAPACITY
    ensures Overfull(b) ==> forall more, b' :: Run(b, more, b') && CancelFree(more) ==> b'.loop.Closing?
  {
    ReachableInv(b0, es, b);
    if Overfull(b) {
      forall more, b' | Run(b, more, b') && CancelFree(more) ensures b'.loop.Closing? {
        OverfullRun(b, more, b');
      }
    } else {
      var more, b' := ReachDrain(b);
    }
  }

  lemma {:induction false} FillQueue(b: Box, n: nat, b': Box)
    requires |b.queue| + n <= CAPACITY
    requires b' == b.(queue := b.queue + seq(n, _ => Async(0)), enqueued := b.enqueued + seq(n, _ => Async(0)))
    ensures Run(b, seq(n, _ => Send(0)), b')
    decreases n
  {
    var es := seq(n, _ => Send(0));
    if n == 0 {
      assert b' == b;
    } else {
      var m := Next(b, Send(0));
      assert es[1..] == seq(n - 1, _ => Send(0));
      assert m.queue + seq(n - 1, _ => Async(0)) == b.queue + seq(n, _ => Async(0));
      assert m.enqueued + seq(n - 1, _ => Async(0)) == b.enqueued + seq(n, _ => Async(0));
      FillQueue(m, n - 1, b');
    }
  }

  lemma {:induction false} RunConcat(a: Box, es: seq<Event>, b: Box, fs: seq<Event>, c: Box)
    requires Run(a, es, b) && Run(b, fs, c)
    ensures Run(a, es + fs, c)
    decreases |es|
  {
    if es == [] {
      assert es + fs == fs;
    } else {
      assert (es + fs)[1..] == es[1..] + fs;
      RunConcat(Next(a, es[0]), es[1..], b, fs, c);
    }
  }

  lemma {:induction false} AdmitOne(b0: Box) returns (es: seq<Event>, b: Box)
    requires Initial(b0) && |b0.callers| == 1
    ensures Run(b0, es, b) && b == Next(Next(Next(b0, Begin), RLock(0)), Check(0))
  {
    es := [Begin, RLock(0), Check(0)];
    b := Next(Next(Next(b0, Begin), RLock(0)), Check(0));
    assert es[1..] == [RLock(0), Check(0)];
    assert es[1..][1..] == [Check(0)];
  }

  /** The stall is real: one admitted caller and a queue filled by asynchronous senders
      before the context ends leave the shutdown waiting. */
  lemma {:induction false} ShutdownCanStall(b0: Box) returns (es: seq<Event>, b: Box)
    requires Initial(b0) && |b0.callers| == 1
    ensures Run(b0, es, b) && Overfull(b) && !DrainReachable(b)
  {
    var admit, b1 := AdmitOne(b0);
    var fill := seq(CAPACITY, _ => Send(0));
    var b2 := b1.(queue := b1.queue + seq(CAPACITY, _ => Async(0)), enqueued := b1.enqueued + seq(CAPACITY, _ => Async(0)));
    FillQueue(b1, CAPACITY, b2);
    RunConcat(b0, admit, b1, fill, b2);
    b := Next(b2, ContextDone);
    assert Run(b2, [ContextDone], b);
    RunConcat(b0, admit + fill, b2, [ContextDone], b);
    es := admit + fill + [ContextDone];
    assert b.readers == {0};
    ShutdownStallsIff(b0, es, b);
  }
}
