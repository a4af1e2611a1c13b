/** DiffOscillationGuard: a digest map and a window list that must agree with the plain
    history of accepted digests. The digest function is the caller's. */
module DiffGuard {
  import opened Finite
  import opened Text

  datatype Submission = Submission(digest: string, turn: int)

  datatype Memory = Memory(history: map<string, int>, list: seq<string>)

  /** The memory with its oldest entry dropped when the window is exceeded. */
  function Pruned(m: Memory, window: int, turn: int): Memory {
    if window <= 0 || |m.list| <= window then m
    else
      var oldest := m.list[0];
      var seen := if oldest in m.history then m.history[oldest] else 0;
      Memory(if seen <= turn - window then m.history - {oldest} else m.history, m.list[1..])
  }

  /** What one call does: the earlier turn it reports, if any, and the memory it leaves. */
  function Record(m: Memory, window: int, s: Submission): (Option<int>, Memory) {
    if s.digest in m.history && m.history[s.digest] != s.turn then (Some(m.history[s.digest]), m)
    else (None, Pruned(Memory(m.history[s.digest := s.turn], m.list + [s.digest]), window, s.turn))
  }

  class Guard {
    const maxWindow: int
    var history: map<string, int>
    var turnHistory: seq<string>

    constructor (window: int)
      ensures maxWindow == window && history == map[] && turnHistory == []
    {
      maxWindow, history, turnHistory := window, map[], [];
    }

    method RecordAndCheck(turn: int, digest: string) returns (flagged: Option<int>)
      modifies this
      ensures (flagged, Memory(history, turnHistory)) == Record(old(Memory(history, turnHistory)), maxWindow, Submission(digest, turn))
    {
      if digest in history && history[digest] != turn {
        return Some(history[digest]);
      }
      history := history[digest := turn];
      turnHistory := turnHistory + [digest];
      if maxWindow > 0 && |turnHistory| > maxWindow {
        var oldest := turnHistory[0];
        turnHistory := turnHistory[1..];
        if (if oldest in history then history[oldest] else 0) <= turn - maxWindow {
          history := history - {oldest};
        }
      }
      flagged := None;
    }
  }

  /** The memory after a run of submissions. */
  function Guarded(window: int, subs: seq<Submission>): Memory {
    if subs == [] then Memory(map[], [])
    else Record(Guarded(window, subs[..|subs| - 1]), window, subs[|subs| - 1]).1
  }

  // -- The plain history: every accepted submission, forever --

  /** The accepted submissions that count: the last `window` ones, all of them if unbounded. */
  function Remembered(past: seq<Submission>, window: int): seq<Submission> {
    if window <= 0 || |past| <= window then past else past[|past| - window..]
  }

  predicate Repeats(past: seq<Submission>, digest: string) {
    exists i :: 0 <= i < |past| && past[i].digest == digest
  }

  /** What is accepted when every submission is compared with the remembered history. */
  function Accepted(window: int, subs: seq<Submission>): seq<Submission> {
    if subs == [] then []
    else
      Taken(Accepted(window, subs[..|subs| - 1]), window, subs[|subs| - 1])
  }

  function Taken(past: seq<Submission>, window: int, s: Submission): seq<Submission> {
    if Repeats(Remembered(past, window), s.digest) then past else past + [s]
  }

  ghost predicate Increasing(subs: seq<Submission>) {
    forall i, j :: 0 <= i < j < |subs| ==> subs[i].turn < subs[j].turn
  }

  ghost predicate Before(past: seq<Submission>, turn: int) {
    forall i :: 0 <= i < |past| ==> past[i].turn < turn
  }

  lemma {:induction false} TurnsSpread(past: seq<Submission>, i: nat, j: nat)
    requires Increasing(past) && i <= j < |past|
    ensures past[i].turn + (j - i) <= past[j].turn
    decreases j - i
  {
    if i < j {
      TurnsSpread(past, i, j - 1);
    }
  }

  /** The map and the list hold exactly the remembered submissions. */
  ghost predicate Agree(m: Memory, kept: seq<Submission>) {
    && |m.list| == |kept| && (forall i :: 0 <= i < |kept| ==> m.list[i] == kept[i].digest)
    && Distinct(m.list)
    && (forall d :: d in m.history ==> d in m.list)
    && (forall i :: 0 <= i < |kept| ==> m.list[i] in m.history && m.history[m.list[i]] == kept[i].turn)
  }

  lemma {:induction false} LookupMeans(m: Memory, kept: seq<Submission>, digest: string)
    requires Agree(m, kept)
    ensures digest in m.history <==> Repeats(kept, digest)
    ensures digest in m.history ==> Submission(digest, m.history[digest]) in kept
    ensures forall t :: Submission(digest, t) in kept ==> digest in m.history && m.history[digest] == t
  {
    if digest in m.history {
      var i :| 0 <= i < |m.list| && m.list[i] == digest;
      assert kept[i] == Submission(digest, m.history[digest]);
    }
    forall i | 0 <= i < |kept| && kept[i].digest == digest
      ensures digest in m.history && m.history[digest] == kept[i].turn
    {
      assert m.list[i] == digest;
    }
  }

  lemma {:induction false} WidenedAgrees(m: Memory, kept: seq<Submission>, s: Submission)
    requires Agree(m, kept) && s.digest !in m.history
    ensures Agree(Memory(m.history[s.digest := s.turn], m.list + [s.digest]), kept + [s])
  {
    assert forall i :: 0 <= i < |m.list| ==> m.list[i] in m.history;
  }

  lemma {:induction false} NarrowedAgrees(m: Memory, kept: seq<Submission>)
    requires Agree(m, kept) && kept != []
    ensures Agree(Memory(m.history - {m.list[0]}, m.list[1..]), kept[1..])
  {
    var m' := Memory(m.history - {m.list[0]}, m.list[1..]);
    forall d | d in m'.history ensures d in m'.list {
      var i :| 0 <= i < |m.list| && m.list[i] == d;
      assert m'.list[i - 1] == d;
    }
  }

  /** The submission that leaves the window is old enough for the map to forget it too. */
  predicate PrunesInTime(past: seq<Submission>, window: int, s: Submission) {
    window <= 0 || |past| < window || past[|past| - window].turn <= s.turn - window
  }

  /** What the guard needs of a submission: a remembered digest does not come back in the turn
      that accepted it, and a new one finds the outgoing submission old enough. */
  predicate Timely(past: seq<Submission>, window: int, s: Submission) {
    if Repeats(Remembered(past, window), s.digest) then s !in Remembered(past, window) else PrunesInTime(past, window, s)
  }

  lemma {:induction false} RememberedNext(past: seq<Submission>, window: int, s: Submission)
    ensures var kept := Remembered(past, window);
            Remembered(past + [s], window) == if window > 0 && |past| >= window then (kept + [s])[1..] else kept + [s]
    ensures window > 0 && |past| >= window ==> |Remembered(past, window)| == window && Remembered(past, window)[0] == past[|past| - window]
  {
  }

  /** A new digest is added correctly if and only if the outgoing one is old enough. */
  lemma {:induction false} AcceptKeepsAgreementIff(m: Memory, past: seq<Submission>, window: int, s: Submission)
    requires Agree(m, Remembered(past, window)) && s.digest !in m.history
    ensures Agree(Record(m, window, s).1, Remembered(past + [s], window)) <==> PrunesInTime(past, window, s)
  {
    var kept := Remembered(past, window);
    var wide := Memory(m.history[s.digest := s.turn], m.list + [s.digest]);
    WidenedAgrees(m, kept, s);
    RememberedNext(past, window, s);
    if window > 0 && |past| >= window {
      NarrowAgreesIff(wide, kept + [s], window, s.turn);
    }
  }

  lemma {:induction false} NarrowAgreesIff(wide: Memory, kept: seq<Submission>, window: int, turn: int)
    requires Agree(wide, kept) && 0 < window < |kept|
    ensures Agree(Pruned(wide, window, turn), kept[1..]) <==> kept[0].turn <= turn - window
  {
    NarrowedAgrees(wide, kept);
    var oldest := wide.list[0];
    assert wide.history[oldest] == kept[0].turn;
    assert oldest !in wide.list[1..];
  }

  /** The guard treats a submission as the plain history does: it flags the same, and remembers
      the same afterwards. */
  ghost predicate Right(m: Memory, past: seq<Submission>, window: int, s: Submission) {
    && (Record(m, window, s).0.None? <==> !Repeats(Remembered(past, window), s.digest))
    && Agree(Record(m, window, s).1, Remembered(Taken(past, window, s), window))
  }

  lemma {:induction false} StepRightIff(m: Memory, past: seq<Submission>, window: int, s: Submission)
    requires Agree(m, Remembered(past, window))
    ensures Right(m, past, window, s) <==> Timely(past, window, s)
  {
    LookupMeans(m, Remembered(past, window), s.digest);
    if s.digest !in m.history {
      AcceptKeepsAgreementIff(m, past, window, s);
    } else {
      assert s in Remembered(past, window) <==> m.history[s.digest] == s.turn;
    }
  }

  ghost predicate RightAt(window: int, subs: seq<Submission>, k: nat)
    requires k < |subs|
  {
    Right(Guarded(window, subs[..k]), Accepted(window, subs[..k]), window, subs[k])
  }

  ghost predicate TimelyAt(window: int, subs: seq<Submission>, k: nat)
    requires k < |subs|
  {
    Timely(Accepted(window, subs[..k]), window, subs[k])
  }

  ghost predicate AllTimely(window: int, subs: seq<Submission>) {
    forall k: nat :: k < |subs| ==> TimelyAt(window, subs, k)
  }

  lemma {:induction false} RightLeavesAgreement(window: int, subs: seq<Submission>, k: nat)
    requires k < |subs| && RightAt(window, subs, k)
    ensures Agree(Guarded(window, subs[..k + 1]), Remembered(Accepted(window, subs[..k + 1]), window))
  {
    assert subs[..k + 1][..k] == subs[..k];
  }

  lemma {:induction false} AgreesAt(window: int, subs: seq<Submission>, k: nat)
    requires k <= |subs| && forall j: nat :: j < k ==> RightAt(window, subs, j)
    ensures Agree(Guarded(window, subs[..k]), Remembered(Accepted(window, subs[..k]), window))
  {
    if k > 0 {
      RightLeavesAgreement(window, subs, k - 1);
    }
  }

  lemma {:induction false} TimelyIsRight(window: int, subs: seq<Submission>, k: nat)
    requires k < |subs| && AllTimely(window, subs)
    ensures RightAt(window, subs, k)
  {
    if k > 0 {
      TimelyIsRight(window, subs, k - 1);
      RightLeavesAgreement(window, subs, k - 1);
    }
    assert TimelyAt(window, subs, k);
    StepRightIff(Guarded(window, subs[..k]), Accepted(window, subs[..k]), window, subs[k]);
  }

  /** Over every run, whatever its turns: the guard treats all submissions as the plain history
      does if and only if all of them are timely. */
  lemma {:induction false} RunRightIff(window: int, subs: seq<Submission>)
    ensures (forall k: nat :: k < |subs| ==> RightAt(window, subs, k)) <==> AllTimely(window, subs)
  {
    if AllTimely(window, subs) {
      forall k: nat | k < |subs| ensures RightAt(window, subs, k) {
        TimelyIsRight(window, subs, k);
      }
    }
    if forall k: nat :: k < |subs| ==> RightAt(window, subs, k) {
      forall k: nat | k < |subs| ensures TimelyAt(window, subs, k) {
        AgreesAt(window, subs, k);
        assert RightAt(window, subs, k);
        StepRightIff(Guarded(window, subs[..k]), Accepted(window, subs[..k]), window, subs[k]);
      }
    }
  }

  lemma {:induction false} AcceptedIncreasing(window: int, subs: seq<Submission>, turn: int)
    requires Increasing(subs) && Before(subs, turn)
    ensures var past := Accepted(window, subs); Increasing(past) && Before(past, turn)
  {
    if subs != [] {
      var earlier, s := subs[..|subs| - 1], subs[|subs| - 1];
      AcceptedIncreasing(window, earlier, s.turn);
      TakenIncreasing(Accepted(window, earlier), window, s, turn);
    }
  }

  lemma {:induction false} TakenIncreasing(past: seq<Submission>, window: int, s: Submission, turn: int)
    requires Increasing(past) && Before(past, s.turn) && s.turn < turn
    ensures Increasing(Taken(past, window, s)) && Before(Taken(past, window, s), turn)
  {
    var longer := past + [s];
    assert Increasing(longer) && Before(longer, turn);
  }

  lemma {:induction false} IncreasingIsTimely(window: int, subs: seq<Submission>)
    requires Increasing(subs)
    ensures AllTimely(window, subs)
  {
    forall k: nat | k < |subs| ensures TimelyAt(window, subs, k) {
      AcceptedIncreasing(window, subs[..k], subs[k].turn);
      LaterIsTimely(Accepted(window, subs[..k]), window, subs[k]);
    }
  }

  lemma {:induction false} LaterIsTimely(past: seq<Submission>, window: int, s: Submission)
    requires Increasing(past) && Before(past, s.turn)
    ensures Timely(past, window, s)
  {
    assert s !in past;
    if window > 0 && |past| >= window {
      TurnsSpread(past, |past| - window, |past| - 1);
    }
  }

  /** After any timely run the map and the list are the remembered history, which for increasing
      turns is always so. */
  lemma {:induction false} MemoryIsRememberedHistory(window: int, subs: seq<Submission>)
    requires AllTimely(window, subs)
    ensures Agree(Guarded(window, subs), Remembered(Accepted(window, subs), window))
  {
    RunRightIff(window, subs);
    AgreesAt(window, subs, |subs|);
    assert subs[..|subs|] == subs;
  }

  /** What the guard answers after a timely run: turn t exactly when the remembered part of the
      unbounded history accepted the same digest at t, unless t is the present turn. It never
      stores more than the window. */
  lemma {:induction false} TimelyRunAnswers(window: int, subs: seq<Submission>, s: Submission)
    requires AllTimely(window, subs)
    ensures var kept, flagged := Remembered(Accepted(window, subs), window), Record(Guarded(window, subs), window, s).0;
            && (forall t :: flagged == Some(t) <==> Submission(s.digest, t) in kept && t != s.turn)
            && (flagged.None? <==> !Repeats(kept, s.digest) || s in kept)
    ensures var m := Guarded(window, subs);
            window > 0 ==> |m.list| <= window && |m.history| <= window
  {
    MemoryIsRememberedHistory(window, subs);
    var m, kept := Guarded(window, subs), Remembered(Accepted(window, subs), window);
    LookupMeans(m, kept, s.digest);
    if s.digest in m.history {
      assert Submission(s.digest, m.history[s.digest]) in kept;
    }
    KeysBounded(m.history.Keys, m.list);
  }

  /** For every run with increasing turns, the guard reports turn t exactly when the remembered
      part of the unbounded history accepted the same digest at turn t, and reports nothing
      exactly when that history does not hold the digest. */
  lemma {:induction false} GuardAgreesWithHistory(window: int, subs: seq<Submission>, s: Submission)
    requires Increasing(subs) && Before(subs, s.turn)
    ensures var kept, flagged := Remembered(Accepted(window, subs), window), Record(Guarded(window, subs), window, s).0;
            && (forall t :: flagged == Some(t) <==> Submission(s.digest, t) in kept)
            && (flagged.None? <==> !Repeats(kept, s.digest))
    ensures var m := Guarded(window, subs);
            window > 0 ==> |m.list| <= window && |m.history| <= window
  {
    IncreasingIsTimely(window, subs);
    AcceptedIncreasing(window, subs, s.turn);
    TimelyRunAnswers(window, subs, s);
    assert s !in Accepted(window, subs);
  }

  /** A submission that is not timely shows: if the outgoing one is too young, its digest is
      flagged afterwards in every other turn although the window has dropped it. */
  lemma {:induction false} UntimelyRemembersTooMuch(m: Memory, past: seq<Submission>, window: int, s: Submission, turn: int)
    requires Agree(m, Remembered(past, window)) && !Repeats(Remembered(past, window), s.digest) && !PrunesInTime(past, window, s)
    requires turn != past[|past| - window].turn
    ensures var gone, m' := past[|past| - window], Record(m, window, s).1;
            && !Repeats(Remembered(past + [s], window), gone.digest)
            && Record(m', window, Submission(gone.digest, turn)).0 == Some(gone.turn)
  {
    var kept := Remembered(past, window);
    LookupMeans(m, kept, s.digest);
    RememberedNext(past, window, s);
    WidenedAgrees(m, kept, s);
    assert m.list[0] == kept[0].digest;
    DroppedIsGone(Memory(m.history[s.digest := s.turn], m.list + [s.digest]), kept + [s]);
  }

  lemma {:induction false} DroppedIsGone(wide: Memory, kept: seq<Submission>)
    requires Agree(wide, kept) && kept != []
    ensures !Repeats(kept[1..], kept[0].digest)
  {
    forall i | 0 <= i < |kept[1..]| ensures kept[1..][i].digest != kept[0].digest {
      assert wide.list[i + 1] != wide.list[0];
    }
  }

  lemma {:induction false} KeysBounded(keys: set<string>, list: seq<string>)
    requires forall d :: d in keys ==> d in list
    ensures |keys| <= |list|
  {
    if list == [] {
      assert keys == {};
    } else {
      var last := list[|list| - 1];
      KeysBounded(keys - {last}, list[..|list| - 1]);
    }
  }

  /** Such a run exists: a turn used twice. */
  lemma {:induction false} RepeatedTurnRemembersTooMuch()
    ensures var subs := [Submission("a", 1), Submission("b", 1)];
            && !Repeats(Remembered(Accepted(1, subs), 1), "a")
            && Record(Guarded(1, subs), 1, Submission("a", 2)).0 == Some(1)
  {
    var a, b := Submission("a", 1), Submission("b", 1);
    assert [a, b][..1] == [a] && [a][..0] == [];
    assert Accepted(1, [a]) == [a] && Accepted(1, [a, b]) == [a, b];
    assert Guarded(1, [a]) == Memory(map["a" := 1], ["a"]);
    assert Guarded(1, [a, b]).history["a"] == 1;
  }
}
