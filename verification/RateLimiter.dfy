/** TPMRateLimiter: a token budget over a sliding one-minute window, kept as a list of grants
    that is compacted in place. Times are nanoseconds on a clock that never goes back. */
module RateLimiter {
  import opened Text

  const MINUTE := 60_000_000_000
  const DEFAULT_LIMIT := 60000
  const SHORT_WAIT := 50_000_000

  datatype Grant = Grant(time: int, tokens: int)

  /** The grants after the cutoff, in order. */
  function Kept(gs: seq<Grant>, cutoff: int): seq<Grant> {
    if gs == [] then []
    else
      var earlier, g := Kept(gs[..|gs| - 1], cutoff), gs[|gs| - 1];
      if g.time > cutoff then earlier + [g] else earlier
  }

  function Tokens(gs: seq<Grant>): int {
    if gs == [] then 0 else Tokens(gs[..|gs| - 1]) + gs[|gs| - 1].tokens
  }

  /** A request fits when the retained grants leave room for it, and always when there are none. */
  predicate Fits(limit: int, kept: seq<Grant>, tokens: int) {
    Tokens(kept) + tokens <= limit || kept == []
  }

  // ----- the limiter -----

  class Limiter {
    const limit: int
    var buffer: array<Grant>
    var count: nat

    ghost predicate Valid()
      reads this
    {
      count <= buffer.Length && limit > 0
    }

    ghost function Entries(): seq<Grant>
      requires Valid()
      reads this, buffer
    {
      buffer[..count]
    }

    constructor (tpmLimit: int)
      ensures Valid() && fresh(buffer) && Entries() == []
      ensures limit == if tpmLimit <= 0 then DEFAULT_LIMIT else tpmLimit
    {
      limit := if tpmLimit <= 0 then DEFAULT_LIMIT else tpmLimit;
      buffer := new Grant[0];
      count := 0;
    }

    /** Pruning writes the surviving entries over the front of the same buffer. */
    method Compact(cutoff: int) returns (current: int)
      requires Valid()
      modifies this`count, buffer
      ensures Valid() && buffer == old(buffer)
      ensures Entries() == Kept(old(Entries()), cutoff) && current == Tokens(Entries())
    {
      ghost var before := Entries();
      ghost var front: seq<Grant> := [];
      var kept := 0;
      current := 0;
      var n := count;
      for i := 0 to n
        invariant count == n && kept == |front| <= i
        invariant front == Kept(before[..i], cutoff) && current == Tokens(front)
        invariant forall k :: 0 <= k < kept ==> buffer[k] == front[k]
        invariant forall k :: i <= k < n ==> buffer[k] == before[k]
      {
        var e := buffer[i];
        KeptNext(before, i, cutoff);
        if e.time > cutoff {
          TokensAppend(front, e);
          front := front + [e];
          buffer[kept] := e;
          kept := kept + 1;
          current := current + e.tokens;
        }
      }
      assert before[..n] == before;
      count := kept;
      assert buffer[..kept] == front;
    }

    method Append(g: Grant)
      requires Valid()
      modifies this`count, this`buffer, buffer
      ensures Valid() && (buffer == old(buffer) || fresh(buffer))
      ensures Entries() == old(Entries()) + [g]
    {
      if count == buffer.Length {
        var bigger := new Grant[2 * count + 1](_ => g);
        forall i | 0 <= i < count {
          bigger[i] := buffer[i];
        }
        assert bigger[..count] == buffer[..count];
        buffer := bigger;
      }
      buffer[count] := g;
      count := count + 1;
    }

    /** One pass of the wait loop under the mutex: prune, then either record the grant or
        answer how long to wait until the first retained entry leaves the window. */
    method TryGrant(now: int, tokens: int) returns (wait: Option<int>)
      requires Valid()
      modifies this, buffer
      ensures Valid() && (buffer == old(buffer) || fresh(buffer))
      ensures Answer(limit, Kept(old(Entries()), now - MINUTE), now, tokens, wait)
      ensures Entries() == After(limit, State(old(Entries()), []), Request(now, tokens)).entries
    {
      ghost var kept := Kept(Entries(), now - MINUTE);
      KeptIsRecent(Entries(), now - MINUTE, 0);
      var current := Compact(now - MINUTE);
      if current + tokens <= limit || count == 0 {
        assert Fits(limit, kept, tokens);
        Append(Grant(now, tokens));
        return None;
      }
      assert kept != [] && buffer[0] == kept[0];
      var duration := buffer[0].time + MINUTE - now;
      if duration <= 0 {
        duration := SHORT_WAIT;
      }
      wait := Some(duration);
    }

    /** A pass of a caller that at most n retained entries stand in the way of: it is granted,
        or after the sleep at most n - 1 do. */
    method Attempt(now: int, tokens: int, ghost n: nat) returns (wait: Option<int>)
      requires Valid() && RetainsAtMost(Entries(), now, n)
      modifies this, buffer
      ensures Valid() && (buffer == old(buffer) || fresh(buffer))
      ensures wait.None? ==> GrantedLast(Entries(), Grant(now, tokens))
      ensures wait.Some? ==> n > 0 && wait.value > 0 && ClearsBy(Entries(), now + wait.value, n - 1)
    {
      ghost var before := Entries();
      wait := TryGrant(now, tokens);
      PassOutcome(limit, before, Request(now, tokens), wait, n, Entries());
    }

    /** The whole call of a lone caller: each sleep lasts at least as long as asked (`late`
        says how much longer). It is granted after at most one wait per entry that was
        retained when it started, unless its context is cancelled during a sleep. */
    method WaitIfBudgetExceeded(start: int, tokens: int, late: nat -> nat, cancelled: nat -> bool)
        returns (granted: bool, waits: nat, now: int)
      requires Valid()
      modifies this, buffer
      ensures Valid()
      ensures waits <= |Kept(old(Entries()), start - MINUTE)|
      ensures granted <==> forall k :: 0 <= k < waits ==> !cancelled(k)
      ensures now >= start && (granted ==> GrantedLast(Entries(), Grant(now, tokens)))
    {
      now, waits := start, 0;
      ghost var own := buffer;
      ghost var budget := |Kept(Entries(), start - MINUTE)|;
      while true
        invariant Valid() && (buffer == own || fresh(buffer)) && now >= start
        invariant waits <= budget && RetainsAtMost(Entries(), now, budget - waits)
        invariant forall k :: 0 <= k < waits ==> !cancelled(k)
        decreases budget - waits
      {
        var wait := Attempt(now, tokens, budget - waits);
        if wait.None? {
          return true, waits, now;
        }
        waits := waits + 1;
        if cancelled(waits - 1) {
          return false, waits, now;
        }
        now := now + wait.value + late(waits - 1);
      }
    }
  }

  /** How one pass ends: with a grant exactly when the request fits, else with the time until
      the first retained entry leaves the window. */
  ghost predicate Answer(limit: int, kept: seq<Grant>, now: int, tokens: int, wait: Option<int>) {
    if Fits(limit, kept, tokens) then wait.None?
    else kept != [] && wait == Some(kept[0].time + MINUTE - now) && wait.value > 0
  }

  ghost predicate RetainsAtMost(entries: seq<Grant>, now: int, n: int) {
    |Kept(entries, now - MINUTE)| <= n
  }

  ghost predicate ClearsBy(entries: seq<Grant>, time: int, n: int) {
    forall now :: now >= time ==> RetainsAtMost(entries, now, n)
  }

  ghost predicate GrantedLast(entries: seq<Grant>, g: Grant) {
    entries != [] && entries[|entries| - 1] == g
  }

  lemma {:induction false} PassOutcome(limit: int, entries: seq<Grant>, r: Request, wait: Option<int>, n: nat, after: seq<Grant>)
    requires Answer(limit, Kept(entries, r.now - MINUTE), r.now, r.tokens, wait) && RetainsAtMost(entries, r.now, n)
    requires after == After(limit, State(entries, []), r).entries
    ensures wait.None? ==> GrantedLast(after, Grant(r.now, r.tokens))
    ensures wait.Some? ==> n > 0 && wait.value > 0 && ClearsBy(after, r.now + wait.value, n - 1)
  {
    if wait.None? {
      GrantIsLast(limit, entries, r, wait);
    } else {
      WaitShrinks(limit, entries, r, wait, n);
    }
  }

  lemma {:induction false} GrantIsLast(limit: int, entries: seq<Grant>, r: Request, wait: Option<int>)
    requires wait.None? && Answer(limit, Kept(entries, r.now - MINUTE), r.now, r.tokens, wait)
    ensures GrantedLast(After(limit, State(entries, []), r).entries, Grant(r.now, r.tokens))
  {
  }

  lemma {:induction false} WaitShrinks(limit: int, entries: seq<Grant>, r: Request, wait: Option<int>, n: nat)
    requires wait.Some? && Answer(limit, Kept(entries, r.now - MINUTE), r.now, r.tokens, wait)
    requires RetainsAtMost(entries, r.now, n)
    ensures n > 0 && ClearsBy(After(limit, State(entries, []), r).entries, r.now + wait.value, n - 1)
  {
    var kept := Kept(entries, r.now - MINUTE);
    var after := After(limit, State(entries, []), r).entries;
    assert after == kept;
    var fewer := n - 1;
    forall next ensures next >= r.now + wait.value ==> RetainsAtMost(after, next, fewer) {
      KeptShrinks(kept, next - MINUTE);
    }
  }

  lemma {:induction false} KeptAppend(gs: seq<Grant>, g: Grant, cutoff: int)
    ensures g.time > cutoff ==> Kept(gs + [g], cutoff) == Kept(gs, cutoff) + [g]
    ensures g.time <= cutoff ==> Kept(gs + [g], cutoff) == Kept(gs, cutoff)
  {
    assert (gs + [g])[..|gs|] == gs;
  }

  lemma {:induction false} KeptNext(gs: seq<Grant>, i: nat, cutoff: int)
    requires i < |gs|
    ensures gs[i].time > cutoff ==> Kept(gs[..i + 1], cutoff) == Kept(gs[..i], cutoff) + [gs[i]]
    ensures gs[i].time <= cutoff ==> Kept(gs[..i + 1], cutoff) == Kept(gs[..i], cutoff)
  {
    KeptAppend(gs[..i], gs[i], cutoff);
    assert gs[..i + 1] == gs[..i] + [gs[i]];
  }

  lemma {:induction false} TokensAppend(gs: seq<Grant>, g: Grant)
    ensures Tokens(gs + [g]) == Tokens(gs) + g.tokens
  {
    assert (gs + [g])[..|gs|] == gs;
  }

  lemma {:induction false} WindowAppend(gs: seq<Grant>, g: Grant, t: int)
    ensures t - MINUTE < g.time <= t ==> Window(gs + [g], t) == Window(gs, t) + [g]
    ensures !(t - MINUTE < g.time <= t) ==> Window(gs + [g], t) == Window(gs, t)
  {
    assert (gs + [g])[..|gs|] == gs;
  }

  lemma {:induction false} KeptIsRecent(gs: seq<Grant>, cutoff: int, k: nat)
    ensures k < |Kept(gs, cutoff)| ==> Kept(gs, cutoff)[k].time > cutoff
  {
    if gs != [] {
      KeptIsRecent(gs[..|gs| - 1], cutoff, k);
    }
  }

  lemma {:induction false} KeptTwice(gs: seq<Grant>, c: int, d: int)
    requires c <= d
    ensures Kept(Kept(gs, c), d) == Kept(gs, d)
  {
    if gs != [] {
      var init, g := gs[..|gs| - 1], gs[|gs| - 1];
      KeptTwice(init, c, d);
      if g.time > c {
        KeptAppend(Kept(init, c), g, d);
      } else {
        assert Kept(gs, c) == Kept(init, c) && Kept(gs, d) == Kept(init, d);
      }
    }
  }

  lemma {:induction false} KeptShrinks(gs: seq<Grant>, d: int)
    ensures |Kept(gs, d)| <= |gs|
    ensures gs != [] && gs[0].time <= d ==> |Kept(gs, d)| < |gs|
  {
    if |gs| > 1 {
      KeptShrinks(gs[..|gs| - 1], d);
    }
  }

  // ----- every run: any callers, in the order they take the mutex -----

  datatype Request = Request(now: int, tokens: int)

  datatype State = State(entries: seq<Grant>, granted: seq<Grant>)

  /** The effect of TryGrant, with the list of all grants ever made beside the entries. */
  function After(limit: int, s: State, r: Request): State {
    var kept := Kept(s.entries, r.now - MINUTE);
    if Fits(limit, kept, r.tokens)
    then State(kept + [Grant(r.now, r.tokens)], s.granted + [Grant(r.now, r.tokens)])
    else State(kept, s.granted)
  }

  function Run(limit: int, rs: seq<Request>): State {
    if rs == [] then State([], []) else After(limit, Run(limit, rs[..|rs| - 1]), rs[|rs| - 1])
  }

  ghost predicate ClockRuns(rs: seq<Request>) {
    && (forall i, j :: 0 <= i < j < |rs| ==> rs[i].now <= rs[j].now)
    && forall i :: 0 <= i < |rs| ==> rs[i].tokens >= 0
  }

  /** The grants in the window that ends at t. */
  function Window(gs: seq<Grant>, t: int): seq<Grant> {
    if gs == [] then []
    else
      var earlier, g := Window(gs[..|gs| - 1], t), gs[|gs| - 1];
      if t - MINUTE < g.time <= t then earlier + [g] else earlier
  }

  ghost predicate Budgeted(limit: int, gs: seq<Grant>, t: int) {
    Within(limit, Window(gs, t))
  }

  ghost predicate Within(limit: int, window: seq<Grant>) {
    Tokens(window) <= limit || |window| == 1
  }

  ghost predicate Sane(gs: seq<Grant>, now: int) {
    forall i :: 0 <= i < |gs| ==> gs[i].time <= now && gs[i].tokens >= 0
  }

  lemma {:induction false} WindowInKept(gs: seq<Grant>, now: int, t: int)
    requires Sane(gs, now) && now <= t
    ensures Tokens(Window(gs, t)) <= Tokens(Kept(gs, now - MINUTE)) && 0 <= Tokens(Kept(gs, now - MINUTE))
    ensures Kept(gs, now - MINUTE) == [] ==> Window(gs, t) == []
  {
    if gs != [] {
      var init, g := gs[..|gs| - 1], gs[|gs| - 1];
      WindowInKept(init, now, t);
      assert g.tokens >= 0;
      TokensAppend(Kept(init, now - MINUTE), g);
      TokensAppend(Window(init, t), g);
      assert g.time <= now - MINUTE ==> Kept(gs, now - MINUTE) == Kept(init, now - MINUTE);
      assert g.time <= t - MINUTE ==> Window(gs, t) == Window(init, t);
    }
  }

  lemma {:induction false} GrantStaysBudgeted(limit: int, gs: seq<Grant>, r: Request, t: int)
    requires limit > 0 && Sane(gs, r.now) && r.tokens >= 0 && Budgeted(limit, gs, t)
    requires Fits(limit, Kept(gs, r.now - MINUTE), r.tokens)
    ensures Budgeted(limit, gs + [Grant(r.now, r.tokens)], t)
  {
    var g := Grant(r.now, r.tokens);
    WindowAppend(gs, g, t);
    if t - MINUTE < r.now <= t {
      WindowInKept(gs, r.now, t);
      GrantInWindow(limit, Window(gs, t), Kept(gs, r.now - MINUTE), g);
    }
  }

  lemma {:induction false} GrantInWindow(limit: int, window: seq<Grant>, kept: seq<Grant>, g: Grant)
    requires Tokens(window) <= Tokens(kept) && (kept == [] ==> window == []) && Fits(limit, kept, g.tokens)
    ensures Within(limit, window + [g])
  {
    TokensAppend(window, g);
  }

  /** The entries in memory are the grants still in the window at time `now`. */
  ghost predicate StateInv(s: State, now: int) {
    Sane(s.granted, now) && s.entries == Kept(s.granted, now - MINUTE)
  }

  lemma {:induction false} AfterKeepsInv(limit: int, s: State, last: int, r: Request)
    requires StateInv(s, last) && last <= r.now && r.tokens >= 0
    ensures StateInv(After(limit, s, r), r.now)
    ensures Kept(s.entries, r.now - MINUTE) == Kept(s.granted, r.now - MINUTE)
  {
    KeptTwice(s.granted, last - MINUTE, r.now - MINUTE);
    KeptAppend(s.granted, Grant(r.now, r.tokens), r.now - MINUTE);
    SaneLonger(s.granted, last, r);
    if Fits(limit, Kept(s.entries, r.now - MINUTE), r.tokens) {
      assert After(limit, s, r).granted == s.granted + [Grant(r.now, r.tokens)];
    } else {
      assert After(limit, s, r).granted == s.granted;
    }
  }

  lemma {:induction false} SaneLonger(gs: seq<Grant>, last: int, r: Request)
    requires Sane(gs, last) && last <= r.now && r.tokens >= 0
    ensures Sane(gs, r.now) && Sane(gs + [Grant(r.now, r.tokens)], r.now)
  {
    forall i | 0 <= i < |gs + [Grant(r.now, r.tokens)]|
      ensures var g := (gs + [Grant(r.now, r.tokens)])[i]; g.time <= r.now && g.tokens >= 0
    {
      assert i < |gs| ==> (gs + [Grant(r.now, r.tokens)])[i] == gs[i];
    }
  }

  lemma {:induction false} RunKeepsInv(limit: int, rs: seq<Request>, now: int)
    requires ClockRuns(rs) && (rs == [] || rs[|rs| - 1].now == now)
    ensures StateInv(Run(limit, rs), now)
  {
    if rs != [] {
      var init := rs[..|rs| - 1];
      var last := if init == [] then now else init[|init| - 1].now;
      RunKeepsInv(limit, init, last);
      AfterKeepsInv(limit, Run(limit, init), last, rs[|rs| - 1]);
    }
  }

  /** In every run of any number of callers, every one-minute window holds grants of at most
      the limit, or exactly one grant. */
  lemma {:induction false} EveryWindowBudgeted(limit: int, rs: seq<Request>, t: int)
    requires limit > 0 && ClockRuns(rs)
    ensures Budgeted(limit, Run(limit, rs).granted, t)
  {
    if rs != [] {
      var init, r := rs[..|rs| - 1], rs[|rs| - 1];
      var last := if init == [] then r.now else init[|init| - 1].now;
      EveryWindowBudgeted(limit, init, t);
      RunKeepsInv(limit, init, last);
      AfterStaysBudgeted(limit, Run(limit, init), last, r, t);
    }
  }

  lemma {:induction false} AfterStaysBudgeted(limit: int, s: State, last: int, r: Request, t: int)
    requires limit > 0 && StateInv(s, last) && last <= r.now && r.tokens >= 0 && Budgeted(limit, s.granted, t)
    ensures Budgeted(limit, After(limit, s, r).granted, t)
  {
    assert Kept(s.entries, r.now - MINUTE) == Kept(s.granted, r.now - MINUTE) by {
      KeptTwice(s.granted, last - MINUTE, r.now - MINUTE);
    }
    assert Sane(s.granted, r.now);
    if Fits(limit, Kept(s.granted, r.now - MINUTE), r.tokens) {
      GrantStaysBudgeted(limit, s.granted, r, t);
    }
  }

  /** In every run a request is granted exactly when the tokens granted in the minute before it
      leave room for it, or none were granted; a grant is recorded as it was asked for. */
  lemma {:induction false} GrantedIff(limit: int, rs: seq<Request>, r: Request)
    requires ClockRuns(rs + [r])
    ensures var before, after := Run(limit, rs).granted, Run(limit, rs + [r]).granted;
            var window := Window(before, r.now);
            after == if Tokens(window) + r.tokens <= limit || |window| == 0 then before + [Grant(r.now, r.tokens)] else before
  {
    assert (rs + [r])[..|rs|] == rs;
    assert forall i :: 0 <= i < |rs| ==> (rs + [r])[i] == rs[i];
    assert (rs + [r])[|rs|] == r;
    var last := if rs == [] then r.now else rs[|rs| - 1].now;
    RunKeepsInv(limit, rs, last);
    AfterGrants(limit, Run(limit, rs), last, r);
  }

  lemma {:induction false} AfterGrants(limit: int, s: State, last: int, r: Request)
    requires StateInv(s, last) && last <= r.now && r.tokens >= 0
    ensures var window := Window(s.granted, r.now);
            After(limit, s, r).granted == if Tokens(window) + r.tokens <= limit || |window| == 0 then s.granted + [Grant(r.now, r.tokens)] else s.granted
  {
    assert Kept(s.entries, r.now - MINUTE) == Window(s.granted, r.now) by {
      KeptTwice(s.granted, last - MINUTE, r.now - MINUTE);
      KeptIsWindow(s.granted, r.now);
    }
  }

  /** And the list kept in memory is exactly the grants still in the window at the last
      request: compaction loses nothing that counts and keeps nothing that does not. */
  lemma {:induction false} EntriesAreTheWindow(limit: int, rs: seq<Request>)
    requires ClockRuns(rs) && rs != []
    ensures Run(limit, rs).entries == Window(Run(limit, rs).granted, rs[|rs| - 1].now)
  {
    var now := rs[|rs| - 1].now;
    RunKeepsInv(limit, rs, now);
    KeptIsWindow(Run(limit, rs).granted, now);
  }

  lemma {:induction false} KeptIsWindow(gs: seq<Grant>, now: int)
    requires Sane(gs, now)
    ensures Kept(gs, now - MINUTE) == Window(gs, now)
  {
    if gs != [] {
      KeptIsWindow(gs[..|gs| - 1], now);
    }
  }
}
