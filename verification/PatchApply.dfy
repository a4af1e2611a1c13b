/** applyFileDiff and findHunkOffset: placing the hunks of a file diff in a list of lines. */
module PatchApply {
  import opened Text
  import opened UnifiedDiff

  // ----- matching -----

  /** matchAt, and matchAtTrimmed when lines are compared without surrounding white space. */
  predicate MatchAt(lines: seq<string>, block: seq<string>, at: int, trimmed: bool) {
    && 0 <= at && at + |block| <= |lines|
    && forall i :: 0 <= i < |block| ==>
         if trimmed then Trim(lines[at + i]) == Trim(block[i]) else lines[at + i] == block[i]
  }

  function Matcher(lines: seq<string>, block: seq<string>, trimmed: bool): int -> bool {
    i => MatchAt(lines, block, i, trimmed)
  }

  ghost predicate Somewhere(m: int -> bool) { exists i :: m(i) }

  ghost predicate Occurs(lines: seq<string>, block: seq<string>, trimmed: bool) {
    Somewhere(Matcher(lines, block, trimmed))
  }

  function Distance(a: int, b: int): nat { if a < b then b - a else a - b }

  /** i is a better place than j: closer to the target, and the earlier one at equal distance. */
  predicate Closer(target: int, i: int, j: int) {
    Distance(i, target) < Distance(j, target) || (Distance(i, target) == Distance(j, target) && i <= j)
  }

  ghost predicate Within(m: int -> bool, target: int, window: nat) {
    exists i :: m(i) && Distance(i, target) <= window
  }

  /** The match a search with the given window settles on: the nearest one if a match lies
      within the window around a non-negative target, the first in the file otherwise. */
  ghost predicate Chosen(m: int -> bool, target: int, window: nat, r: int) {
    && m(r)
    && if target >= 0 && Within(m, target, window)
       then forall i :: m(i) ==> Closer(target, r, i)
       else forall i :: m(i) ==> r <= i
  }

  /** Where a hunk goes: an exact match whenever there is one, otherwise a match up to white
      space, otherwise nowhere (-1); an empty old block goes to the target line itself. */
  ghost predicate Placement(lines: seq<string>, block: seq<string>, target: int, r: int) {
    if block == [] then r == (if target < 0 then 0 else if target > |lines| then |lines| else target)
    else if Occurs(lines, block, false) then Chosen(Matcher(lines, block, false), target, 15, r)
    else if Occurs(lines, block, true) then Chosen(Matcher(lines, block, true), target, 25, r)
    else r == -1
  }

  lemma {:induction false} ChosenUnique(m: int -> bool, target: int, window: nat, r: int, q: int)
    requires Chosen(m, target, window, r) && Chosen(m, target, window, q)
    ensures r == q
  {
    if target >= 0 && Within(m, target, window) {
      assert Closer(target, r, q) && Closer(target, q, r);
    }
  }

  /** The rules above leave no choice. */
  lemma {:induction false} PlacementUnique(lines: seq<string>, block: seq<string>, target: int, r: int, q: int)
    requires Placement(lines, block, target, r) && Placement(lines, block, target, q)
    ensures r == q
  {
    if block == [] {
    } else if Occurs(lines, block, false) {
      ChosenUnique(Matcher(lines, block, false), target, 15, r, q);
    } else if Occurs(lines, block, true) {
      ChosenUnique(Matcher(lines, block, true), target, 25, r, q);
    }
  }

  /** One of the two passes of findHunkOffset: the target line, then outwards from it, then
      the whole file from the top; `last` is the last line a block can start at. */
  method Search(m: int -> bool, last: int, target: int, window: nat) returns (r: int)
    requires forall i :: m(i) ==> 0 <= i <= last
    ensures r == -1 <==> !Somewhere(m)
    ensures r != -1 ==> Chosen(m, target, window, r)
  {
    if target >= 0 && m(target) {
      return target;
    }
    if target > 0 {
      var offset := 1;
      while offset <= window
        invariant 1 <= offset <= window + 1
        invariant forall i :: m(i) ==> Distance(i, target) >= offset
      {
        if target - offset >= 0 && m(target - offset) {
          return target - offset;
        }
        if target + offset <= last && m(target + offset) {
          return target + offset;
        }
        offset := offset + 1;
      }
    }
    var i := 0;
    while i <= last
      invariant i >= 0 && forall k :: m(k) ==> k >= i
    {
      if m(i) {
        return i;
      }
      i := i + 1;
    }
    r := -1;
  }

  lemma {:induction false} ExactIsTrimmed(lines: seq<string>, block: seq<string>)
    requires Occurs(lines, block, false)
    ensures Occurs(lines, block, true)
  {
    var i :| Matcher(lines, block, false)(i);
    assert Matcher(lines, block, true)(i);
  }

  /** findHunkOffset: -1 exactly when no line block matches even after trimming, and an
      exact match whenever one exists. */
  method FindHunkOffset(lines: seq<string>, block: seq<string>, target: int) returns (r: int)
    ensures Placement(lines, block, target, r)
    ensures block != [] ==> (r == -1 <==> !Occurs(lines, block, true))
    ensures block != [] && Occurs(lines, block, false) ==> MatchAt(lines, block, r, false)
    ensures r != -1 ==> 0 <= r && r + |block| <= |lines|
  {
    if |block| == 0 {
      return if target < 0 then 0 else if target > |lines| then |lines| else target;
    }
    r := Search(Matcher(lines, block, false), |lines| - |block|, target, 15);
    if r == -1 {
      r := Search(Matcher(lines, block, true), |lines| - |block|, target, 25);
    } else {
      ExactIsTrimmed(lines, block);
    }
  }

  // ----- applying -----

  function OldText(ls: seq<Line>): seq<string> {
    if ls == [] then []
    else
      var earlier, l := OldText(ls[..|ls| - 1]), ls[|ls| - 1];
      if l.kind in {' ', '-'} then earlier + [l.text] else earlier
  }

  function NewText(ls: seq<Line>): seq<string> {
    if ls == [] then []
    else
      var earlier, l := NewText(ls[..|ls| - 1]), ls[|ls| - 1];
      if l.kind in {' ', '+'} then earlier + [l.text] else earlier
  }

  /** How many lines of a kind a hunk has. */
  function CountKind(ls: seq<Line>, kind: char): nat {
    if ls == [] then 0 else CountKind(ls[..|ls| - 1], kind) + if ls[|ls| - 1].kind == kind then 1 else 0
  }

  /** The old block replaced by the new one at a line; a block that would reach past the end
      of the file is cut there. */
  function ApplyAt(lines: seq<string>, h: Hunk, at: nat): seq<string> {
    var p := if at > |lines| then |lines| else at;
    var n := |OldText(h.lines)|;
    var end := if p + n > |lines| then |lines| else p + n;
    lines[..p] + NewText(h.lines) + lines[end..]
  }

  function ApplyAll(lines: seq<string>, hs: seq<Hunk>, at: seq<nat>): seq<string>
    requires |at| == |hs|
  {
    if hs == [] then lines
    else ApplyAt(ApplyAll(lines, hs[..|hs| - 1], at[..|at| - 1]), hs[|hs| - 1], at[|at| - 1])
  }

  /** The position rule of applyFileDiff: the placement, or line 0 of an empty file. */
  ghost predicate PlacedAt(lines: seq<string>, h: Hunk, at: nat) {
    var block := OldText(h.lines);
    Placement(lines, block, h.oldStart as int - 1, at) || (lines == [] && block != [] && at == 0)
  }

  ghost predicate AllPlaced(lines: seq<string>, hs: seq<Hunk>, at: seq<nat>)
    requires |at| == |hs|
  {
    forall k :: 0 <= k < |hs| ==> PlacedAt(ApplyAll(lines, hs[..k], at[..k]), hs[k], at[k])
  }

  datatype Outcome = Patched(lines: seq<string>) | NotFound(hunk: nat)

  /** applyFileDiff: every hunk goes where the search puts it in the lines the hunks before
      it left. It fails exactly at the first hunk whose old block is nowhere in a non-empty
      file, not even up to white space. */
  method ApplyFileDiff(existing: seq<string>, hs: seq<Hunk>) returns (r: Outcome, ghost at: seq<nat>)
    ensures ResultsFrom(existing, hs, at, r)
    ensures exists positions: seq<nat> :: ResultsFrom(existing, hs, positions, r)
  {
    var lines := existing;
    at := [];
    for k := 0 to |hs|
      invariant |at| == k && AllPlaced(existing, hs[..k], at)
      invariant lines == ApplyAll(existing, hs[..k], at)
    {
      var after, p := ApplyHunk(lines, hs[k]);
      if after.None? {
        r := NotFound(k);
        assert ResultsFrom(existing, hs, at, r);
        return;
      }
      PlacedMore(existing, hs, at, k, p);
      lines := after.value;
      at := at + [p];
    }
    r := Patched(lines);
    assert ResultsFrom(existing, hs, at, r);
  }

  /** The result of a file diff whose hunks before the failing one, or all, are placed at these
      lines. */
  ghost predicate ResultsFrom(existing: seq<string>, hs: seq<Hunk>, at: seq<nat>, r: Outcome) {
    && |at| <= |hs| && AllPlaced(existing, hs[..|at|], at)
    && var lines := ApplyAll(existing, hs[..|at|], at);
       match r
       case Patched(result) => |at| == |hs| && result == lines
       case NotFound(k) => k == |at| < |hs| && NowhereIn(lines, OldText(hs[k].lines))
  }

  ghost predicate NowhereIn(lines: seq<string>, block: seq<string>) {
    lines != [] && block != [] && !Occurs(lines, block, true)
  }

  lemma {:induction false} PlacedUnique(lines: seq<string>, h: Hunk, at: nat, at': nat)
    requires PlacedAt(lines, h, at) && PlacedAt(lines, h, at')
    ensures at == at' && !NowhereIn(lines, OldText(h.lines))
  {
    var block, target := OldText(h.lines), h.oldStart as int - 1;
    if Occurs(lines, block, false) && lines != [] {
      ExactIsTrimmed(lines, block);
    }
    if Placement(lines, block, target, at) && Placement(lines, block, target, at') {
      PlacementUnique(lines, block, target, at, at');
    }
  }

  lemma {:induction false} SamePositions(existing: seq<string>, hs: seq<Hunk>, at: seq<nat>, at': seq<nat>, k: nat)
    requires |at| <= |hs| && |at'| <= |hs| && k <= |at| && k <= |at'|
    requires AllPlaced(existing, hs[..|at|], at) && AllPlaced(existing, hs[..|at'|], at')
    ensures at[..k] == at'[..k]
  {
    if at[..k] != at'[..k] {
      var i := FirstDifference(at, at', k);
      SameNext(existing, hs, at, at', i);
    }
  }

  lemma {:induction false} FirstDifference(a: seq<nat>, b: seq<nat>, k: nat) returns (i: nat)
    requires k <= |a| && k <= |b| && a[..k] != b[..k]
    ensures i < k && a[..i] == b[..i] && a[i] != b[i]
  {
    assert a[..k] == a[..k - 1] + [a[k - 1]] && b[..k] == b[..k - 1] + [b[k - 1]];
    if a[..k - 1] != b[..k - 1] {
      i := FirstDifference(a, b, k - 1);
    } else {
      i := k - 1;
    }
  }

  lemma {:induction false} SameNext(existing: seq<string>, hs: seq<Hunk>, at: seq<nat>, at': seq<nat>, k: nat)
    requires |at| <= |hs| && |at'| <= |hs| && k < |at| && k < |at'| && at[..k] == at'[..k]
    requires AllPlaced(existing, hs[..|at|], at) && AllPlaced(existing, hs[..|at'|], at')
    ensures at[k] == at'[k]
  {
    PlacedIn(existing, hs, at, k);
    PlacedIn(existing, hs, at', k);
    PlacedUnique(ApplyAll(existing, hs[..k], at[..k]), hs[k], at[k], at'[k]);
  }

  lemma {:induction false} PlacedIn(existing: seq<string>, hs: seq<Hunk>, at: seq<nat>, k: nat)
    requires k < |at| <= |hs| && AllPlaced(existing, hs[..|at|], at)
    ensures PlacedAt(ApplyAll(existing, hs[..k], at[..k]), hs[k], at[k])
  {
    assert hs[..|at|][..k] == hs[..k];
  }

  /** A list of positions cannot end at a hunk that another list gets past. */
  lemma {:induction false} NotShorter(existing: seq<string>, hs: seq<Hunk>, at: seq<nat>, r: Outcome, at': seq<nat>, r': Outcome)
    requires ResultsFrom(existing, hs, at, r) && ResultsFrom(existing, hs, at', r')
    ensures |at'| <= |at|
  {
    var n := |at|;
    if n < |at'| {
      SamePositions(existing, hs, at, at', n);
      PlacedIn(existing, hs, at', n);
      assert at[..n] == at;
      PlacedUnique(ApplyAll(existing, hs[..n], at), hs[n], at'[n], at'[n]);
    }
  }

  /** The lines and the hunks determine where every hunk goes and what comes out. */
  lemma {:induction false} ResultUnique(existing: seq<string>, hs: seq<Hunk>, at: seq<nat>, r: Outcome, at': seq<nat>, r': Outcome)
    requires ResultsFrom(existing, hs, at, r) && ResultsFrom(existing, hs, at', r')
    ensures at == at' && r == r'
  {
    NotShorter(existing, hs, at, r, at', r');
    NotShorter(existing, hs, at', r', at, r);
    SamePositions(existing, hs, at, at', |at|);
    assert at[..|at|] == at && at'[..|at|] == at';
  }

  /** The loop body of applyFileDiff. */
  method ApplyHunk(lines: seq<string>, h: Hunk) returns (after: Option<seq<string>>, ghost at: nat)
    ensures after.Some? ==> PlacedAt(lines, h, at) && after.value == ApplyAt(lines, h, at)
    ensures after.None? <==> lines != [] && OldText(h.lines) != [] && !Occurs(lines, OldText(h.lines), true)
  {
    var block, added := Blocks(h.lines);
    var p := FindHunkOffset(lines, block, h.oldStart as int - 1);
    if p == -1 {
      if |lines| == 0 || |block| == 0 {
        p := |lines|;
      } else {
        return None, 0;
      }
    }
    var n := |block|;
    if p + n > |lines| {
      n := |lines| - p;
    }
    after, at := Some(lines[..p] + added + lines[p + n..]), p;
  }

  method Blocks(ls: seq<Line>) returns (block: seq<string>, added: seq<string>)
    ensures block == OldText(ls) && added == NewText(ls)
  {
    block, added := [], [];
    for i := 0 to |ls|
      invariant block == OldText(ls[..i]) && added == NewText(ls[..i])
    {
      assert ls[..i + 1][..i] == ls[..i];
      if ls[i].kind == ' ' || ls[i].kind == '-' {
        block := block + [ls[i].text];
      }
      if ls[i].kind == ' ' || ls[i].kind == '+' {
        added := added + [ls[i].text];
      }
    }
    assert ls[..|ls|] == ls;
  }

  lemma {:induction false} PlacedMore(lines: seq<string>, hs: seq<Hunk>, at: seq<nat>, k: nat, p: nat)
    requires k == |at| < |hs| && AllPlaced(lines, hs[..k], at)
    requires PlacedAt(ApplyAll(lines, hs[..k], at), hs[k], p)
    ensures AllPlaced(lines, hs[..k + 1], at + [p])
    ensures ApplyAll(lines, hs[..k + 1], at + [p]) == ApplyAt(ApplyAll(lines, hs[..k], at), hs[k], p)
  {
    var hs', at' := hs[..k + 1], at + [p];
    assert hs'[..k] == hs[..k] && at'[..k] == at;
    forall j | 0 <= j < |hs'| ensures PlacedAt(ApplyAll(lines, hs'[..j], at'[..j]), hs'[j], at'[j]) {
      if j < k {
        assert hs'[..j] == hs[..k][..j] && at'[..j] == at[..j];
      }
    }
  }

  // ----- undoing -----

  function InverseLines(ls: seq<Line>): seq<Line> {
    if ls == [] then []
    else
      var l := ls[|ls| - 1];
      InverseLines(ls[..|ls| - 1]) + [Line(if l.kind == '-' then '+' else if l.kind == '+' then '-' else l.kind, l.text)]
  }

  function Inverse(h: Hunk): Hunk {
    Hunk(h.newStart, h.newCount, h.oldStart, h.oldCount, InverseLines(h.lines))
  }

  lemma {:induction false} InverseSwapsBlocks(ls: seq<Line>)
    ensures OldText(InverseLines(ls)) == NewText(ls) && NewText(InverseLines(ls)) == OldText(ls)
  {
    if ls != [] {
      InverseSwapsBlocks(ls[..|ls| - 1]);
      assert InverseLines(ls)[..|InverseLines(ls)| - 1] == InverseLines(ls[..|ls| - 1]);
    }
  }

  /** The inverse hunks, last one first, each at the line its hunk was applied at. */
  function UndoAll(lines: seq<string>, hs: seq<Hunk>, at: seq<nat>): seq<string>
    requires |at| == |hs|
    decreases |hs|
  {
    if hs == [] then lines
    else UndoAll(ApplyAt(lines, Inverse(hs[|hs| - 1]), at[|at| - 1]), hs[..|hs| - 1], at[..|at| - 1])
  }

  ghost predicate AllExact(lines: seq<string>, hs: seq<Hunk>, at: seq<nat>)
    requires |at| == |hs|
  {
    forall k :: 0 <= k < |hs| ==> MatchAt(ApplyAll(lines, hs[..k], at[..k]), OldText(hs[k].lines), at[k], false)
  }

  lemma {:induction false} UndoOne(lines: seq<string>, h: Hunk, at: nat)
    requires MatchAt(lines, OldText(h.lines), at, false)
    ensures MatchAt(ApplyAt(lines, h, at), OldText(Inverse(h).lines), at, false)
    ensures ApplyAt(ApplyAt(lines, h, at), Inverse(h), at) == lines
  {
    InverseSwapsBlocks(h.lines);
    var block, added := OldText(h.lines), NewText(h.lines);
    var pre, post := lines[..at], lines[at + |block|..];
    MatchSplits(lines, block, at);
    AppliedInside(pre, h, post);
    AppliedInside(pre, Inverse(h), post);
    MatchesInside(pre, added, post);
  }

  lemma {:induction false} MatchSplits(lines: seq<string>, block: seq<string>, at: nat)
    requires MatchAt(lines, block, at, false)
    ensures at + |block| <= |lines| && lines == lines[..at] + block + lines[at + |block|..]
  {
    assert lines[at..at + |block|] == block;
    assert lines == lines[..at] + lines[at..at + |block|] + lines[at + |block|..];
  }

  lemma {:induction false} MatchesInside(pre: seq<string>, block: seq<string>, post: seq<string>)
    ensures MatchAt(pre + block + post, block, |pre|, false)
  {
  }

  lemma {:induction false} AppliedInside(pre: seq<string>, h: Hunk, post: seq<string>)
    ensures ApplyAt(pre + OldText(h.lines) + post, h, |pre|) == pre + NewText(h.lines) + post
  {
    CutMiddle(pre, OldText(h.lines), post);
  }

  lemma {:induction false} CutMiddle(pre: seq<string>, block: seq<string>, post: seq<string>)
    ensures (pre + block + post)[..|pre|] == pre && (pre + block + post)[|pre| + |block|..] == post
  {
  }

  /** If every hunk matched exactly, the inverse hunks applied in reverse order at the same
      lines match exactly too and restore the original file. */
  lemma {:induction false} UndoRestores(lines: seq<string>, hs: seq<Hunk>, at: seq<nat>)
    requires |at| == |hs| && AllExact(lines, hs, at)
    ensures UndoAll(ApplyAll(lines, hs, at), hs, at) == lines
    decreases |hs|
  {
    if hs != [] {
      var n := |hs| - 1;
      UndoOne(ApplyAll(lines, hs[..n], at[..n]), hs[n], at[n]);
      ExactPrefix(lines, hs, at, n);
      UndoRestores(lines, hs[..n], at[..n]);
    }
  }

  lemma {:induction false} ExactPrefix(lines: seq<string>, hs: seq<Hunk>, at: seq<nat>, n: nat)
    requires |at| == |hs| && n <= |hs| && AllExact(lines, hs, at)
    ensures AllExact(lines, hs[..n], at[..n])
  {
    forall k | 0 <= k < n
      ensures MatchAt(ApplyAll(lines, hs[..n][..k], at[..n][..k]), OldText(hs[..n][k].lines), at[..n][k], false)
    {
      assert hs[..n][..k] == hs[..k] && at[..n][..k] == at[..k];
    }
  }

  lemma {:induction false} BlockSizes(ls: seq<Line>)
    ensures |OldText(ls)| == CountKind(ls, ' ') + CountKind(ls, '-')
    ensures |NewText(ls)| == CountKind(ls, ' ') + CountKind(ls, '+')
  {
    if ls != [] {
      BlockSizes(ls[..|ls| - 1]);
    }
  }

  /** A matched hunk changes the number of lines by its additions minus its deletions and
      leaves every line before and after its block as it was. */
  lemma {:induction false} MatchedHunkIsLocal(lines: seq<string>, h: Hunk, at: nat, trimmed: bool)
    requires MatchAt(lines, OldText(h.lines), at, trimmed)
    ensures var n := |OldText(h.lines)|;
            var r := ApplyAt(lines, h, at);
            && |r| == |lines| + CountKind(h.lines, '+') - CountKind(h.lines, '-')
            && r[..at] == lines[..at]
            && r[at..at + |NewText(h.lines)|] == NewText(h.lines)
            && r[at + |NewText(h.lines)|..] == lines[at + n..]
  {
    BlockSizes(h.lines);
  }

  /** Where the lines of a hunk come from and go to: a context or deleted line is matched against
      the file at its place in the old block, a context or added line stands in the result at its
      place in the new block. */
  lemma {:induction false} HunkLinesPlaced(lines: seq<string>, h: Hunk, at: nat, trimmed: bool, i: nat)
    requires MatchAt(lines, OldText(h.lines), at, trimmed) && i < |h.lines|
    ensures var l, seen := h.lines[i], h.lines[..i];
            var from, to := at + CountKind(seen, ' ') + CountKind(seen, '-'), at + CountKind(seen, ' ') + CountKind(seen, '+');
            && (l.kind == ' ' || l.kind == '-' ==> from < |lines| && if trimmed then Trim(lines[from]) == Trim(l.text) else lines[from] == l.text)
            && (l.kind == ' ' || l.kind == '+' ==> to < |ApplyAt(lines, h, at)| && ApplyAt(lines, h, at)[to] == l.text)
  {
    BlockSizes(h.lines[..i]);
    BlockHolds(h.lines, i);
    MatchedHunkIsLocal(lines, h, at, trimmed);
    var r, added, k := ApplyAt(lines, h, at), NewText(h.lines), |NewText(h.lines[..i])|;
    if k < |added| {
      assert r[at + k] == r[at..at + |added|][k];
    }
  }

  lemma {:induction false} BlockHolds(ls: seq<Line>, i: nat)
    requires i < |ls|
    ensures ls[i].kind == ' ' || ls[i].kind == '-' ==> |OldText(ls[..i])| < |OldText(ls)| && OldText(ls)[|OldText(ls[..i])|] == ls[i].text
    ensures ls[i].kind == ' ' || ls[i].kind == '+' ==> |NewText(ls[..i])| < |NewText(ls)| && NewText(ls)[|NewText(ls[..i])|] == ls[i].text
  {
    var n := |ls| - 1;
    if i < n {
      BlockHolds(ls[..n], i);
      assert ls[..n][..i] == ls[..i];
    }
  }
}
