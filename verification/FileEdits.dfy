/** ApplyFileEdits: replacement chunks applied through a cascade of ever more tolerant
    matchers. Whatever matcher wins, one edit replaces one region of the text. */
module FileEdits {
  import opened Text

  datatype Edit = Edit(startLine: int, endLine: int, target: string, replacement: string)

  // ----- regions of the text -----

  /** after is before with the occurrence of `from` at position `at` replaced by `to`. */
  predicate Replaced(before: string, after: string, at: nat, from: string, to: string) {
    OccursAt(before, from, at) && after == before[..at] + to + before[at + |from|..]
  }

  /** The text before line s and after line e (exclusive), separators included. */
  function TextBefore(lines: seq<string>, s: nat): string
    requires s <= |lines|
  {
    if s == 0 then "" else Join(lines[..s]) + "\n"
  }

  function TextAfter(lines: seq<string>, e: nat): string
    requires e <= |lines|
  {
    if e == |lines| then "" else "\n" + Join(lines[e..])
  }

  lemma {:induction false} SpliceText(lines: seq<string>, s: nat, e: nat, block: seq<string>)
    requires s < e <= |lines| && block != []
    ensures Join(lines[..s] + block + lines[e..]) == TextBefore(lines, s) + Join(block) + TextAfter(lines, e)
  {
    JoinAfter(block, lines, e);
    JoinBefore(lines, s, block + lines[e..]);
    Associate(lines[..s], block, lines[e..]);
    Associate(TextBefore(lines, s), Join(block), TextAfter(lines, e));
  }

  lemma {:induction false} JoinAfter(block: seq<string>, lines: seq<string>, e: nat)
    requires e <= |lines| && block != []
    ensures Join(block + lines[e..]) == Join(block) + TextAfter(lines, e)
  {
    if e == |lines| {
      assert block + lines[e..] == block;
    } else {
      JoinConcat(block, lines[e..]);
      assert Join(block) + "\n" + Join(lines[e..]) == Join(block) + ("\n" + Join(lines[e..]));
    }
  }

  lemma {:induction false} JoinBefore(lines: seq<string>, s: nat, rest: seq<string>)
    requires s <= |lines| && rest != []
    ensures Join(lines[..s] + rest) == TextBefore(lines, s) + Join(rest)
  {
    if s == 0 {
      assert lines[..s] + rest == rest;
    } else {
      JoinConcat(lines[..s], rest);
    }
  }

  lemma {:induction false} InnerReplacement(pre: string, slice: string, post: string, i: nat, from: string, to: string)
    requires OccursAt(slice, from, i)
    ensures Replaced(pre + slice + post, pre + (slice[..i] + to + slice[i + |from|..]) + post, |pre| + i, from, to)
  {
    var text := pre + slice + post;
    assert text[|pre| + i..|pre| + i + |from|] == slice[i..i + |from|];
    assert text[..|pre| + i] == pre + slice[..i];
    assert text[|pre| + i + |from|..] == slice[i + |from|..] + post;
  }

  lemma {:induction false} WholeText(lines: seq<string>, s: nat, e: nat)
    requires s < e <= |lines|
    ensures Join(lines) == TextBefore(lines, s) + Join(lines[s..e]) + TextAfter(lines, e)
  {
    SpliceText(lines, s, e, lines[s..e]);
    Rejoined(lines, s, e);
  }

  lemma {:induction false} Rejoined(lines: seq<string>, s: nat, e: nat)
    requires s < e <= |lines|
    ensures lines[..s] + lines[s..e] + lines[e..] == lines && lines[s..e] != []
  {
    assert lines[..s] + lines[s..e] == lines[..e];
  }

  /** Replacing whole lines replaces exactly their joined text. */
  lemma {:induction false} LineSpliceIsReplacement(lines: seq<string>, s: nat, e: nat, block: seq<string>)
    requires s < e <= |lines| && block != []
    ensures Replaced(Join(lines), Join(lines[..s] + block + lines[e..]), |TextBefore(lines, s)|, Join(lines[s..e]), Join(block))
  {
    SpliceText(lines, s, e, block);
    WholeText(lines, s, e);
    WholeReplacement(TextBefore(lines, s), Join(lines[s..e]), TextAfter(lines, e), Join(block));
  }

  lemma {:induction false} WholeReplacement(pre: string, from: string, post: string, to: string)
    ensures Replaced(pre + from + post, pre + to + post, |pre|, from, to)
  {
    var text := pre + from + post;
    assert text[|pre|..|pre| + |from|] == from;
    assert text[..|pre|] == pre && text[|pre| + |from|..] == post;
  }

  lemma {:induction false} FirstReplacement(pre: string, slice: string, post: string, from: string, to: string) returns (at: nat)
    requires Contains(slice, from)
    ensures at == |pre| + IndexFrom(slice, from, 0)
    ensures Replaced(pre + slice + post, pre + ReplaceFirst(slice, from, to) + post, at, from, to)
  {
    var i := ReplaceFirstAt(slice, from, to);
    InnerReplacement(pre, slice, post, i, from, to);
    at := |pre| + i;
  }

  /** The lines after the first occurrence of `from` in lines s to e was replaced. */
  function ReplacedInLines(lines: seq<string>, s: nat, e: nat, from: string, to: string): (r: seq<string>)
    requires s < e <= |lines|
    ensures r != []
  {
    lines[..s] + Split(ReplaceFirst(Join(lines[s..e]), from, to)) + lines[e..]
  }

  /** A replacement inside a slice of lines is a replacement inside the whole text. */
  lemma {:induction false} SliceReplacement(lines: seq<string>, s: nat, e: nat, from: string, to: string) returns (at: nat)
    requires s < e <= |lines| && Contains(Join(lines[s..e]), from)
    ensures FoundInLines(lines, s, e, from, at)
    ensures Replaced(Join(lines), Join(ReplacedInLines(lines, s, e, from, to)), at, from, to)
  {
    var pre, slice, post := TextBefore(lines, s), Join(lines[s..e]), TextAfter(lines, e);
    SplicedReplacement(lines, s, e, from, to);
    WholeText(lines, s, e);
    at := FirstReplacement(pre, slice, post, from, to);
  }

  lemma {:induction false} SplicedReplacement(lines: seq<string>, s: nat, e: nat, from: string, to: string)
    requires s < e <= |lines|
    ensures Join(ReplacedInLines(lines, s, e, from, to))
         == TextBefore(lines, s) + ReplaceFirst(Join(lines[s..e]), from, to) + TextAfter(lines, e)
  {
    var changed := ReplaceFirst(Join(lines[s..e]), from, to);
    SpliceText(lines, s, e, Split(changed));
    JoinSplit(changed);
  }

  // ----- line-block matchers -----

  /** The block matches at line s when lines are compared through `trim`. */
  predicate BlockAt(trim: string -> string, file: seq<string>, block: seq<string>, s: int) {
    0 <= s && s + |block| <= |file| && forall i :: 0 <= i < |block| ==> trim(file[s + i]) == trim(block[i])
  }

  /** s is the only line where the block matches up to surrounding white space. */
  ghost predicate UniqueBlock(trim: string -> string, file: seq<string>, block: seq<string>, s: int) {
    block != [] && BlockAt(trim, file, block, s) && forall i :: BlockAt(trim, file, block, i) ==> i == s
  }

  ghost predicate NoUniqueBlock(trim: string -> string, file: seq<string>, block: seq<string>) { forall s :: !UniqueBlock(trim, file, block, s) }

  method MatchTrimmedLines(trim: string -> string, file: seq<string>, block: seq<string>) returns (s: int, ok: bool)
    ensures ok ==> UniqueBlock(trim, file, block, s) && 0 <= s && 0 < |block| && s + |block| <= |file|
    ensures !ok ==> NoUniqueBlock(trim, file, block)
  {
    if |block| == 0 || |file| < |block| {
      return -1, false;
    }
    s := -1;
    var count := 0;
    var i := 0;
    while i <= |file| - |block|
      invariant 0 <= i <= |file| - |block| + 1
      invariant count == 0 ==> forall k :: 0 <= k < i ==> !BlockAt(trim, file, block, k)
      invariant count >= 1 ==> 0 <= s < i && BlockAt(trim, file, block, s)
      invariant count == 1 ==> forall k :: 0 <= k < i && BlockAt(trim, file, block, k) ==> k == s
      invariant count >= 2 ==> exists k :: 0 <= k < s && BlockAt(trim, file, block, k)
      invariant count >= 0
    {
      if BlockAt(trim, file, block, i) {
        count := count + 1;
        s := i;
      }
      i := i + 1;
    }
    ok := count == 1;
    if !ok {
      s := -1;
    }
  }

  /** The non-blank lines, each with its index, trimmed. */
  function Solid(trim: string -> string, lines: seq<string>): seq<(nat, string)> {
    if lines == [] then []
    else
      var n := |lines| - 1;
      var earlier := Solid(trim, lines[..n]);
      if trim(lines[n]) == "" then earlier else earlier + [(n, trim(lines[n]))]
  }

  function SolidText(trim: string -> string, lines: seq<string>): seq<string> {
    if lines == [] then []
    else
      var n := |lines| - 1;
      var earlier := SolidText(trim, lines[..n]);
      if trim(lines[n]) == "" then earlier else earlier + [trim(lines[n])]
  }

  /** Two lists of lines that differ only in blank lines and in white space around lines. */
  ghost predicate SameUpToBlanks(trim: string -> string, a: seq<string>, b: seq<string>)
    decreases |a| + |b|
  {
    if a != [] && trim(a[|a| - 1]) == "" then SameUpToBlanks(trim, a[..|a| - 1], b)
    else if b != [] && trim(b[|b| - 1]) == "" then SameUpToBlanks(trim, a, b[..|b| - 1])
    else if a == [] || b == [] then a == b
    else trim(a[|a| - 1]) == trim(b[|b| - 1]) && SameUpToBlanks(trim, a[..|a| - 1], b[..|b| - 1])
  }

  /** Comparing the non-blank texts is comparing up to blank lines and surrounding white space. */
  lemma {:induction false} SolidTextMeans(trim: string -> string, a: seq<string>, b: seq<string>)
    ensures SolidText(trim, a) == SolidText(trim, b) <==> SameUpToBlanks(trim, a, b)
    decreases |a| + |b|
  {
    if a != [] && trim(a[|a| - 1]) == "" {
      SolidTextMeans(trim, a[..|a| - 1], b);
    } else if b != [] && trim(b[|b| - 1]) == "" {
      SolidTextMeans(trim, a, b[..|b| - 1]);
    } else if a != [] && b != [] {
      SolidTextMeans(trim, a[..|a| - 1], b[..|b| - 1]);
      SameEnds(SolidText(trim, a[..|a| - 1]), trim(a[|a| - 1]), SolidText(trim, b[..|b| - 1]), trim(b[|b| - 1]));
    }
  }

  lemma {:induction false} SameEnds(a: seq<string>, x: string, b: seq<string>, y: string)
    ensures a + [x] == b + [y] <==> a == b && x == y
  {
    if a + [x] == b + [y] {
      assert |a| == |b| && (a + [x])[|a|] == x && (b + [y])[|b|] == y;
      assert a == (a + [x])[..|a|] && b == (b + [y])[..|b|];
    }
  }

  /** The block of lines s..e starts and ends with non-blank lines and has the same non-blank
      lines as the target, up to surrounding white space. */
  ghost predicate LooseMatch(trim: string -> string, file: seq<string>, target: seq<string>, s: int, e: int) {
    && 0 <= s <= e < |file| && trim(file[s]) != "" && trim(file[e]) != ""
    && SolidText(trim, file[s..e + 1]) == SolidText(trim, target)
  }

  ghost predicate UniqueLoose(trim: string -> string, file: seq<string>, target: seq<string>, s: int, e: int) {
    LooseMatch(trim, file, target, s, e) && forall s', e' :: LooseMatch(trim, file, target, s', e') ==> s' == s && e' == e
  }

  ghost predicate NoUniqueLoose(trim: string -> string, file: seq<string>, target: seq<string>) { forall s, e :: !UniqueLoose(trim, file, target, s, e) }

  lemma {:induction false} SolidTextConcat(trim: string -> string, a: seq<string>, b: seq<string>)
    ensures SolidText(trim, a + b) == SolidText(trim, a) + SolidText(trim, b)
  {
    if b == [] {
      assert a + b == a;
    } else {
      assert (a + b)[..|a + b| - 1] == a + b[..|b| - 1];
      SolidTextConcat(trim, a, b[..|b| - 1]);
    }
  }

  lemma {:induction false} SolidIsIndexed(trim: string -> string, file: seq<string>)
    ensures |Solid(trim, file)| == |SolidText(trim, file)|
    ensures forall k :: 0 <= k < |Solid(trim, file)| ==>
              && Solid(trim, file)[k].1 == SolidText(trim, file)[k]
              && Solid(trim, file)[k].0 < |file| && trim(file[Solid(trim, file)[k].0]) != ""
              && |SolidText(trim, file[..Solid(trim, file)[k].0])| == k
  {
    if file != [] {
      var n := |file| - 1;
      SolidIsIndexed(trim, file[..n]);
      forall k | 0 <= k < |Solid(trim, file[..n])| ensures file[..n][..Solid(trim, file)[k].0] == file[..Solid(trim, file)[k].0] {}
    }
  }

  /** A non-blank line is the entry of the table whose index is the number of non-blank lines
      before it. */
  lemma {:induction false} SolidRank(trim: string -> string, file: seq<string>, p: nat)
    requires p < |file| && trim(file[p]) != ""
    ensures |SolidText(trim, file[..p])| < |Solid(trim, file)| && Solid(trim, file)[|SolidText(trim, file[..p])|].0 == p
  {
    var n := |file| - 1;
    SolidIsIndexed(trim, file[..n]);
    if p < n {
      SolidRank(trim, file[..n], p);
      assert file[..n][..p] == file[..p];
    }
  }

  lemma {:induction false} SolidSlice(trim: string -> string, file: seq<string>, a: nat, b: nat)
    requires a <= b <= |file|
    ensures |SolidText(trim, file[..a])| <= |SolidText(trim, file[..b])| <= |SolidText(trim, file)|
    ensures SolidText(trim, file[a..b]) == SolidText(trim, file)[|SolidText(trim, file[..a])|..|SolidText(trim, file[..b])|]
  {
    assert file == file[..b] + file[b..];
    SolidTextConcat(trim, file[..b], file[b..]);
    assert file[..b] == file[..a] + file[a..b];
    SolidTextConcat(trim, file[..a], file[a..b]);
  }

  lemma {:induction false} SolidAt(trim: string -> string, file: seq<string>, k: nat) returns (p: nat)
    requires k < |Solid(trim, file)|
    ensures p == Solid(trim, file)[k].0 && p < |file| && trim(file[p]) != ""
    ensures |SolidText(trim, file[..p])| == k && |SolidText(trim, file[..p + 1])| == k + 1
  {
    SolidIsIndexed(trim, file);
    p := Solid(trim, file)[k].0;
    SolidAfter(trim, file, p);
  }

  lemma {:induction false} SolidAfter(trim: string -> string, file: seq<string>, p: nat)
    requires p < |file| && trim(file[p]) != ""
    ensures |SolidText(trim, file[..p + 1])| == |SolidText(trim, file[..p])| + 1
  {
    assert file[..p + 1][..p] == file[..p];
  }

  /** Lines s..e, given how many non-blank lines precede each end. */
  lemma {:induction false} RankedSlice(trim: string -> string, file: seq<string>, s: nat, e: nat, i: nat, n: nat)
    requires s < |file| && e < |file| && n > 0
    requires |SolidText(trim, file[..s])| == i && |SolidText(trim, file[..e + 1])| == i + n
    ensures s <= e && i + n <= |SolidText(trim, file)|
    ensures SolidText(trim, file[s..e + 1]) == SolidText(trim, file)[i..i + n]
  {
    RanksOrder(trim, file, s, e);
    SolidSlice(trim, file, s, e + 1);
  }

  lemma {:induction false} RanksOrder(trim: string -> string, file: seq<string>, s: nat, e: nat)
    requires s < |file| && e < |file| && |SolidText(trim, file[..s])| < |SolidText(trim, file[..e + 1])|
    ensures s <= e
  {
    if e < s {
      SolidSlice(trim, file, e + 1, s);
    }
  }

  /** The target's non-blank texts are table entries i, i + 1, and so on. */
  ghost predicate TableMatch(trim: string -> string, file: seq<string>, target: seq<string>, i: int) {
    var n := |SolidText(trim, target)|;
    && n > 0 && 0 <= i && i + n <= |Solid(trim, file)|
    && forall j :: 0 <= j < n ==> Solid(trim, file)[i + j].1 == SolidText(trim, target)[j]
  }

  lemma {:induction false} TextsAgree(trim: string -> string, file: seq<string>, target: seq<string>, i: nat)
    requires SolidText(trim, target) != [] && i + |SolidText(trim, target)| <= |Solid(trim, file)|
    ensures |Solid(trim, file)| == |SolidText(trim, file)|
    ensures TableMatch(trim, file, target, i) <==> SolidText(trim, file)[i..i + |SolidText(trim, target)|] == SolidText(trim, target)
  {
    SolidIsIndexed(trim, file);
    var n := |SolidText(trim, target)|;
    var run := SolidText(trim, file)[i..i + n];
    forall j | 0 <= j < n ensures run[j] == Solid(trim, file)[i + j].1 {}
  }

  lemma {:induction false} TableMatchIsLooseMatch(trim: string -> string, file: seq<string>, target: seq<string>, i: nat) returns (s: nat, e: nat)
    requires TableMatch(trim, file, target, i)
    ensures LooseMatch(trim, file, target, s, e)
    ensures s == Solid(trim, file)[i].0 && e == Solid(trim, file)[i + |SolidText(trim, target)| - 1].0
  {
    TextsAgree(trim, file, target, i);
    s, e := RunIsLooseMatch(trim, file, target, i);
  }

  lemma {:induction false} RunIsLooseMatch(trim: string -> string, file: seq<string>, target: seq<string>, i: nat) returns (s: nat, e: nat)
    requires SolidText(trim, target) != [] && i + |SolidText(trim, target)| <= |Solid(trim, file)| == |SolidText(trim, file)|
    requires SolidText(trim, file)[i..i + |SolidText(trim, target)|] == SolidText(trim, target)
    ensures LooseMatch(trim, file, target, s, e)
    ensures s == Solid(trim, file)[i].0 && e == Solid(trim, file)[i + |SolidText(trim, target)| - 1].0
  {
    s := SolidAt(trim, file, i);
    e := SolidAt(trim, file, i + |SolidText(trim, target)| - 1);
    LooseFromRanks(trim, file, target, s, e, i);
  }

  lemma {:induction false} LooseFromRanks(trim: string -> string, file: seq<string>, target: seq<string>, s: nat, e: nat, i: nat)
    requires s < |file| && e < |file| && trim(file[s]) != "" && trim(file[e]) != ""
    requires var n := |SolidText(trim, target)|;
             n > 0 && i + n <= |SolidText(trim, file)| && SolidText(trim, file)[i..i + n] == SolidText(trim, target)
    requires |SolidText(trim, file[..s])| == i && |SolidText(trim, file[..e + 1])| == i + |SolidText(trim, target)|
    ensures LooseMatch(trim, file, target, s, e)
  {
    RankedSlice(trim, file, s, e, i, |SolidText(trim, target)|);
  }

  /** Conversely, a loose match is a table match at the rank of its first line, and the table
      gives its bounds back. */
  lemma {:induction false} LooseMatchIsTableMatch(trim: string -> string, file: seq<string>, target: seq<string>, s: int, e: int) returns (i: nat)
    requires LooseMatch(trim, file, target, s, e)
    ensures TableMatch(trim, file, target, i)
    ensures Solid(trim, file)[i].0 == s && Solid(trim, file)[i + |SolidText(trim, target)| - 1].0 == e
  {
    i := |SolidText(trim, file[..s])|;
    var j := |SolidText(trim, file[..e])|;
    SolidRank(trim, file, s);
    SolidRank(trim, file, e);
    SolidAfter(trim, file, e);
    SolidSlice(trim, file, s, e);
    SolidSlice(trim, file, s, e + 1);
    assert |SolidText(trim, target)| == j + 1 - i;
    TextsAgree(trim, file, target, i);
  }

  method MatchNormalizedLines(trim: string -> string, file: seq<string>, target: seq<string>) returns (s: int, e: int, ok: bool)
    ensures ok ==> UniqueLoose(trim, file, target, s, e) && 0 <= s <= e < |file|
    ensures !ok ==> NoUniqueLoose(trim, file, target)
  {
    var wanted := SolidLines(trim, target);
    var solid := SolidTable(trim, file);
    s, e, ok := -1, -1, false;
    if |wanted| == 0 || |solid| < |wanted| {
      forall s', e' ensures !LooseMatch(trim, file, target, s', e') {
        if LooseMatch(trim, file, target, s', e') {
          var i := LooseMatchIsTableMatch(trim, file, target, s', e');
          assert false;
        }
      }
      return;
    }
    var count, at := UniqueRun(solid, wanted);
    if count == 1 {
      ghost var _, _ := TableMatchIsLooseMatch(trim, file, target, at);
      s, e, ok := solid[at].0, solid[at + |wanted| - 1].0, true;
      forall s', e' | LooseMatch(trim, file, target, s', e') ensures s' == s && e' == e {
        var i := LooseMatchIsTableMatch(trim, file, target, s', e');
        assert RunAt(solid, wanted, i);
      }
    } else {
      forall s', e' ensures !UniqueLoose(trim, file, target, s', e') {
        if UniqueLoose(trim, file, target, s', e') {
          var i := LooseMatchIsTableMatch(trim, file, target, s', e');
          assert RunAt(solid, wanted, i);
          var k :| RunAt(solid, wanted, k) && k != i;
          var _, _ := TableMatchIsLooseMatch(trim, file, target, k);
          var p := SolidAt(trim, file, i);
          var q := SolidAt(trim, file, k);
          assert false;
        }
      }
    }
  }

  predicate RunAt(solid: seq<(nat, string)>, wanted: seq<string>, i: int) {
    0 <= i && i + |wanted| <= |solid| && forall j :: 0 <= j < |wanted| ==> solid[i + j].1 == wanted[j]
  }

  /** The counting loop: the last run found and how many there are, up to more than one. */
  method UniqueRun(solid: seq<(nat, string)>, wanted: seq<string>) returns (count: nat, at: int)
    requires 0 < |wanted| <= |solid|
    ensures count == 0 ==> forall k :: !RunAt(solid, wanted, k)
    ensures count == 1 ==> RunAt(solid, wanted, at) && forall k :: RunAt(solid, wanted, k) ==> k == at
    ensures count >= 2 ==> exists j, k :: j != k && RunAt(solid, wanted, j) && RunAt(solid, wanted, k)
  {
    count, at := 0, -1;
    var i := 0;
    while i <= |solid| - |wanted|
      invariant 0 <= i <= |solid| - |wanted| + 1
      invariant count == 0 ==> forall k :: k < i ==> !RunAt(solid, wanted, k)
      invariant count >= 1 ==> at < i && RunAt(solid, wanted, at)
      invariant count == 1 ==> forall k :: k < i && RunAt(solid, wanted, k) ==> k == at
      invariant count >= 2 ==> exists k :: k < at && RunAt(solid, wanted, k)
    {
      if RunAt(solid, wanted, i) {
        count := count + 1;
        at := i;
      }
      i := i + 1;
    }
  }

  method SolidLines(trim: string -> string, lines: seq<string>) returns (r: seq<string>)
    ensures r == SolidText(trim, lines)
  {
    r := [];
    for i := 0 to |lines|
      invariant r == SolidText(trim, lines[..i])
    {
      assert lines[..i + 1][..i] == lines[..i];
      var t := trim(lines[i]);
      if t != "" {
        r := r + [t];
      }
    }
    assert lines[..|lines|] == lines;
  }

  method SolidTable(trim: string -> string, lines: seq<string>) returns (r: seq<(nat, string)>)
    ensures r == Solid(trim, lines)
  {
    r := [];
    for i := 0 to |lines|
      invariant r == Solid(trim, lines[..i])
    {
      assert lines[..i + 1][..i] == lines[..i];
      var t := trim(lines[i]);
      if t != "" {
        r := r + [(i, t)];
      }
    }
    assert lines[..|lines|] == lines;
  }

  // ----- re-indentation of a replaced block -----

  function IndentLength(s: string): nat {
    if s != "" && (s[0] == ' ' || s[0] == '\t') then 1 + IndentLength(s[1..]) else 0
  }

  lemma {:induction false} IndentWithin(s: string)
    ensures IndentLength(s) <= |s|
  {
    if s != "" { IndentWithin(s[1..]); }
  }

  /** extractLeadingWhitespace: a line of only spaces and tabs has no leading part. */
  function LeadingWhitespace(s: string): string {
    IndentWithin(s);
    if IndentLength(s) == |s| then "" else s[..IndentLength(s)]
  }

  function Indented(lead: string, lines: seq<string>): seq<string> {
    if lines == [] then []
    else
      var l := lines[|lines| - 1];
      Indented(lead, lines[..|lines| - 1]) + [if Trim(l) != "" then lead + l else l]
  }

  /** The replacement takes over the indentation of the first replaced line unless it brings
      its own. */
  function Reindented(first: string, lines: seq<string>): seq<string>
    requires lines != []
  {
    var lead := LeadingWhitespace(first);
    if lead != "" && IndentLength(lines[0]) == 0 then Indented(lead, lines) else lines
  }

  method Reindent(first: string, lines: seq<string>) returns (r: seq<string>)
    requires lines != []
    ensures r == Reindented(first, lines) && r != []
  {
    var lead := LeadingWhitespace(first);
    r := lines;
    if lead != "" && IndentLength(lines[0]) == 0 {
      r := [];
      for i := 0 to |lines|
        invariant r == Indented(lead, lines[..i]) && |r| == i
      {
        assert lines[..i + 1][..i] == lines[..i];
        r := r + [if Trim(lines[i]) != "" then lead + lines[i] else lines[i]];
      }
      assert lines[..|lines|] == lines;
    }
  }

  predicate Blank(c: char) { c == ' ' || c == '\t' }

  /** The first n characters of the line are its leading spaces and tabs, with more after them. */
  predicate LeadEnds(line: string, n: int) {
    0 <= n < |line| && !Blank(line[n]) && forall i :: 0 <= i < n ==> Blank(line[i])
  }

  /** The replacement goes in as it is: it starts with a space or tab of its own, or the first
      replaced line has no leading spaces or tabs, or nothing else. */
  ghost predicate KeepsOwnIndent(first: string, replacement: seq<string>) {
    (replacement != [] && replacement[0] != "" && Blank(replacement[0][0])) || forall n :: LeadEnds(first, n) ==> n == 0
  }

  /** The lines that go in for a replaced block. */
  ghost predicate InsertedAs(first: string, replacement: seq<string>, block: seq<string>) {
    && |block| == |replacement|
    && forall i :: 0 <= i < |block| ==>
         if Trim(replacement[i]) == "" || KeepsOwnIndent(first, replacement) then block[i] == replacement[i]
         else forall n :: LeadEnds(first, n) ==> block[i] == first[..n] + replacement[i]
  }

  lemma {:induction false} IndentLengthMeans(s: string)
    ensures IndentLength(s) <= |s| && forall i :: 0 <= i < IndentLength(s) ==> Blank(s[i])
    ensures IndentLength(s) < |s| ==> LeadEnds(s, IndentLength(s))
    ensures forall n :: LeadEnds(s, n) ==> n == IndentLength(s)
  {
    if s != "" && Blank(s[0]) {
      IndentLengthMeans(s[1..]);
      forall n | LeadEnds(s, n) ensures n == IndentLength(s) {
        assert n > 0;
        assert LeadEnds(s[1..], n - 1);
      }
    }
  }

  lemma {:induction false} IndentedAt(lead: string, lines: seq<string>, i: nat)
    requires i < |lines|
    ensures |Indented(lead, lines)| == |lines|
    ensures Indented(lead, lines)[i] == if Trim(lines[i]) != "" then lead + lines[i] else lines[i]
  {
    var n := |lines| - 1;
    if n > 0 {
      IndentedAt(lead, lines[..n], if i < n then i else 0);
    }
  }

  /** Re-indentation, line by line: the leading spaces and tabs of the first replaced line go in
      front of every line that is not blank, unless the replacement keeps its own. */
  lemma {:induction false} ReindentationMeans(first: string, replacement: seq<string>)
    requires replacement != []
    ensures InsertedAs(first, replacement, Reindented(first, replacement))
  {
    IndentLengthMeans(first);
    IndentLengthMeans(replacement[0]);
    var lead, block := LeadingWhitespace(first), Reindented(first, replacement);
    if lead != "" && IndentLength(replacement[0]) == 0 {
      assert LeadEnds(first, |lead|) && !KeepsOwnIndent(first, replacement);
      IndentedAt(lead, replacement, 0);
      forall i | 0 <= i < |block| ensures block[i] == if Trim(replacement[i]) == "" then replacement[i] else lead + replacement[i] {
        IndentedAt(lead, replacement, i);
      }
    } else {
      assert KeepsOwnIndent(first, replacement);
    }
  }

  lemma {:induction false} IndentedSingle(lead: string, lines: seq<string>)
    requires SingleLine(lead) && SingleLines(lines)
    ensures SingleLines(Indented(lead, lines))
  {
    if lines != [] {
      IndentedSingle(lead, lines[..|lines| - 1]);
    }
  }

  lemma {:induction false} ReindentedSingle(first: string, lines: seq<string>)
    requires lines != [] && SingleLine(first) && SingleLines(lines)
    ensures SingleLines(Reindented(first, lines))
  {
    IndentedSingle(LeadingWhitespace(first), lines);
  }

  lemma {:induction false} SplicedSingle(lines: seq<string>, s: nat, e: nat, block: seq<string>)
    requires s <= e <= |lines| && SingleLines(lines) && SingleLines(block)
    ensures SingleLines(lines[..s] + block + lines[e..])
  {
  }

  // ----- one edit -----

  /** The 1-based line range of an edit, brought inside the file. */
  function First(e: Edit): int { if e.startLine < 1 then 1 else e.startLine }

  function Last(e: Edit, n: nat): int { if e.endLine <= 0 || e.endLine > n then n else e.endLine }

  /** Line i, counted from 1, is in the range if the edit's limits, where given, allow it. */
  lemma {:induction false} RangeMeans(e: Edit, n: nat, i: int)
    ensures First(e) <= i <= Last(e, n) && i <= n <==> 1 <= i <= n && e.startLine <= i && (e.endLine <= 0 || i <= e.endLine)
  {
  }

  /** Line i, counted from 0, is in the window if it is at most 15 lines from the range. */
  lemma {:induction false} WindowMeans(e: Edit, n: nat, i: int)
    requires 0 < n && RangeOk(e, n)
    ensures WindowStart(e) <= i < WindowEnd(e, n) <==> 0 <= i < n && First(e) - 15 <= i + 1 <= Last(e, n) + 15
  {
  }

  /** The range widened by 15 lines on both sides, as 0-based half-open bounds. */
  function WindowStart(e: Edit): nat { if First(e) - 16 < 0 then 0 else First(e) - 16 }

  function WindowEnd(e: Edit, n: nat): nat
    requires 0 < n
  {
    if Last(e, n) + 15 > n then n else Last(e, n) + 15
  }

  ghost predicate RangeOk(e: Edit, n: nat) { First(e) <= Last(e, n) }

  /** Which matcher found the region. */
  datatype Stage = InRange | InWindow | OnlyOne | OnlyOneTrimmed
                 | BlockInWindow(offset: nat) | BlockInFile(line: nat) | LooseBlock(line: nat, last: nat)

  datatype Region = Region(stage: Stage, at: nat, from: string, to: string)

  ghost predicate FoundInLines(lines: seq<string>, s: nat, e: nat, target: string, at: nat)
    requires s < e <= |lines|
  {
    Contains(Join(lines[s..e]), target) && at == |TextBefore(lines, s)| + IndexFrom(Join(lines[s..e]), target, 0)
  }

  /** The region is what the matcher says it is: the first occurrence of the target in the
      searched lines, its only occurrence in the file up to overlaps (as is or trimmed), or the one block
      of lines that equals the target up to white space or blank lines. */
  ghost predicate Justified(lines: seq<string>, e: Edit, r: Region)
    requires lines != [] && RangeOk(e, |lines|)
  {
    var text := Join(lines);
    match r.stage
    case InRange =>
      r.from == e.target && r.to == e.replacement && FoundInLines(lines, First(e) - 1, Last(e, |lines|), e.target, r.at)
    case InWindow =>
      r.from == e.target && r.to == e.replacement && FoundInLines(lines, WindowStart(e), WindowEnd(e, |lines|), e.target, r.at)
    case OnlyOne =>
      && r.from == e.target != "" && r.to == e.replacement
      && CountFrom(text, r.from, 0) == 1 && r.at == IndexFrom(text, r.from, 0)
    case OnlyOneTrimmed =>
      && r.from == Trim(e.target) != "" && r.to == Trim(e.replacement)
      && CountFrom(text, r.from, 0) == 1 && r.at == IndexFrom(text, r.from, 0)
    case _ => BlockFound(Trim, lines, WindowStart(e), lines[WindowStart(e)..WindowEnd(e, |lines|)], Split(e.target), e.replacement, r)
  }

  /** What a block edit puts in, in terms of the file and the edit alone. */
  lemma {:induction false} BlockEditInserts(lines: seq<string>, s: nat, e: nat, replacement: string, r: Region)
    requires BlockReplaced(lines, s, e, replacement, r)
    ensures exists block :: r.to == Join(block) && InsertedAs(lines[s], Split(replacement), block)
  {
    ReindentationMeans(lines[s], Split(replacement));
  }

  ghost predicate BlockReplaced(lines: seq<string>, s: nat, e: nat, replacement: string, r: Region) {
    && s < e <= |lines| && r.at == |TextBefore(lines, s)| && r.from == Join(lines[s..e])
    && r.to == Join(Reindented(lines[s], Split(replacement)))
  }

  /** The block a stage stands for is the only one of its kind; `window` are the lines that are
      searched first. */
  ghost predicate OnlyBlock(trim: string -> string, lines: seq<string>, window: seq<string>, block: seq<string>, s: Stage) {
    match s
    case BlockInWindow(o) => UniqueBlock(trim, window, block, o)
    case BlockInFile(line) => UniqueBlock(trim, lines, block, line)
    case LooseBlock(line, last) => UniqueLoose(trim, lines, block, line, last)
    case _ => false
  }

  ghost predicate BlockFound(trim: string -> string, lines: seq<string>, ws: nat, window: seq<string>, block: seq<string>, replacement: string, r: Region) {
    && OnlyBlock(trim, lines, window, block, r.stage)
    && BlockReplaced(lines, FirstLine(ws, r.stage), EndLine(ws, |block|, r.stage), replacement, r)
  }

  /** The lines of a block region, first and one past the last; `ws` is where the window starts. */
  function FirstLine(ws: nat, s: Stage): nat {
    match s
    case BlockInWindow(o) => ws + o
    case BlockInFile(line) => line
    case LooseBlock(line, _) => line
    case _ => 0
  }

  function EndLine(ws: nat, n: nat, s: Stage): nat {
    match s
    case BlockInWindow(o) => ws + o + n
    case BlockInFile(line) => line + n
    case LooseBlock(_, last) => last + 1
    case _ => 0
  }

  /** The place of a matcher in the cascade. */
  function Rank(s: Stage): nat {
    match s
    case InRange => 0
    case InWindow => 1
    case OnlyOne => 2
    case OnlyOneTrimmed => 3
    case BlockInWindow(_) => 4
    case BlockInFile(_) => 5
    case LooseBlock(_, _) => 6
  }

  /** The first n matchers have no region for the edit. */
  ghost predicate Skipped(lines: seq<string>, e: Edit, n: nat)
    requires lines != [] && RangeOk(e, |lines|)
  {
    var ws, we := WindowStart(e), WindowEnd(e, |lines|);
    && (n > 0 ==> !Contains(Join(lines[First(e) - 1..Last(e, |lines|)]), e.target))
    && (n > 1 ==> !Contains(Join(lines[ws..we]), e.target) && e.target != "")
    && (n > 2 ==> CountFrom(Join(lines), e.target, 0) != 1)
    && (n > 3 ==> Trim(e.target) == "" || CountFrom(Join(lines), Trim(e.target), 0) != 1)
    && (n > 4 ==> NoUniqueBlock(Trim, lines[ws..we], Split(e.target)))
    && (n > 5 ==> NoUniqueBlock(Trim, lines, Split(e.target)))
    && (n > 6 ==> NoUniqueLoose(Trim, lines, Split(e.target)))
  }

  /** None of the matchers has a region for the edit. */
  ghost predicate NoRegion(lines: seq<string>, e: Edit)
    requires lines != [] && RangeOk(e, |lines|)
  {
    Skipped(lines, e, 7)
  }

  method ReplaceBlock(lines: seq<string>, s: nat, e: nat, replacement: string, ghost m: Stage) returns (after: seq<string>, ghost r: Region)
    requires s < e <= |lines|
    ensures after != [] && r.stage == m && BlockReplaced(lines, s, e, replacement, r)
    ensures Replaced(Join(lines), Join(after), r.at, r.from, r.to)
    ensures SingleLines(lines) ==> SingleLines(after)
  {
    var block := Reindent(lines[s], Split(replacement));
    after := lines[..s] + block + lines[e..];
    if SingleLines(lines) {
      SplitYieldsLines(replacement);
      ReindentedSingle(lines[s], Split(replacement));
      SplicedSingle(lines, s, e, block);
    }
    LineSpliceIsReplacement(lines, s, e, block);
    r := Region(m, |TextBefore(lines, s)|, Join(lines[s..e]), Join(block));
  }

  /** The first two stages: the target as it is, in the given lines and then around them. */
  method ReplaceInLines(lines: seq<string>, s: nat, e: nat, from: string, to: string, ghost m: Stage)
      returns (after: Option<seq<string>>, ghost r: Region)
    requires s < e <= |lines|
    ensures after.Some? <==> Contains(Join(lines[s..e]), from)
    ensures after.Some? ==> after.value != [] && r.stage == m && r.from == from && r.to == to && FoundInLines(lines, s, e, from, r.at)
    ensures after.Some? ==> Replaced(Join(lines), Join(after.value), r.at, from, to)
    ensures after.Some? && SingleLines(lines) ==> SingleLines(after.value)
  {
    var slice := Join(lines[s..e]);
    r := Region(m, 0, from, to);
    if !Contains(slice, from) {
      return None, r;
    }
    ghost var at := SliceReplacement(lines, s, e, from, to);
    r := Region(m, at, from, to);
    after := Some(ReplacedInLines(lines, s, e, from, to));
    if SingleLines(lines) {
      SplitYieldsLines(ReplaceFirst(slice, from, to));
      SplicedSingle(lines, s, e, Split(ReplaceFirst(slice, from, to)));
    }
  }

  /** The last three stages: a unique block of lines, in the window, in the file, and up to
      blank lines. */
  method FindBlock(trim: string -> string, lines: seq<string>, ws: nat, window: seq<string>, block: seq<string>)
      returns (found: bool, s: nat, e: nat, ghost stage: Stage)
    requires ws + |window| <= |lines|
    ensures found ==> OnlyBlock(trim, lines, window, block, stage)
    ensures found ==> s == FirstLine(ws, stage) && e == EndLine(ws, |block|, stage) && s < e <= |lines|
    ensures !found || !stage.BlockInWindow? ==> NoUniqueBlock(trim, window, block)
    ensures !found || stage.LooseBlock? ==> NoUniqueBlock(trim, lines, block)
    ensures !found ==> NoUniqueLoose(trim, lines, block)
  {
    s, e, stage := 0, 0, InRange;
    var i, ok := MatchTrimmedLines(trim, window, block);
    if ok {
      return true, ws + i, ws + i + |block|, BlockInWindow(i);
    }
    i, ok := MatchTrimmedLines(trim, lines, block);
    if ok {
      return true, i, i + |block|, BlockInFile(i);
    }
    var l;
    i, l, ok := MatchNormalizedLines(trim, lines, block);
    if ok {
      return true, i, l + 1, LooseBlock(i, l);
    }
    found := false;
  }

  /** One edit either replaces exactly one region of the text, the one of the first matcher in
      the cascade that has a region, or fails because no matcher has one (or its line range
      is empty). */
  method ApplyEdit(lines: seq<string>, e: Edit) returns (after: Option<seq<string>>, ghost r: Region)
    requires lines != []
    ensures after.Some? ==> RangeOk(e, |lines|) && after.value != [] && Justified(lines, e, r) && Skipped(lines, e, Rank(r.stage))
    ensures after.Some? ==> Replaced(Join(lines), Join(after.value), r.at, r.from, r.to)
    ensures after.Some? && SingleLines(lines) ==> SingleLines(after.value)
    ensures after.None? ==> !RangeOk(e, |lines|) || NoRegion(lines, e)
  {
    var start, end := First(e), Last(e, |lines|);
    if start > end {
      return None, Region(InRange, 0, "", "");
    }
    after, r := ReplaceInLines(lines, start - 1, end, e.target, e.replacement, InRange);
    if after.Some? {
      return;
    }
    var ws, we := WindowStart(e), WindowEnd(e, |lines|);
    after, r := ReplaceInLines(lines, ws, we, e.target, e.replacement, InWindow);
    if after.Some? {
      return;
    }
    assert e.target != "" by {
      assert OccursAt(Join(lines[ws..we]), "", 0);
    }
    after, r := ReplaceOnly(lines, e.target, e.replacement, OnlyOne);
    if after.Some? {
      return;
    }
    if Trim(e.target) != "" {
      after, r := ReplaceOnly(lines, Trim(e.target), Trim(e.replacement), OnlyOneTrimmed);
      if after.Some? {
        return;
      }
    }
    var found, s, end', stage := FindBlock(Trim, lines, ws, lines[ws..we], Split(e.target));
    if found {
      var changed;
      changed, r := ReplaceBlock(lines, s, end', e.replacement, stage);
      after := Some(changed);
    }
  }

  method ReplaceOnly(lines: seq<string>, from: string, to: string, ghost m: Stage) returns (after: Option<seq<string>>, ghost r: Region)
    requires from != "" && lines != []
    ensures after.Some? <==> CountFrom(Join(lines), from, 0) == 1
    ensures after.Some? ==> after.value != [] && r == Region(m, IndexFrom(Join(lines), from, 0), from, to)
    ensures after.Some? ==> Replaced(Join(lines), Join(after.value), r.at, from, to) && SingleLines(after.value)
  {
    var text := Join(lines);
    var i := IndexFrom(text, from, 0);
    r := Region(m, if i < 0 then 0 else i, from, to);
    if CountFrom(text, from, 0) != 1 {
      return None, r;
    }
    JoinSplit(ReplaceFirst(text, from, to));
    SplitYieldsLines(ReplaceFirst(text, from, to));
    after := Some(Split(ReplaceFirst(text, from, to)));
  }

  // ----- the edit list -----

  datatype Outcome = Edited(content: string) | Failed(edit: nat)

  function Normalized(e: Edit): Edit { e.(target := Unix(e.target), replacement := Unix(e.replacement)) }

  /** Edits written with Windows line ends are read as if written with Unix ones. */
  lemma {:induction false} WindowsEditsAlike(e: Edit, target: seq<string>, replacement: seq<string>)
    requires SingleLines(target) && SingleLines(replacement) && e.target == JoinDos(target) && e.replacement == JoinDos(replacement)
    ensures Normalized(e) == Edit(e.startLine, e.endLine, Join(target), Join(replacement))
  {
    UnixOfDos(target);
    UnixOfDos(replacement);
  }

  /** Step k of an edit list: the text before and after, and the region between them. */
  ghost predicate EditStep(before: seq<string>, e: Edit, r: Region, after: seq<string>) {
    && before != [] && RangeOk(Normalized(e), |before|)
    && Justified(before, Normalized(e), r) && Skipped(before, Normalized(e), Rank(r.stage))
    && Replaced(Join(before), Join(after), r.at, r.from, r.to)
    && after != [] && SingleLines(after)
  }

  /** The steps of an edit list, up to its end or to the first edit without a region. */
  ghost predicate EditsResult(content: string, edits: seq<Edit>, r: Outcome, states: seq<seq<string>>, regions: seq<Region>) {
    && |states| == |regions| + 1 <= |edits| + 1 && states[0] == Split(Unix(content)) && Join(states[0]) == Unix(content)
    && (forall k :: 0 <= k < |regions| ==> EditStep(states[k], edits[k], regions[k], states[k + 1]))
    && match r
       case Edited(text) => |regions| == |edits| && text == Join(states[|edits|])
       case Failed(k) => k == |regions| < |edits| && Refused(states[k], Normalized(edits[k]))
  }

  ghost predicate Refused(lines: seq<string>, e: Edit) {
    lines != [] && (!RangeOk(e, |lines|) || NoRegion(lines, e))
  }

  /** The matchers leave no choice: an edit has at most one region, and a refused one has none. */
  lemma {:induction false} RegionUnique(lines: seq<string>, e: Edit, r: Region, q: Region)
    requires lines != [] && RangeOk(e, |lines|)
    requires Justified(lines, e, r) && Skipped(lines, e, Rank(r.stage))
    requires Justified(lines, e, q) && Skipped(lines, e, Rank(q.stage))
    ensures r == q && !NoRegion(lines, e)
  {
    JustifiedNotSkipped(lines, e, r, Rank(q.stage));
    JustifiedNotSkipped(lines, e, q, Rank(r.stage));
    if NoRegion(lines, e) {
      JustifiedNotSkipped(lines, e, r, 7);
    }
    SameRankSameRegion(lines, e, r, q);
  }

  lemma {:induction false} JustifiedNotSkipped(lines: seq<string>, e: Edit, r: Region, n: nat)
    requires lines != [] && RangeOk(e, |lines|) && Justified(lines, e, r) && Skipped(lines, e, n)
    ensures n <= Rank(r.stage)
  {
    if Rank(r.stage) >= 4 {
      BlockExists(Trim, lines, lines[WindowStart(e)..WindowEnd(e, |lines|)], Split(e.target), r.stage);
    }
  }

  lemma {:induction false} BlockExists(trim: string -> string, lines: seq<string>, window: seq<string>, block: seq<string>, s: Stage)
    requires OnlyBlock(trim, lines, window, block, s)
    ensures s.BlockInWindow? ==> !NoUniqueBlock(trim, window, block)
    ensures s.BlockInFile? ==> !NoUniqueBlock(trim, lines, block)
    ensures s.LooseBlock? ==> !NoUniqueLoose(trim, lines, block)
  {
  }

  lemma {:induction false} SameRankSameRegion(lines: seq<string>, e: Edit, r: Region, q: Region)
    requires lines != [] && RangeOk(e, |lines|) && Justified(lines, e, r) && Justified(lines, e, q)
    requires Rank(r.stage) == Rank(q.stage)
    ensures r == q
  {
    if Rank(r.stage) >= 4 {
      var ws, window, block := WindowStart(e), lines[WindowStart(e)..WindowEnd(e, |lines|)], Split(e.target);
      SameStage(Trim, lines, window, block, r.stage, q.stage);
      SameReplacement(lines, FirstLine(ws, r.stage), EndLine(ws, |block|, r.stage), e.replacement, r, q);
    }
  }

  lemma {:induction false} SameReplacement(lines: seq<string>, s: nat, e: nat, replacement: string, r: Region, q: Region)
    requires r.stage == q.stage && BlockReplaced(lines, s, e, replacement, r) && BlockReplaced(lines, s, e, replacement, q)
    ensures r == q
  {
  }

  lemma {:induction false} SameStage(trim: string -> string, lines: seq<string>, window: seq<string>, block: seq<string>, r: Stage, q: Stage)
    requires Rank(r) == Rank(q) && OnlyBlock(trim, lines, window, block, r) && OnlyBlock(trim, lines, window, block, q)
    ensures r == q
  {
  }

  /** So an edit determines the lines it leaves. */
  lemma {:induction false} StepUnique(before: seq<string>, e: Edit, r: Region, after: seq<string>, q: Region, after': seq<string>)
    requires EditStep(before, e, r, after) && EditStep(before, e, q, after')
    ensures r == q && after == after' && !Refused(before, Normalized(e))
  {
    RegionUnique(before, Normalized(e), r, q);
    SplitJoin(after);
    SplitJoin(after');
  }

  lemma {:induction false} SameState(content: string, edits: seq<Edit>, r: Outcome, ss: seq<seq<string>>, rs: seq<Region>,
                                     r': Outcome, ss': seq<seq<string>>, rs': seq<Region>, k: nat)
    requires EditsResult(content, edits, r, ss, rs) && EditsResult(content, edits, r', ss', rs') && k <= |rs| && k <= |rs'|
    ensures ss[k] == ss'[k] && (k > 0 ==> rs[k - 1] == rs'[k - 1])
  {
    StepsUnique(edits);
    SameChain(Steps(edits), ss, rs, ss', rs', k);
  }

  type Chain = (int, seq<string>, Region, seq<string>) -> bool

  ghost function Steps(edits: seq<Edit>): Chain {
    (k, before, r, after) => 0 <= k < |edits| && EditStep(before, edits[k], r, after)
  }

  ghost predicate Determined(step: Chain) {
    forall k, before, r, after, q, after' :: step(k, before, r, after) && step(k, before, q, after') ==> r == q && after == after'
  }

  lemma {:induction false} StepsUnique(edits: seq<Edit>)
    ensures Determined(Steps(edits))
  {
    var step := Steps(edits);
    forall k, before, r, after, q, after' | step(k, before, r, after) && step(k, before, q, after') ensures r == q && after == after' {
      StepUnique(before, edits[k], r, after, q, after');
    }
  }

  lemma {:induction false} SameChain(step: Chain, ss: seq<seq<string>>, rs: seq<Region>, ss': seq<seq<string>>, rs': seq<Region>, k: nat)
    requires Determined(step) && k <= |rs| < |ss| && k <= |rs'| < |ss'| && ss[0] == ss'[0]
    requires forall j :: 0 <= j < k ==> step(j, ss[j], rs[j], ss[j + 1]) && step(j, ss'[j], rs'[j], ss'[j + 1])
    ensures ss[k] == ss'[k] && (k > 0 ==> rs[k - 1] == rs'[k - 1])
  {
    if k > 0 {
      SameChain(step, ss, rs, ss', rs', k - 1);
      var j := k - 1;
      assert step(j, ss[j], rs[j], ss[j + 1]) && step(j, ss'[j], rs'[j], ss'[j + 1]);
    }
  }

  lemma {:induction false} NotShorter(content: string, edits: seq<Edit>, r: Outcome, ss: seq<seq<string>>, rs: seq<Region>,
                                      r': Outcome, ss': seq<seq<string>>, rs': seq<Region>)
    requires EditsResult(content, edits, r, ss, rs) && EditsResult(content, edits, r', ss', rs')
    ensures |rs'| <= |rs|
  {
    var k := |rs|;
    if k < |rs'| {
      SameState(content, edits, r, ss, rs, r', ss', rs', k);
      assert EditStep(ss'[k], edits[k], rs'[k], ss'[k + 1]);
      StepUnique(ss'[k], edits[k], rs'[k], ss'[k + 1], rs'[k], ss'[k + 1]);
    }
  }

  /** The content and the edits determine every region, every intermediate text and the outcome. */
  lemma {:induction false} EditsUnique(content: string, edits: seq<Edit>, r: Outcome, ss: seq<seq<string>>, rs: seq<Region>,
                                       r': Outcome, ss': seq<seq<string>>, rs': seq<Region>)
    requires EditsResult(content, edits, r, ss, rs) && EditsResult(content, edits, r', ss', rs')
    ensures r == r' && ss == ss' && rs == rs'
  {
    NotShorter(content, edits, r, ss, rs, r', ss', rs');
    NotShorter(content, edits, r', ss', rs', r, ss, rs);
    forall k | 0 <= k < |ss| ensures ss[k] == ss'[k] && (k > 0 ==> rs[k - 1] == rs'[k - 1]) {
      SameState(content, edits, r, ss, rs, r', ss', rs', k);
    }
    assert forall k :: 0 <= k < |rs| ==> rs[k] == rs'[k] by {
      forall k | 0 <= k < |rs| ensures rs[k] == rs'[k] {
        SameState(content, edits, r, ss, rs, r', ss', rs', k + 1);
      }
    }
  }

  /** A successful edit list is a composition of single-region replacements, one per edit and
      in order, starting from the content with Unix newlines; a failing one stops at the
      first edit that has no region. */
  method ApplyFileEdits(content: string, edits: seq<Edit>) returns (r: Outcome, ghost states: seq<seq<string>>, ghost regions: seq<Region>)
    ensures EditsResult(content, edits, r, states, regions)
    ensures exists ss: seq<seq<string>>, rs: seq<Region> :: EditsResult(content, edits, r, ss, rs)
  {
    var lines := Split(Unix(content));
    JoinSplit(Unix(content));
    SplitYieldsLines(Unix(content));
    states, regions := [lines], [];
    for k := 0 to |edits|
      invariant |regions| == k && |states| == k + 1 && states[k] == lines && lines != [] && SingleLines(lines)
      invariant states[0] == Split(Unix(content)) && Join(states[0]) == Unix(content)
      invariant forall j :: 0 <= j < k ==> EditStep(states[j], edits[j], regions[j], states[j + 1])
    {
      var after;
      ghost var region;
      after, region := ApplyEdit(lines, Normalized(edits[k]));
      if after.None? {
        r := Failed(k);
        assert EditsResult(content, edits, r, states, regions);
        return;
      }
      lines := after.value;
      regions := regions + [region];
      states := states + [lines];
    }
    r := Edited(Join(lines));
    assert EditsResult(content, edits, r, states, regions);
  }
}
