/** Line-oriented text: the parts of Go's `strings` package that the patch, edit and
    conflict-marker code is written with. A string is a sequence of Unicode scalars. */
module Text {

  datatype Option<+T> = None | Some(value: T)

  /** unicode.IsSpace, the character class that strings.TrimSpace removes. */
  predicate IsSpace(c: char) {
    c in {'\t', '\n', '\U{000B}', '\U{000C}', '\r', ' ', '\U{0085}', '\U{00A0}', '\U{1680}',
          '\U{2028}', '\U{2029}', '\U{202F}', '\U{205F}', '\U{3000}'}
    || '\U{2000}' <= c <= '\U{200A}'
  }

  function TrimLeft(s: string): string {
    if s != "" && IsSpace(s[0]) then TrimLeft(s[1..]) else s
  }

  function TrimRight(s: string): string {
    if s != "" && IsSpace(s[|s| - 1]) then TrimRight(s[..|s| - 1]) else s
  }

  /** strings.TrimSpace */
  function Trim(s: string): string {
    TrimRight(TrimLeft(s))
  }

  /** Trimming a text whose first character is not white space leaves a prefix of it that
      still starts with that character. */
  lemma {:induction false} TrimKeepsHead(s: string)
    requires s != "" && !IsSpace(s[0])
    ensures Trim(s) <= s && Trim(s) != ""
  {
    TrimRightKeepsHead(s);
  }

  lemma {:induction false} TrimRightKeepsHead(s: string)
    requires s != "" && !IsSpace(s[0])
    ensures TrimRight(s) <= s && TrimRight(s) != ""
    decreases |s|
  {
    if IsSpace(s[|s| - 1]) {
      TrimRightKeepsHead(s[..|s| - 1]);
    }
  }

  predicate AllSpace(s: string) { forall i :: 0 <= i < |s| ==> IsSpace(s[i]) }

  /** Text without white space at either end. */
  predicate Tight(s: string) { s == "" || (!IsSpace(s[0]) && !IsSpace(s[|s| - 1])) }

  /** What trimming leaves is what stands between the white space at both ends. */
  lemma {:induction false} TrimUnique(pre: string, mid: string, post: string)
    requires AllSpace(pre) && AllSpace(post) && Tight(mid)
    ensures Trim(pre + mid + post) == mid
  {
    if mid == "" {
      assert pre + mid + post == (pre + post) + "";
      TrimLeftDrops(pre + post, "");
    } else {
      assert pre + mid + post == pre + (mid + post);
      TrimLeftDrops(pre, mid + post);
      TrimRightDrops(mid, post);
    }
  }

  lemma {:induction false} TrimLeftDrops(pre: string, rest: string)
    requires AllSpace(pre) && (rest == "" || !IsSpace(rest[0]))
    ensures TrimLeft(pre + rest) == rest
  {
    if pre == "" {
      assert pre + rest == rest;
    } else {
      assert (pre + rest)[1..] == pre[1..] + rest;
      TrimLeftDrops(pre[1..], rest);
    }
  }

  lemma {:induction false} TrimRightDrops(rest: string, post: string)
    requires AllSpace(post) && (rest == "" || !IsSpace(rest[|rest| - 1]))
    ensures TrimRight(rest + post) == rest
    decreases |post|
  {
    if post == "" {
      assert rest + post == rest;
    } else {
      var n := |post| - 1;
      assert (rest + post)[..|rest + post| - 1] == rest + post[..n];
      assert IsSpace(post[n]);
      TrimRightDrops(rest, post[..n]);
    }
  }

  /** Every text is white space, tight text and white space. */
  lemma {:induction false} TrimParts(s: string) returns (pre: string, mid: string, post: string)
    ensures s == pre + mid + post && AllSpace(pre) && AllSpace(post) && Tight(mid) && Trim(s) == mid
    ensures mid == "" ==> post == ""
  {
    var rest;
    pre, rest := LeadingSpace(s);
    mid, post := TrailingSpace(rest);
    SpaceAround(pre, mid, post, rest, s);
  }

  lemma {:induction false} SpaceAround(pre: string, mid: string, post: string, rest: string, s: string)
    requires AllSpace(pre) && AllSpace(post) && Tight(mid) && rest == mid + post && s == pre + rest
    ensures s == pre + mid + post && Trim(s) == mid
  {
    assert pre + mid + post == pre + (mid + post);
    TrimUnique(pre, mid, post);
  }

  lemma {:induction false} LeadingSpace(s: string) returns (pre: string, rest: string)
    ensures s == pre + rest && AllSpace(pre) && (rest == "" || !IsSpace(rest[0]))
  {
    if s == "" || !IsSpace(s[0]) {
      pre, rest := "", s;
    } else {
      pre, rest := LeadingSpace(s[1..]);
      assert s == [s[0]] + pre + rest;
      pre := [s[0]] + pre;
    }
  }

  lemma {:induction false} TrailingSpace(s: string) returns (mid: string, post: string)
    requires s == "" || !IsSpace(s[0])
    ensures s == mid + post && Tight(mid) && AllSpace(post) && (mid == "" ==> post == "")
    decreases |s|
  {
    if s == "" || !IsSpace(s[|s| - 1]) {
      mid, post := s, "";
    } else {
      var n := |s| - 1;
      mid, post := TrailingSpace(s[..n]);
      assert s == mid + (post + [s[n]]);
      post := post + [s[n]];
    }
  }

  lemma {:induction false} PrefixSurvivesTrim(indent: string, mark: string, tail: string)
    requires AllSpace(indent) && mark != "" && Tight(mark)
    ensures mark <= Trim(indent + mark + tail)
  {
    var pre, mid, post := TrimParts(tail);
    if mid == "" {
      assert indent + mark + tail == indent + mark + pre;
      TrimUnique(indent, mark, pre);
    } else {
      var body := mark + pre + mid;
      assert indent + mark + tail == indent + body + post;
      assert body[|body| - 1] == mid[|mid| - 1] && body[0] == mark[0];
      TrimUnique(indent, body, post);
      assert body == mark + (pre + mid);
    }
  }

  // ----- lines -----

  predicate SingleLine(s: string) { '\n' !in s }

  predicate SingleLines(ls: seq<string>) { forall i :: 0 <= i < |ls| ==> SingleLine(ls[i]) }

  /** strings.Split(s, "\n") */
  function Split(s: string): (r: seq<string>)
    ensures |r| >= 1
  {
    if s == "" then [""]
    else
      var r := Split(s[1..]);
      if s[0] == '\n' then [""] + r else [[s[0]] + r[0]] + r[1..]
  }

  /** strings.Join(ls, "\n") */
  function Join(ls: seq<string>): string {
    if |ls| == 0 then "" else if |ls| == 1 then ls[0] else ls[0] + "\n" + Join(ls[1..])
  }

  lemma {:induction false} SplitYieldsLines(s: string)
    ensures SingleLines(Split(s))
  {
    if s != "" {
      SplitYieldsLines(s[1..]);
    }
  }

  lemma {:induction false} JoinSplit(s: string)
    ensures Join(Split(s)) == s
  {
    if s != "" {
      var r := Split(s[1..]);
      JoinSplit(s[1..]);
      if s[0] == '\n' {
        assert ([""] + r)[1..] == r;
      } else {
        var h := [s[0]] + r[0];
        assert ([h] + r[1..])[1..] == r[1..];
        if |r| > 1 {
          assert Join([h] + r[1..]) == [s[0]] + Join(r);
        }
      }
    }
  }

  lemma {:induction false} SplitLine(a: string)
    requires SingleLine(a)
    ensures Split(a) == [a]
  {
    if a != "" {
      assert a[0] in a;
      SplitLine(a[1..]);
      assert [a[0]] + a[1..] == a;
    }
  }

  lemma {:induction false} SplitFirstLine(a: string, b: string)
    requires SingleLine(a)
    ensures Split(a + "\n" + b) == [a] + Split(b)
  {
    var s := a + "\n" + b;
    if a == "" {
      assert s[1..] == b;
    } else {
      assert a[0] in a;
      assert s[1..] == a[1..] + "\n" + b;
      SplitFirstLine(a[1..], b);
      assert [a[0]] + a[1..] == a;
    }
  }

  /** Splitting a joined, non-empty list of lines gives the list back. */
  lemma {:induction false} SplitJoin(ls: seq<string>)
    requires |ls| >= 1 && SingleLines(ls)
    ensures Split(Join(ls)) == ls
  {
    if |ls| == 1 {
      SplitLine(ls[0]);
    } else {
      SplitJoin(ls[1..]);
      SplitFirstLine(ls[0], Join(ls[1..]));
    }
  }

  lemma {:induction false} JoinConcat(a: seq<string>, b: seq<string>)
    requires |a| >= 1 && |b| >= 1
    ensures Join(a + b) == Join(a) + "\n" + Join(b)
  {
    if |a| == 1 {
      assert (a + b)[1..] == b;
    } else {
      assert (a + b)[1..] == a[1..] + b;
      JoinConcat(a[1..], b);
    }
  }

  lemma {:induction false} Associate<T>(a: seq<T>, b: seq<T>, c: seq<T>)
    ensures a + b + c == a + (b + c)
  {
  }

  // ----- newlines and substrings -----

  /** strings.ReplaceAll(s, "\r\n", "\n") */
  function Unix(s: string): string {
    if |s| >= 2 && s[0] == '\r' && s[1] == '\n' then "\n" + Unix(s[2..])
    else if s == "" then ""
    else [s[0]] + Unix(s[1..])
  }

  predicate HasCrLfAt(s: string, i: int) { 0 <= i && i + 1 < |s| && s[i] == '\r' && s[i + 1] == '\n' }

  lemma {:induction false} UnixIdentity(s: string)
    requires forall i :: !HasCrLfAt(s, i)
    ensures Unix(s) == s
  {
    if s != "" {
      assert !HasCrLfAt(s, 0);
      forall i ensures !HasCrLfAt(s[1..], i) {
        assert !HasCrLfAt(s, i + 1);
      }
      UnixIdentity(s[1..]);
    }
  }

  /** Lines joined with carriage returns and newlines. */
  function JoinDos(ls: seq<string>): string {
    if |ls| == 0 then "" else if |ls| == 1 then ls[0] else ls[0] + "\r\n" + JoinDos(ls[1..])
  }

  /** Normalizing newlines turns every joined pair, and nothing else, into a newline. */
  lemma {:induction false} UnixOfDos(ls: seq<string>)
    requires SingleLines(ls)
    ensures Unix(JoinDos(ls)) == Join(ls)
  {
    if |ls| == 1 {
      UnixLine(ls[0], "");
      assert ls[0] + "" == ls[0];
    } else if |ls| > 1 {
      UnixOfDos(ls[1..]);
      var rest := "\r\n" + JoinDos(ls[1..]);
      assert JoinDos(ls) == ls[0] + rest;
      UnixLine(ls[0], rest);
      assert rest[2..] == JoinDos(ls[1..]);
      assert ls[0] + ("\n" + Join(ls[1..])) == ls[0] + "\n" + Join(ls[1..]);
    }
  }

  lemma {:induction false} UnixLine(a: string, rest: string)
    requires SingleLine(a) && (rest == "" || rest[0] == '\r')
    ensures Unix(a + rest) == a + Unix(rest)
  {
    if a == "" {
      assert a + rest == rest;
    } else {
      assert a[0] in a && (|a| > 1 ==> a[1] in a);
      var tail := a[1..] + rest;
      assert a + rest == [a[0]] + tail;
      UnixChar(a[0], tail);
      UnixLine(a[1..], rest);
      assert [a[0]] + (a[1..] + Unix(rest)) == a + Unix(rest);
    }
  }

  lemma {:induction false} UnixChar(c: char, tail: string)
    requires tail == "" || tail[0] != '\n'
    ensures Unix([c] + tail) == [c] + Unix(tail)
  {
    assert ([c] + tail)[1..] == tail;
  }

  predicate OccursAt(s: string, sub: string, i: int) {
    0 <= i && i + |sub| <= |s| && s[i..i + |sub|] == sub
  }

  /** The first occurrence of sub at or after `from`, or -1 (strings.Index). */
  function IndexFrom(s: string, sub: string, from: nat): (r: int)
    ensures r == -1 || (from <= r && OccursAt(s, sub, r))
    ensures forall i :: from <= i && (r == -1 || i < r) ==> !OccursAt(s, sub, i)
    decreases |s| - from
  {
    if from + |sub| > |s| then -1
    else if OccursAt(s, sub, from) then from
    else IndexFrom(s, sub, from + 1)
  }

  predicate Contains(s: string, sub: string) { IndexFrom(s, sub, 0) >= 0 }

  /** strings.Count for a non-empty sub: non-overlapping occurrences from the left. */
  function CountFrom(s: string, sub: string, from: nat): nat
    requires sub != ""
    decreases |s| - from
  {
    var i := IndexFrom(s, sub, from);
    if i < 0 then 0 else 1 + CountFrom(s, sub, i + |sub|)
  }

  /** strings.Replace(s, sub, by, 1) */
  function ReplaceFirst(s: string, sub: string, replacement: string): string {
    var i := IndexFrom(s, sub, 0);
    if i < 0 then s else s[..i] + replacement + s[i + |sub|..]
  }

  lemma {:induction false} ReplaceFirstAt(s: string, sub: string, replacement: string) returns (i: nat)
    requires Contains(s, sub)
    ensures i == IndexFrom(s, sub, 0) && OccursAt(s, sub, i)
    ensures ReplaceFirst(s, sub, replacement) == s[..i] + replacement + s[i + |sub|..]
  {
    i := IndexFrom(s, sub, 0);
  }

  /** What a count of one means: the first occurrence is the only one apart from those that
      overlap it. */
  lemma {:induction false} CountsOnceIff(s: string, sub: string)
    requires sub != ""
    ensures CountFrom(s, sub, 0) == 1 <==>
              Contains(s, sub) && forall j :: j >= IndexFrom(s, sub, 0) + |sub| ==> !OccursAt(s, sub, j)
  {
    var i := IndexFrom(s, sub, 0);
    if i >= 0 {
      CountsNoneIff(s, sub, i + |sub|);
    }
  }

  lemma {:induction false} CountsNoneIff(s: string, sub: string, from: nat)
    requires sub != ""
    ensures CountFrom(s, sub, from) == 0 <==> forall j :: j >= from ==> !OccursAt(s, sub, j)
  {
    var i := IndexFrom(s, sub, from);
    if i >= 0 {
      assert OccursAt(s, sub, i);
    }
  }
}
