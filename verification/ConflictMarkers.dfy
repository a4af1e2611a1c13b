/** CleanConflictMarkers: Git conflict blocks resolved in favour of the incoming side. */
module ConflictMarkers {
  import opened Text

  datatype Kind = Ours | Base | Divider | Theirs | Plain

  function KindOf(line: string): Kind {
    var t := Trim(line);
    if "<<<<<<<" <= t then Ours else if "|||||||" <= t then Base
    else if "=======" <= t then Divider else if ">>>>>>>" <= t then Theirs else Plain
  }

  /** After white space, seven times the same character. */
  ghost predicate StartsWithSeven(line: string, c: char) {
    exists n :: 0 <= n && n + 7 <= |line| && AllSpace(line[..n]) && line[n..n + 7] == [c, c, c, c, c, c, c]
  }

  lemma {:induction false} MarkShows(line: string, c: char)
    requires !IsSpace(c)
    ensures [c, c, c, c, c, c, c] <= Trim(line) <==> StartsWithSeven(line, c)
  {
    var mark := [c, c, c, c, c, c, c];
    if n :| 0 <= n && n + 7 <= |line| && AllSpace(line[..n]) && line[n..n + 7] == mark {
      assert line == line[..n] + mark + line[n + 7..];
      PrefixSurvivesTrim(line[..n], mark, line[n + 7..]);
    }
    if mark <= Trim(line) {
      var pre, mid, post := TrimParts(line);
      var n := |pre|;
      assert line[..n] == pre && line[n..n + 7] == mid[..7];
    }
  }

  /** The four kinds of marker line, and nothing else, are told by their first seven characters. */
  lemma {:induction false} KindMeans(line: string)
    ensures KindOf(line).Ours? <==> StartsWithSeven(line, '<')
    ensures KindOf(line).Base? <==> StartsWithSeven(line, '|')
    ensures KindOf(line).Divider? <==> StartsWithSeven(line, '=')
    ensures KindOf(line).Theirs? <==> StartsWithSeven(line, '>')
  {
    MarkShows(line, '<');
    MarkShows(line, '|');
    MarkShows(line, '=');
    MarkShows(line, '>');
    OneMark(Trim(line), '<');
    OneMark(Trim(line), '|');
    OneMark(Trim(line), '=');
    OneMark(Trim(line), '>');
    assert "<<<<<<<" == ['<', '<', '<', '<', '<', '<', '<'] && "|||||||" == ['|', '|', '|', '|', '|', '|', '|'];
    assert "=======" == ['=', '=', '=', '=', '=', '=', '='] && ">>>>>>>" == ['>', '>', '>', '>', '>', '>', '>'];
  }

  lemma {:induction false} OneMark(t: string, c: char)
    ensures [c, c, c, c, c, c, c] <= t ==> t[0] == c
  {
  }

  /** The line machine below works with any way to classify lines; Git's is KindOf. */
  type Classifier = string -> Kind

  predicate AllPlain(kind: Classifier, lines: seq<string>) { forall i :: 0 <= i < |lines| ==> kind(lines[i]).Plain? }

  predicate MarkerFree(lines: seq<string>) { AllPlain(KindOf, lines) }

  /** ContainsConflictMarkers */
  method ContainsConflictMarkers(content: string) returns (found: bool)
    ensures found <==> !MarkerFree(Split(content))
  {
    var lines := Split(content);
    for i := 0 to |lines|
      invariant MarkerFree(lines[..i])
    {
      if !KindOf(lines[i]).Plain? {
        return true;
      }
    }
    assert lines[..|lines|] == lines;
    found := false;
  }

  /** Whether a line is inside a dropped side, after the lines so far. */
  function Dropping(kind: Classifier, lines: seq<string>, inOurs: bool): bool {
    if lines == [] then inOurs
    else
      match kind(lines[|lines| - 1])
      case Ours => true
      case Base => true
      case Divider => false
      case Theirs => false
      case Plain => Dropping(kind, lines[..|lines| - 1], inOurs)
  }

  function Survivors(kind: Classifier, lines: seq<string>, inOurs: bool): seq<string> {
    if lines == [] then []
    else
      var l := lines[|lines| - 1];
      var earlier := Survivors(kind, lines[..|lines| - 1], inOurs);
      if kind(l).Plain? && !Dropping(kind, lines, inOurs) then earlier + [l] else earlier
  }

  function Cleaned(content: string): string { Join(Survivors(KindOf, Split(content), false)) }

  method CleanConflictMarkers(content: string) returns (r: string)
    ensures r == Cleaned(content)
  {
    var lines := Split(content);
    var cleaned: seq<string> := [];
    var inOurs := false;
    for i := 0 to |lines|
      invariant cleaned == Survivors(KindOf, lines[..i], false) && inOurs == Dropping(KindOf, lines[..i], false)
    {
      assert lines[..i + 1][..i] == lines[..i];
      match KindOf(lines[i])
      case Ours => inOurs := true;
      case Base => inOurs := true;
      case Divider => inOurs := false;
      case Theirs => inOurs := false;
      case Plain =>
        if !inOurs {
          cleaned := cleaned + [lines[i]];
        }
    }
    assert lines[..|lines|] == lines;
    r := Join(cleaned);
  }

  // ----- what cleaning any text does -----

  /** The last marker line is one that opens our side or the base. */
  ghost predicate LastMarkerOpens(kind: Classifier, lines: seq<string>) {
    exists k :: 0 <= k < |lines| && (kind(lines[k]).Ours? || kind(lines[k]).Base?) && forall j :: k < j < |lines| ==> kind(lines[j]).Plain?
  }

  lemma {:induction false} DroppingMeans(kind: Classifier, lines: seq<string>)
    ensures Dropping(kind, lines, false) <==> LastMarkerOpens(kind, lines)
  {
    if lines != [] {
      var n := |lines| - 1;
      var init := lines[..n];
      assert forall i :: 0 <= i < n ==> init[i] == lines[i];
      DroppingMeans(kind, init);
      OpensMore(kind, init, lines[n]);
      assert lines == init + [lines[n]];
    }
  }

  lemma {:induction false} OpensMore(kind: Classifier, init: seq<string>, last: string)
    ensures LastMarkerOpens(kind, init + [last]) <==>
              kind(last).Ours? || kind(last).Base? || (kind(last).Plain? && LastMarkerOpens(kind, init))
  {
    var lines := init + [last];
    assert forall i :: 0 <= i < |init| ==> lines[i] == init[i];
    if kind(last).Ours? || kind(last).Base? {
      assert lines[|init|] == last;
    }
    if kind(last).Plain? && LastMarkerOpens(kind, init) {
      var k :| 0 <= k < |init| && (kind(init[k]).Ours? || kind(init[k]).Base?) && forall j :: k < j < |init| ==> kind(init[j]).Plain?;
      assert kind(lines[k]) == kind(init[k]);
    }
    if k :| 0 <= k < |lines| && (kind(lines[k]).Ours? || kind(lines[k]).Base?) && forall j :: k < j < |lines| ==> kind(lines[j]).Plain? {
      if k < |init| {
        assert kind(init[k]) == kind(lines[k]) && lines[|init|] == last;
      }
    }
  }

  /** In any text, balanced or not, a line is kept, in its place, exactly when it is no marker and
      the last marker before it does not open our side or the base. */
  lemma {:induction false} SurvivorsMean(kind: Classifier, lines: seq<string>, i: nat)
    requires i < |lines|
    ensures Survivors(kind, lines[..i + 1], false)
         == if kind(lines[i]).Plain? && !LastMarkerOpens(kind, lines[..i]) then Survivors(kind, lines[..i], false) + [lines[i]]
            else Survivors(kind, lines[..i], false)
  {
    assert lines[..i + 1][..i] == lines[..i];
    DroppingMeans(kind, lines[..i]);
  }

  lemma {:induction false} SurvivorsAreLines(kind: Classifier, lines: seq<string>, inOurs: bool)
    ensures AllPlain(kind, Survivors(kind, lines, inOurs))
    ensures SingleLines(lines) ==> SingleLines(Survivors(kind, lines, inOurs))
  {
    if lines != [] {
      SurvivorsAreLines(kind, lines[..|lines| - 1], inOurs);
    }
  }

  lemma {:induction false} PlainBlock(kind: Classifier, lines: seq<string>, inOurs: bool)
    requires AllPlain(kind, lines)
    ensures Dropping(kind, lines, inOurs) == inOurs && Survivors(kind, lines, inOurs) == if inOurs then [] else lines
  {
    if lines != [] {
      var n := |lines| - 1;
      PlainBlock(kind, lines[..n], inOurs);
      PlainStep(kind, lines, inOurs);
      assert lines == lines[..n] + [lines[n]];
    }
  }

  lemma {:induction false} PlainStep(kind: Classifier, lines: seq<string>, inOurs: bool)
    requires lines != [] && kind(lines[|lines| - 1]).Plain?
    ensures Dropping(kind, lines, inOurs) == Dropping(kind, lines[..|lines| - 1], inOurs)
    ensures Survivors(kind, lines, inOurs)
         == Survivors(kind, lines[..|lines| - 1], inOurs) + if Dropping(kind, lines, inOurs) then [] else [lines[|lines| - 1]]
  {
  }

  lemma {:induction false} CleanedLines(content: string)
    ensures MarkerFree(Split(Cleaned(content)))
  {
    var kept := Survivors(KindOf, Split(content), false);
    SplitYieldsLines(content);
    SurvivorsAreLines(KindOf, Split(content), false);
    if kept == [] {
      assert Split(Join(kept)) == [""];
      assert Trim("") == "";
    } else {
      SplitJoin(kept);
    }
  }

  /** Cleaning leaves no marker in any text, changes nothing in a text without markers, and so
      is idempotent. */
  lemma {:induction false} CleaningRemovesExactlyMarkedText(content: string)
    ensures MarkerFree(Split(Cleaned(content)))
    ensures MarkerFree(Split(content)) ==> Cleaned(content) == content
    ensures Cleaned(Cleaned(content)) == Cleaned(content)
  {
    CleanedLines(content);
    PlainBlock(KindOf, Split(Cleaned(content)), false);
    JoinSplit(Cleaned(content));
    if MarkerFree(Split(content)) {
      PlainBlock(KindOf, Split(content), false);
      JoinSplit(content);
    }
  }

  // ----- what it does to the output of a merge -----

  /** Text as a merge leaves it: plain lines, and conflicts with our side, the common base in
      diff3 style, and the incoming side, each marker followed by any label. */
  datatype Segment =
    | Text(lines: seq<string>)
    | Conflict(ours: seq<string>, base: Option<seq<string>>, theirs: seq<string>, labels: Labels)

  datatype Labels = Labels(ours: string, base: string, divider: string, theirs: string)

  function Render(s: Segment): seq<string> {
    match s
    case Text(lines) => lines
    case Conflict(ours, base, theirs, l) =>
      ["<<<<<<<" + l.ours] + ours
      + (if base.Some? then ["|||||||" + l.base] + base.value else [])
      + ["=======" + l.divider] + theirs + [">>>>>>>" + l.theirs]
  }

  function RenderAll(ss: seq<Segment>): seq<string> {
    if ss == [] then [] else RenderAll(ss[..|ss| - 1]) + Render(ss[|ss| - 1])
  }

  /** The lines the incoming side would have. */
  function Incoming(ss: seq<Segment>): seq<string> {
    if ss == [] then []
    else Incoming(ss[..|ss| - 1]) + match ss[|ss| - 1] case Text(lines) => lines case Conflict(_, _, theirs, _) => theirs
  }

  ghost predicate GoodLines(lines: seq<string>) { MarkerFree(lines) && SingleLines(lines) }

  ghost predicate GoodSegment(s: Segment) {
    match s
    case Text(lines) => GoodLines(lines)
    case Conflict(ours, base, theirs, l) =>
      && GoodLines(ours) && (base.Some? ==> GoodLines(base.value)) && GoodLines(theirs)
      && SingleLine(l.ours) && SingleLine(l.base) && SingleLine(l.divider) && SingleLine(l.theirs)
  }

  lemma {:induction false} SurvivorsConcat(kind: Classifier, a: seq<string>, b: seq<string>, inOurs: bool)
    ensures Dropping(kind, a + b, inOurs) == Dropping(kind, b, Dropping(kind, a, inOurs))
    ensures Survivors(kind, a + b, inOurs) == Survivors(kind, a, inOurs) + Survivors(kind, b, Dropping(kind, a, inOurs))
  {
    if b == [] {
      assert a + b == a;
    } else {
      assert (a + b)[..|a + b| - 1] == a + b[..|b| - 1];
      SurvivorsConcat(kind, a, b[..|b| - 1], inOurs);
    }
  }

  lemma {:induction false} MarkerKind(mark: string, tag: string)
    requires mark in {"<<<<<<<", "|||||||", "=======", ">>>>>>>"}
    ensures KindOf(mark + tag) == if mark == "<<<<<<<" then Ours else if mark == "|||||||" then Base else if mark == "=======" then Divider else Theirs
  {
    TrimRightKeepsMark(mark, tag);
  }

  /** Trimming never reaches into the marker, which has no white space. */
  lemma {:induction false} TrimRightKeepsMark(mark: string, tag: string)
    requires mark in {"<<<<<<<", "|||||||", "=======", ">>>>>>>"}
    ensures mark <= TrimRight(mark + tag)
    decreases |tag|
  {
    var s := mark + tag;
    if tag != "" && IsSpace(s[|s| - 1]) {
      assert s[..|s| - 1] == mark + tag[..|tag| - 1];
      TrimRightKeepsMark(mark, tag[..|tag| - 1]);
    } else if tag == "" {
      assert s == mark && !IsSpace(s[6]);
    }
  }

  lemma {:induction false} MarkerLine(mark: string, tag: string, inOurs: bool)
    requires mark in {"<<<<<<<", "|||||||", "=======", ">>>>>>>"}
    ensures Survivors(KindOf, [mark + tag], inOurs) == [] && Dropping(KindOf, [mark + tag], inOurs) == (mark == "<<<<<<<" || mark == "|||||||")
  {
    MarkerKind(mark, tag);
    assert [mark + tag][..0] == [];
  }

  lemma {:induction false} SegmentResolves(s: Segment)
    requires GoodSegment(s)
    ensures Survivors(KindOf, Render(s), false) == Incoming([s]) && !Dropping(KindOf, Render(s), false)
  {
    assert [s][..0] == [];
    match s
    case Text(lines) => PlainBlock(KindOf, lines, false);
    case Conflict(ours, base, theirs, l) =>
      var a := ["<<<<<<<" + l.ours] + ours;
      MarkerLine("<<<<<<<", l.ours, false);
      SurvivorsConcat(KindOf, ["<<<<<<<" + l.ours], ours, false);
      PlainBlock(KindOf, ours, true);
      var b := if base.Some? then ["|||||||" + l.base] + base.value else [];
      if base.Some? {
        MarkerLine("|||||||", l.base, true);
        SurvivorsConcat(KindOf, ["|||||||" + l.base], base.value, true);
        PlainBlock(KindOf, base.value, true);
      }
      SurvivorsConcat(KindOf, a, b, false);
      MarkerLine("=======", l.divider, true);
      SurvivorsConcat(KindOf, a + b, ["=======" + l.divider], false);
      SurvivorsConcat(KindOf, a + b + ["=======" + l.divider], theirs, false);
      PlainBlock(KindOf, theirs, false);
      MarkerLine(">>>>>>>", l.theirs, false);
      SurvivorsConcat(KindOf, a + b + ["=======" + l.divider] + theirs, [">>>>>>>" + l.theirs], false);
  }

  lemma {:induction false} AllResolve(ss: seq<Segment>)
    requires forall i :: 0 <= i < |ss| ==> GoodSegment(ss[i])
    ensures Survivors(KindOf, RenderAll(ss), false) == Incoming(ss) && !Dropping(KindOf, RenderAll(ss), false)
    ensures SingleLines(RenderAll(ss))
  {
    if ss != [] {
      var init, s := ss[..|ss| - 1], ss[|ss| - 1];
      AllResolve(init);
      SegmentResolves(s);
      assert [s][..0] == [];
      SurvivorsConcat(KindOf, RenderAll(init), Render(s), false);
      RenderIsLines(s);
    }
  }

  lemma {:induction false} RenderIsLines(s: Segment)
    requires GoodSegment(s)
    ensures SingleLines(Render(s))
  {
  }

  /** On the text of any sequence of plain and conflicting segments with marker-free bodies,
      two-way or diff3, cleaning gives exactly the plain text and the incoming sides. */
  lemma {:induction false} MergeResolvesToIncoming(ss: seq<Segment>)
    requires forall i :: 0 <= i < |ss| ==> GoodSegment(ss[i])
    ensures Cleaned(Join(RenderAll(ss))) == Join(Incoming(ss))
  {
    AllResolve(ss);
    CleanedJoin(RenderAll(ss));
  }

  lemma {:induction false} CleanedJoin(lines: seq<string>)
    requires SingleLines(lines)
    ensures Cleaned(Join(lines)) == Join(Survivors(KindOf, lines, false))
  {
    if lines == [] {
      assert Trim("") == "" && KindOf("").Plain?;
      PlainBlock(KindOf, [""], false);
      assert Split("") == [""];
    } else {
      SplitJoin(lines);
    }
  }
}
