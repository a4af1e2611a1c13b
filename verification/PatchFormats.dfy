/** The other patch texts parseUnifiedDiff accepts: Git's, the envelope format with `*** ` file
    markers, hunks without any heading, and lines that a model writes carelessly. */
module PatchFormats {
  import opened Text
  import opened UnifiedDiff

  lemma {:induction false} PlainHead(line: string)
    requires line != "" && !IsSpace(line[0]) && line[0] != '*' && line[0] != 'I'
    ensures !IsEnvelope(Trim(line)) && !IsFileMarker(Trim(line)) && Trim(line) != "" && Trim(line)[0] == line[0]
  {
    TrimKeepsHead(line);
  }

  lemma {:induction false} ConsumeOne(f: Machine, s: State, x: string)
    ensures Consume(f, s, [x]) == f(s, x)
  {
    assert [x][..0] == [];
  }

  /** A state in which nothing is open but what belongs to an open file. */
  const AnyReady: Ready := (s: State) => s.file.None? ==> s.hunk.None?

  // ----- Git -----

  /** A line that is none of the headings; outside a hunk it is ignored. */
  ghost predicate Inert(line: string) { !ReadsAsHeader(line) && !("diff --git " <= line) }

  ghost predicate InertLines(ls: seq<string>) { forall i :: 0 <= i < |ls| ==> Inert(ls[i]) && LineSafe(ls[i]) }

  lemma {:induction false} HeaderShows(line: string)
    requires ParseHunkHeader(line).Some?
    ensures "@@" <= Trim(line)
  {
    AtSignsShow(line);
  }

  lemma {:induction false} AtSignsShow(line: string)
    ensures "@@ -" <= line ==> "@@" <= Trim(line)
  {
    if "@@ -" <= line {
      assert line == "" + "@@" + line[2..];
      PrefixSurvivesTrim("", "@@", line[2..]);
    }
  }

  lemma {:induction false} InertIgnored(s: State, line: string, fallback: string, clean: string -> string)
    requires Inert(line) && s.hunk.None?
    ensures Step(s, line, fallback, clean) == s
  {
    if ParseHunkHeader(line).Some? {
      HeaderShows(line);
    }
  }

  lemma {:induction false} InertLinesIgnored(s: State, ls: seq<string>, fallback: string, clean: string -> string)
    requires InertLines(ls) && s.hunk.None?
    ensures Consume(Reader(fallback, clean), s, ls) == s
  {
    if ls != [] {
      InertLinesIgnored(s, ls[..|ls| - 1], fallback, clean);
      InertIgnored(s, ls[|ls| - 1], fallback, clean);
    }
  }

  /** A `diff --git` line, any lines such as modes and object ids, and the two paths. */
  function Git(title: FileDiff -> string, extra: FileDiff -> seq<string>): Layout {
    Layout(PlainHeader, (f: FileDiff) => ["diff --git " + title(f)] + extra(f) + ["--- " + f.oldPath, "+++ " + f.newPath])
  }

  ghost function GitGood(title: FileDiff -> string, extra: FileDiff -> seq<string>): Headed {
    f => GoodPaths(f) && LineSafe(title(f)) && InertLines(extra(f))
  }

  lemma {:induction false} GitLineCloses(s: State, title: string, fallback: string, clean: string -> string)
    requires s.file.None? ==> s.hunk.None?
    ensures Step(s, "diff --git " + title, fallback, clean) == State(CloseFile(s).diffs, Some(NoFile), None)
  {
    var line := "diff --git " + title;
    assert line[0] == 'd' && line[..11] == "diff --git ";
    PlainHead(line);
  }

  lemma {:induction false} GitHeadingRead(s: State, title: string, extra: seq<string>, f: FileDiff, fallback: string, clean: string -> string)
    requires (s.file.None? ==> s.hunk.None?) && InertLines(extra)
    ensures Consume(Reader(fallback, clean), s, ["diff --git " + title] + extra + ["--- " + f.oldPath, "+++ " + f.newPath])
         == State(CloseFile(s).diffs, Some(f.(hunks := [])), None)
  {
    var m, first, paths := Reader(fallback, clean), "diff --git " + title, ["--- " + f.oldPath, "+++ " + f.newPath];
    ConsumeConcat(m, s, [first] + extra, paths);
    ConsumeConcat(m, s, [first], extra);
    ConsumeOne(m, s, first);
    GitLineCloses(s, title, fallback, clean);
    var s1 := State(CloseFile(s).diffs, Some(NoFile), None);
    InertLinesIgnored(s1, extra, fallback, clean);
    ConsumeTwo(m, s1, "--- " + f.oldPath, "+++ " + f.newPath);
    StepReadsPaths(s1, f, fallback, clean);
  }

  lemma {:induction false} ReaderReadsGit(title: FileDiff -> string, extra: FileDiff -> seq<string>, fallback: string, clean: string -> string)
    ensures ReadsHeadings(Reader(fallback, clean), Git(title, extra), GitGood(title, extra), AnyReady)
  {
    forall s: State, f: FileDiff | AnyReady(s) && GitGood(title, extra)(f)
      ensures Consume(Reader(fallback, clean), s, Git(title, extra).heading(f)) == State(CloseFile(s).diffs, Some(f.(hunks := [])), None)
    {
      GitHeadingRead(s, title(f), extra(f), f, fallback, clean);
    }
  }

  lemma {:induction false} GitIsSafe(title: FileDiff -> string, extra: FileDiff -> seq<string>)
    ensures SafeLayout(Git(title, extra), GitGood(title, extra))
  {
    HeaderIsSafe();
    forall f | GitGood(title, extra)(f) ensures LinesSafe(Git(title, extra).heading(f)) {
      SafeTail("diff --git ", title(f));
      PathsSafe(f);
      SafeConcat(["diff --git " + title(f)], extra(f));
      SafeConcat(["diff --git " + title(f)] + extra(f), ["--- " + f.oldPath, "+++ " + f.newPath]);
    }
  }

  /** Git's format reads back exactly: every file is kept apart by its `diff --git` line, whatever
      that line says, whatever harmless lines follow it, and even with empty paths. */
  lemma {:induction false} GitRoundTrip(title: FileDiff -> string, extra: FileDiff -> seq<string>, fs: seq<FileDiff>, fallback: string, clean: string -> string)
    requires forall k :: 0 <= k < |fs| ==> GoodFile(fs[k]) && LineSafe(title(fs[k])) && InertLines(extra(fs[k]))
    ensures Parsed(PrintAs(Git(title, extra), fs), fallback, clean) == if fs != [] && fs[|fs| - 1].hunks == [] then fs[..|fs| - 1] else fs
  {
    ReaderReadsHunks(fallback, clean);
    ReaderReadsGit(title, extra, fallback, clean);
    GitIsSafe(title, extra);
    assert Printable(GitGood(title, extra), AnyReady, fs);
    LayoutRoundTrip(Git(title, extra), GitGood(title, extra), AnyReady, fs, fallback, clean);
  }

  // ----- file markers -----

  predicate IsMarker(m: string) { m in ["*** Update File:", "*** Add File:", "*** File:", "Index:"] }

  /** Text after a marker is found again, trimmed. */
  lemma {:induction false} MarkerRest(m: string, name: string)
    requires m != "" && Tight(m)
    ensures var line := Trim(m + " " + name); m <= line && Trim(line[|m|..]) == Trim(name)
    ensures Trim(name) != "" ==> m + " " <= Trim(m + " " + name)
  {
    var pre, mid, post := TrimParts(name);
    if mid == "" {
      assert name == pre;
      BlankRest(m, name);
    } else {
      NameRest(m, pre, mid, post);
      assert m + " " + name == m + " " + pre + mid + post;
    }
  }

  lemma {:induction false} BlankRest(m: string, name: string)
    requires m != "" && Tight(m) && AllSpace(name)
    ensures Trim(m + " " + name) == m && Trim(m[|m|..]) == ""
  {
    assert m + " " + name == "" + m + (" " + name);
    TrimUnique("", m, " " + name);
    TrimUnique("", "", "");
    assert m[|m|..] == "" + "" + "";
  }

  lemma {:induction false} NameRest(m: string, pre: string, mid: string, post: string)
    requires m != "" && Tight(m) && AllSpace(pre) && AllSpace(post) && mid != "" && Tight(mid)
    ensures var line := Trim(m + " " + pre + mid + post); m + " " <= line && Trim(line[|m|..]) == mid
  {
    var line := m + " " + pre + mid;
    assert m + " " + pre + mid + post == "" + line + post;
    assert line[|line| - 1] == mid[|mid| - 1] && line[0] == m[0];
    TrimUnique("", line, post);
    assert line[|m|..] == (" " + pre) + mid + "";
    TrimUnique(" " + pre, mid, "");
    assert line == m + " " + (pre + mid);
  }

  lemma {:induction false} MarkerOpens(s: State, m: string, name: string, fallback: string, clean: string -> string)
    requires IsMarker(m) && (m == "Index:" ==> Trim(name) != "") && (s.file.None? ==> s.hunk.None?)
    ensures var p := clean(Trim(name)); Step(s, m + " " + name, fallback, clean) == State(CloseFile(s).diffs, Some(FileDiff(p, p, [])), None)
  {
    MarkerSafe(m);
    MarkerRest(m, name);
    var line := Trim(m + " " + name);
    MarkerDecides(m, line);
  }

  lemma {:induction false} MarkerDecides(m: string, line: string)
    requires IsMarker(m) && m <= line && (m == "Index:" ==> "Index: " <= line)
    ensures !IsEnvelope(line) && IsFileMarker(line) && AfterMarker(line) == Trim(line[|m|..])
  {
    assert line[..|m|] == m;
    if m == "Index:" {
      assert line[0] == 'I';
    } else {
      assert line[4] == m[4] && line[0] == '*';
    }
  }

  /** One marker line above each file, in any of its four spellings. */
  function Marked(m: string, name: FileDiff -> string): Layout {
    Layout(PlainHeader, (f: FileDiff) => [m + " " + name(f)])
  }

  ghost function MarkedGood(m: string, name: FileDiff -> string, clean: string -> string): Headed {
    f => LineSafe(name(f)) && (m == "Index:" ==> Trim(name(f)) != "") && f.oldPath == f.newPath == clean(Trim(name(f)))
  }

  lemma {:induction false} ReaderReadsMarkers(m: string, name: FileDiff -> string, fallback: string, clean: string -> string)
    requires IsMarker(m)
    ensures ReadsHeadings(Reader(fallback, clean), Marked(m, name), MarkedGood(m, name, clean), AnyReady)
  {
    forall s: State, f: FileDiff | AnyReady(s) && MarkedGood(m, name, clean)(f)
      ensures Consume(Reader(fallback, clean), s, Marked(m, name).heading(f)) == State(CloseFile(s).diffs, Some(f.(hunks := [])), None)
    {
      ConsumeOne(Reader(fallback, clean), s, m + " " + name(f));
      MarkerOpens(s, m, name(f), fallback, clean);
    }
  }

  lemma {:induction false} MarkerSafe(m: string)
    requires IsMarker(m)
    ensures LineSafe(m + " ") && m != "" && Tight(m)
  {
  }

  lemma {:induction false} MarkedIsSafe(m: string, name: FileDiff -> string, clean: string -> string)
    requires IsMarker(m)
    ensures SafeLayout(Marked(m, name), MarkedGood(m, name, clean))
  {
    HeaderIsSafe();
    MarkerSafe(m);
    forall f | MarkedGood(m, name, clean)(f) ensures LinesSafe(Marked(m, name).heading(f)) {
      SafeTail(m + " ", name(f));
    }
  }

  /** The envelope format reads back exactly: the cleaned name is both the old and the new path. */
  lemma {:induction false} MarkedRoundTrip(m: string, name: FileDiff -> string, fs: seq<FileDiff>, fallback: string, clean: string -> string)
    requires IsMarker(m)
    requires forall k :: 0 <= k < |fs| ==> LineSafe(name(fs[k])) && GoodHunks(fs[k].hunks) && (m == "Index:" ==> Trim(name(fs[k])) != "")
    requires forall k :: 0 <= k < |fs| ==> fs[k].oldPath == fs[k].newPath == clean(Trim(name(fs[k])))
    ensures Parsed(PrintAs(Marked(m, name), fs), fallback, clean) == if fs != [] && fs[|fs| - 1].hunks == [] then fs[..|fs| - 1] else fs
  {
    ReaderReadsHunks(fallback, clean);
    ReaderReadsMarkers(m, name, fallback, clean);
    MarkedIsSafe(m, name, clean);
    assert Printable(MarkedGood(m, name, clean), AnyReady, fs);
    LayoutRoundTrip(Marked(m, name), MarkedGood(m, name, clean), AnyReady, fs, fallback, clean);
  }

  // ----- hunks without a heading -----

  lemma {:induction false} SameFromFirstLine(f: Machine, s: State, s': State, ls: seq<string>)
    requires ls != [] && f(s, ls[0]) == f(s', ls[0])
    ensures Consume(f, s, ls) == Consume(f, s', ls)
  {
    assert ls == [ls[0]] + ls[1..];
    ConsumeConcat(f, s, [ls[0]], ls[1..]);
    ConsumeConcat(f, s', [ls[0]], ls[1..]);
    ConsumeOne(f, s, ls[0]);
    ConsumeOne(f, s', ls[0]);
  }

  lemma {:induction false} FirstIsHeader(header: Header, hs: seq<Hunk>)
    requires hs != []
    ensures PrintHunks(header, hs) != [] && PrintHunks(header, hs)[0] == header(hs[0])
  {
    if |hs| > 1 {
      FirstIsHeader(header, hs[..|hs| - 1]);
    }
  }

  lemma {:induction false} NotAboutFiles(s: State, line: string, fallback: string, clean: string -> string)
    requires line != "" && line[0] != '-' && line[0] != '+' && line[0] != 'd' && !IsEnvelope(Trim(line)) && !IsFileMarker(Trim(line))
    ensures Step(s, line, fallback, clean) == InFile(s, line, ParseHunkHeader(line), "@@" <= Trim(line), fallback)
  {
  }

  lemma {:induction false} HeaderOpens(s: State, h: Hunk, fallback: string, clean: string -> string)
    requires GoodHunk(h)
    ensures Step(s, PrintHeader(h), fallback, clean) == OpenHunk(s, h.(lines := []), fallback)
  {
    HeaderRoundTrip(h);
    HeaderHead(h);
    PlainHead(PrintHeader(h));
    NotAboutFiles(s, PrintHeader(h), fallback, clean);
  }

  lemma {:induction false} HeaderHead(h: Hunk)
    ensures PrintHeader(h) != "" && PrintHeader(h)[0] == '@'
  {
  }

  lemma {:induction false} HeaderOpensFallback(h: Hunk, fallback: string, clean: string -> string)
    requires GoodHunk(h)
    ensures Step(Start, PrintHeader(h), fallback, clean) == Step(State([], Some(FileDiff(fallback, fallback, [])), None), PrintHeader(h), fallback, clean)
  {
    HeaderOpens(Start, h, fallback, clean);
    HeaderOpens(State([], Some(FileDiff(fallback, fallback, [])), None), h, fallback, clean);
  }

  /** Hunks that no file heading precedes belong to the fallback path. */
  lemma {:induction false} HeadlessHunksReadAsFallback(hs: seq<Hunk>, fallback: string, clean: string -> string)
    requires hs != [] && GoodHunks(hs)
    ensures Parsed(Join(PrintHunks(PlainHeader, hs)), fallback, clean) == [FileDiff(fallback, fallback, hs)]
  {
    var f, file, ls := Reader(fallback, clean), FileDiff(fallback, fallback, hs), PrintHunks(PlainHeader, hs);
    HeaderIsSafe();
    PrintedHunksSafe(PlainHeader, hs);
    FirstIsHeader(PlainHeader, hs);
    ParsedLines(ls, fallback, clean);
    assert GoodHunk(hs[0]);
    HeaderOpensFallback(hs[0], fallback, clean);
    SameFromFirstLine(f, Start, State([], Some(file.(hunks := [])), None), ls);
    ReaderReadsHunks(fallback, clean);
    HunksRoundTrip(f, PlainHeader, h => GoodHunk(h), [], file);
    ReadingCloses([], file);
  }

  lemma {:induction false} NewPathOpens(path: string, fallback: string, clean: string -> string)
    ensures Step(Start, "+++ " + path, fallback, clean) == State([], Some(FileDiff("", path, [])), None)
  {
    var line := "+++ " + path;
    assert line[0] == '+' && line[4..] == path;
    PlainHead(line);
  }

  /** A `+++ ` line alone is heading enough. */
  lemma {:induction false} NewPathAloneIsAHeading(path: string, hs: seq<Hunk>, fallback: string, clean: string -> string)
    requires hs != [] && GoodHunks(hs) && LineSafe(path)
    ensures Parsed(Join(["+++ " + path] + PrintHunks(PlainHeader, hs)), fallback, clean) == [FileDiff("", path, hs)]
  {
    var f, file, first, rest := Reader(fallback, clean), FileDiff("", path, hs), "+++ " + path, PrintHunks(PlainHeader, hs);
    HeaderIsSafe();
    PrintedHunksSafe(PlainHeader, hs);
    SafeTail("+++ ", path);
    SafeConcat([first], rest);
    ParsedLines([first] + rest, fallback, clean);
    ConsumeConcat(f, Start, [first], rest);
    ConsumeOne(f, Start, first);
    NewPathOpens(path, fallback, clean);
    ReaderReadsHunks(fallback, clean);
    HunksRoundTrip(f, PlainHeader, h => GoodHunk(h), [], file);
    ReadingCloses([], file);
  }

  /** Windows line ends make no difference. */
  lemma {:induction false} WindowsTextReadsAlike(ls: seq<string>, fallback: string, clean: string -> string)
    requires LinesSafe(ls) && ls != []
    ensures Parsed(JoinDos(ls), fallback, clean) == Parsed(Join(ls), fallback, clean)
  {
    UnixOfDos(ls);
    JoinSafe(ls);
  }

  // ----- single lines, anywhere in a patch -----

  /** Two lines that every state reads alike can be exchanged in any text. */
  lemma {:induction false} SameLineSameText(a: seq<string>, x: string, y: string, b: seq<string>, fallback: string, clean: string -> string)
    requires LinesSafe(a) && LineSafe(x) && LineSafe(y) && LinesSafe(b)
    requires forall s :: Reader(fallback, clean)(s, x) == Reader(fallback, clean)(s, y)
    ensures Parsed(Join(a + [x] + b), fallback, clean) == Parsed(Join(a + [y] + b), fallback, clean)
  {
    ReadsAs(a, x, b, fallback, clean);
    ReadsAs(a, y, b, fallback, clean);
  }

  lemma {:induction false} ReadsAs(a: seq<string>, x: string, b: seq<string>, fallback: string, clean: string -> string)
    requires LinesSafe(a) && LineSafe(x) && LinesSafe(b)
    ensures var f := Reader(fallback, clean);
            Parsed(Join(a + [x] + b), fallback, clean) == Finish(Consume(f, f(Consume(f, Start, a), x), b))
  {
    var f := Reader(fallback, clean);
    SafeConcat(a, [x]);
    SafeConcat(a + [x], b);
    ParsedLines(a + [x] + b, fallback, clean);
    ConsumeConcat(f, Start, a + [x], b);
    ConsumeConcat(f, Start, a, [x]);
    ConsumeOne(f, Consume(f, Start, a), x);
  }

  /** A line that no state reacts to can be left out. */
  lemma {:induction false} SkippedLine(a: seq<string>, x: string, b: seq<string>, fallback: string, clean: string -> string)
    requires LinesSafe(a) && LineSafe(x) && LinesSafe(b) && a + b != []
    requires forall s :: Reader(fallback, clean)(s, x) == s
    ensures Parsed(Join(a + [x] + b), fallback, clean) == Parsed(Join(a + b), fallback, clean)
  {
    ReadsAs(a, x, b, fallback, clean);
    SafeConcat(a, b);
    ParsedLines(a + b, fallback, clean);
    ConsumeConcat(Reader(fallback, clean), Start, a, b);
  }

  /** `*** Begin Patch` and `*** End Patch` lines, also indented, change nothing. */
  lemma {:induction false} EnvelopeIgnored(a: seq<string>, indent: string, tail: string, begin: bool, b: seq<string>, fallback: string, clean: string -> string)
    requires LinesSafe(a) && LinesSafe(b) && a + b != [] && AllSpace(indent)
    requires LineSafe(indent + (if begin then "*** Begin Patch" else "*** End Patch") + tail)
    ensures Parsed(Join(a + [indent + (if begin then "*** Begin Patch" else "*** End Patch") + tail] + b), fallback, clean) == Parsed(Join(a + b), fallback, clean)
  {
    var mark := if begin then "*** Begin Patch" else "*** End Patch";
    PrefixSurvivesTrim(indent, mark, tail);
    SkippedLine(a, indent + mark + tail, b, fallback, clean);
  }

  /** So do lines such as `\ No newline at end of file`. */
  lemma {:induction false} NoNewlineNoteIgnored(a: seq<string>, note: string, b: seq<string>, fallback: string, clean: string -> string)
    requires LinesSafe(a) && LinesSafe(b) && a + b != [] && LineSafe("\\ " + note)
    ensures Parsed(Join(a + ["\\ " + note] + b), fallback, clean) == Parsed(Join(a + b), fallback, clean)
  {
    var line := "\\ " + note;
    assert line[0] == '\\' && line[1] == ' ';
    PlainHead(line);
    SkippedLine(a, line, b, fallback, clean);
  }

  /** A line that starts with `@@`, also indented, but has no readable numbers opens a hunk as a
      header with all numbers zero does. */
  lemma {:induction false} BareHeaderReadsAsZeros(a: seq<string>, indent: string, tail: string, b: seq<string>, fallback: string, clean: string -> string)
    requires LinesSafe(a) && LinesSafe(b) && AllSpace(indent) && LineSafe(indent + "@@" + tail)
    requires ParseHunkHeader(indent + "@@" + tail).None?
    ensures Parsed(Join(a + [indent + "@@" + tail] + b), fallback, clean) == Parsed(Join(a + [PrintHeader(Hunk(0, 0, 0, 0, []))] + b), fallback, clean)
  {
    var line, zero := indent + "@@" + tail, Hunk(0, 0, 0, 0, []);
    PrefixSurvivesTrim(indent, "@@", tail);
    assert if indent == "" then line[0] == '@' else line[0] == indent[0];
    HeaderSafe(zero);
    forall s ensures Reader(fallback, clean)(s, line) == Reader(fallback, clean)(s, PrintHeader(zero)) {
      BareOpens(s, line, fallback, clean);
      HeaderOpens(s, zero, fallback, clean);
    }
    SameLineSameText(a, line, PrintHeader(zero), b, fallback, clean);
  }

  lemma {:induction false} BareOpens(s: State, line: string, fallback: string, clean: string -> string)
    requires line != "" && (line[0] == '@' || IsSpace(line[0])) && "@@" <= Trim(line) && ParseHunkHeader(line).None?
    ensures Step(s, line, fallback, clean) == OpenHunk(s, Hunk(0, 0, 0, 0, []), fallback)
  {
    assert Trim(line)[0] == '@';
    NotAboutFiles(s, line, fallback, clean);
  }

  /** A line of a hunk without a sign in front reads as that line with a space in front. */
  lemma {:induction false} UnsignedLineIsContext(a: seq<string>, line: string, b: seq<string>, fallback: string, clean: string -> string)
    requires LinesSafe(a) && LinesSafe(b) && LineSafe(line) && line != "" && Inert(line)
    requires line[0] != ' ' && line[0] != '-' && line[0] != '+' && line[0] != '\\'
    ensures Parsed(Join(a + [line] + b), fallback, clean) == Parsed(Join(a + [" " + line] + b), fallback, clean)
  {
    SameTrim(line);
    forall s ensures Reader(fallback, clean)(s, line) == Reader(fallback, clean)(s, " " + line) {
      UnsignedStep(s, line, fallback, clean);
    }
    SafeTail(" ", line);
    SameLineSameText(a, line, " " + line, b, fallback, clean);
  }

  lemma {:induction false} SameTrim(line: string)
    ensures Trim(" " + line) == Trim(line)
  {
    var pre, mid, post := TrimParts(line);
    assert " " + line == (" " + pre) + mid + post;
    TrimUnique(" " + pre, mid, post);
  }

  lemma {:induction false} UnsignedStep(s: State, line: string, fallback: string, clean: string -> string)
    requires line != "" && Inert(line) && line[0] != ' ' && line[0] != '-' && line[0] != '+' && line[0] != '\\'
    ensures Step(s, line, fallback, clean) == Step(s, " " + line, fallback, clean)
  {
    SameTrim(line);
    if ParseHunkHeader(line).Some? {
      HeaderShows(line);
    }
    assert (" " + line)[0] == ' ' && (" " + line)[1..] == line;
  }
}
