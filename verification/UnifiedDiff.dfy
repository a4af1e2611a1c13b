/** parseUnifiedDiff and its inverse: unified diffs as text. The printer writes the format
    of the "Diff -u or -U Output Format" part of the STDOUT section of the `diff` utility in
    POSIX.1-2008, with file headers without time stamps. */
module UnifiedDiff {
  import opened Text

  datatype Line = Line(kind: char, text: string)
  datatype Hunk = Hunk(oldStart: nat, oldCount: nat, newStart: nat, newCount: nat, lines: seq<Line>)
  datatype FileDiff = FileDiff(oldPath: string, newPath: string, hunks: seq<Hunk>)

  // ----- numbers -----

  const MAX_INT := 0x7FFF_FFFF_FFFF_FFFF

  predicate IsDigit(c: char) { '0' <= c <= '9' }

  predicate AllDigits(s: string) { forall i :: 0 <= i < |s| ==> IsDigit(s[i]) }

  function DigitCount(s: string): (r: nat)
    ensures r <= |s| && AllDigits(s[..r])
  {
    if s != "" && IsDigit(s[0]) then 1 + DigitCount(s[1..]) else 0
  }

  function Value(ds: string): nat
    requires AllDigits(ds)
  {
    if ds == "" then 0 else 10 * Value(ds[..|ds| - 1]) + (ds[|ds| - 1] as int - '0' as int)
  }

  /** strconv.Atoi on digits with its error ignored: too large a number gives the largest int. */
  function Atoi(ds: string): nat
    requires AllDigits(ds)
  {
    if Value(ds) > MAX_INT then MAX_INT else Value(ds)
  }

  function Decimal(n: nat): (r: string)
    ensures r != "" && AllDigits(r) && Value(r) == n
  {
    var d := [(n % 10 + '0' as int) as char];
    if n < 10 then
      assert d[..|d| - 1] == "";
      d
    else
      var r := Decimal(n / 10) + d;
      assert r[..|r| - 1] == Decimal(n / 10);
      r
  }

  lemma {:induction false} DigitsEnd(ds: string, rest: string)
    requires AllDigits(ds) && (rest == "" || !IsDigit(rest[0]))
    ensures DigitCount(ds + rest) == |ds|
  {
    if ds == "" {
      assert ds + rest == rest;
    } else {
      assert (ds + rest)[1..] == ds[1..] + rest;
      DigitsEnd(ds[1..], rest);
    }
  }

  /** Numbers are read as they are, up to the largest one. */
  lemma {:induction false} AtoiDecimal(n: nat)
    ensures Atoi(Decimal(n)) == if n <= MAX_INT then n else MAX_INT
  {
  }

  // ----- hunk headers: ^@@ -(\d+)(?:,(\d+))? \+(\d+)(?:,(\d+))? @@ -----

  datatype Range = Range(start: nat, count: nat, rest: string)

  function ParseRange(s: string): Option<Range> {
    var n := DigitCount(s);
    if n == 0 then None
    else Some(ParseCount(Atoi(s[..n]), s[n..]))
  }

  /** The optional count after a range's start. */
  function ParseCount(start: nat, after: string): Range {
    var m := if after != "" && after[0] == ',' then DigitCount(after[1..]) else 0;
    if m == 0 then Range(start, 1, after) else Range(start, Atoi(after[1..][..m]), after[1..][m..])
  }

  function ParseHunkHeader(line: string): Option<Hunk> {
    if !("@@ -" <= line) then None
    else
      match ParseRange(line[4..])
      case None => None
      case Some(before) =>
        if !(" +" <= before.rest) then None
        else
          match ParseRange(before.rest[2..])
          case None => None
          case Some(after) =>
            if " @@" <= after.rest then Some(Hunk(before.start, before.count, after.start, after.count, [])) else None
  }

  /** A range and the text that follows it; exactly one line is written without its count. */
  function PrintRange(start: nat, count: nat, rest: string): string {
    Decimal(start) + PrintCount(count, rest)
  }

  function PrintCount(count: nat, rest: string): string {
    if count == 1 then rest else "," + (Decimal(count) + rest)
  }

  ghost predicate Number(n: nat) { n <= MAX_INT }

  lemma {:induction false} RangeRoundTrip(start: nat, count: nat, rest: string)
    requires Number(start) && Number(count) && rest != "" && !IsDigit(rest[0]) && rest[0] != ','
    ensures ParseRange(PrintRange(start, count, rest)) == Some(Range(start, count, rest))
  {
    DigitsSplit(Decimal(start), PrintCount(count, rest));
    CountRoundTrip(start, count, rest);
  }

  lemma {:induction false} CountRoundTrip(start: nat, count: nat, rest: string)
    requires Number(count) && rest != "" && !IsDigit(rest[0]) && rest[0] != ','
    ensures ParseCount(start, PrintCount(count, rest)) == Range(start, count, rest)
  {
    if count != 1 {
      assert PrintCount(count, rest)[1..] == Decimal(count) + rest;
      DigitsSplit(Decimal(count), rest);
    }
  }

  lemma {:induction false} DigitsSplit(ds: string, rest: string)
    requires AllDigits(ds) && rest != "" && !IsDigit(rest[0])
    ensures DigitCount(ds + rest) == |ds| && (ds + rest)[..|ds|] == ds && (ds + rest)[|ds|..] == rest
  {
    DigitsEnd(ds, rest);
  }

  function PrintHeader(h: Hunk): string {
    "@@ -" + PrintRange(h.oldStart, h.oldCount, " +" + PrintRange(h.newStart, h.newCount, " @@"))
  }

  lemma {:induction false} HeaderRoundTrip(h: Hunk)
    requires Number(h.oldStart) && Number(h.oldCount) && Number(h.newStart) && Number(h.newCount)
    ensures ParseHunkHeader(PrintHeader(h)) == Some(h.(lines := []))
  {
    var tail := PrintRange(h.newStart, h.newCount, " @@");
    var body := PrintRange(h.oldStart, h.oldCount, " +" + tail);
    assert PrintHeader(h)[4..] == body && (" +" + tail)[2..] == tail;
    RangeRoundTrip(h.oldStart, h.oldCount, " +" + tail);
    RangeRoundTrip(h.newStart, h.newCount, " @@");
  }

  // ----- the line machine -----

  predicate IsEnvelope(trimmed: string) { "*** Begin Patch" <= trimmed || "*** End Patch" <= trimmed }

  predicate IsFileMarker(trimmed: string) {
    "*** Update File:" <= trimmed || "*** Add File:" <= trimmed || "*** File:" <= trimmed || "Index: " <= trimmed
  }

  function AfterMarker(trimmed: string): string
    requires IsFileMarker(trimmed)
  {
    Trim(if "*** Update File:" <= trimmed then trimmed[16..]
         else if "*** Add File:" <= trimmed then trimmed[13..]
         else if "*** File:" <= trimmed then trimmed[9..]
         else trimmed[6..])
  }

  datatype State = State(diffs: seq<FileDiff>, file: Option<FileDiff>, hunk: Option<Hunk>)

  const NoFile := FileDiff("", "", [])

  /** The hunk under construction moved into the file under construction. */
  function CloseHunk(f: FileDiff, h: Option<Hunk>): FileDiff {
    if h.Some? then f.(hunks := f.hunks + [h.value]) else f
  }

  function CloseFile(s: State): State {
    if s.file.None? then s
    else State(s.diffs + [CloseHunk(s.file.value, s.hunk)], None, None)
  }

  function OpenHunk(s: State, h: Hunk, fallback: string): State {
    var f := if s.file.Some? then s.file.value else FileDiff(fallback, fallback, []);
    State(s.diffs, Some(CloseHunk(f, s.hunk)), Some(h))
  }

  /** What one line of the patch does; the branches are tried in this order. `clean` is
      cleanDiffPath. */
  function Step(s: State, line: string, fallback: string, clean: string -> string): State {
    var trimmed := Trim(line);
    if IsEnvelope(trimmed) then s
    else if IsFileMarker(trimmed) then
      var p := clean(AfterMarker(trimmed));
      CloseFile(s).(file := Some(FileDiff(p, p, [])))
    else if "diff --git " <= line then CloseFile(s).(file := Some(NoFile))
    else if "--- " <= line then
      var s1 := if s.file.Some? && s.file.value.oldPath != "" then CloseFile(s).(file := Some(NoFile))
                else if s.file.None? then s.(file := Some(NoFile)) else s;
      s1.(file := Some(s1.file.value.(oldPath := line[4..])))
    else if "+++ " <= line then
      var f := if s.file.Some? then s.file.value else NoFile;
      s.(file := Some(f.(newPath := line[4..])))
    else InFile(s, line, ParseHunkHeader(line), "@@" <= trimmed, fallback)
  }

  /** A line that is not about files: a hunk header, with readable numbers or `bare`, or a line of
      the open hunk. */
  function InFile(s: State, line: string, header: Option<Hunk>, bare: bool, fallback: string): State {
    if header.Some? then OpenHunk(s, header.value, fallback)
    else if bare then OpenHunk(s, Hunk(0, 0, 0, 0, []), fallback)
    else if s.hunk.None? || line == "" || "\\ " <= line then s
    else
      var l := if line[0] in {' ', '-', '+'} then Line(line[0], line[1..]) else Line(' ', line);
      s.(hunk := Some(s.hunk.value.(lines := s.hunk.value.lines + [l])))
  }

  type Machine = (State, string) -> State

  function Reader(fallback: string, clean: string -> string): Machine {
    (s, line) => Step(s, line, fallback, clean)
  }

  function Consume(f: Machine, s: State, ls: seq<string>): State {
    if ls == [] then s else f(Consume(f, s, ls[..|ls| - 1]), ls[|ls| - 1])
  }

  function Finish(s: State): seq<FileDiff> {
    if s.file.Some? && CloseHunk(s.file.value, s.hunk).hunks != [] then s.diffs + [CloseHunk(s.file.value, s.hunk)] else s.diffs
  }

  const Start := State([], None, None)

  function Parsed(patch: string, fallback: string, clean: string -> string): seq<FileDiff> {
    Finish(Consume(Reader(fallback, clean), Start, Split(Unix(patch))))
  }

  /** The parser as written: a loop over the lines with a current file and a current hunk. */
  method ParseUnifiedDiff(patch: string, fallback: string, clean: string -> string) returns (diffs: seq<FileDiff>)
    ensures diffs == Parsed(patch, fallback, clean)
  {
    var lines := Split(Unix(patch));
    diffs := [];
    var file: Option<FileDiff> := None;
    var hunk: Option<Hunk> := None;
    for i := 0 to |lines|
      invariant State(diffs, file, hunk) == Consume(Reader(fallback, clean), Start, lines[..i])
    {
      assert lines[..i + 1][..i] == lines[..i];
      var line := lines[i];
      var trimmed := Trim(line);
      if IsEnvelope(trimmed) {
        continue;
      }
      if IsFileMarker(trimmed) || "diff --git " <= line {
        if file.Some? {
          diffs := diffs + [CloseHunk(file.value, hunk)];
          hunk := None;
        }
        if IsFileMarker(trimmed) {
          var p := clean(AfterMarker(trimmed));
          file := Some(FileDiff(p, p, []));
        } else {
          file := Some(NoFile);
        }
        continue;
      }
      if "--- " <= line {
        if file.Some? && file.value.oldPath != "" {
          diffs := diffs + [CloseHunk(file.value, hunk)];
          hunk := None;
          file := Some(NoFile);
        } else if file.None? {
          file := Some(NoFile);
        }
        file := Some(file.value.(oldPath := line[4..]));
        continue;
      }
      if "+++ " <= line {
        if file.None? {
          file := Some(NoFile);
        }
        file := Some(file.value.(newPath := line[4..]));
        continue;
      }
      var header := ParseHunkHeader(line);
      if header.Some? || "@@" <= trimmed {
        if file.None? {
          file := Some(FileDiff(fallback, fallback, []));
        }
        file := Some(CloseHunk(file.value, hunk));
        hunk := Some(if header.Some? then header.value else Hunk(0, 0, 0, 0, []));
        continue;
      }
      if hunk.Some? {
        if "\\ " <= line {
          continue;
        }
        if line != "" {
          var l := if line[0] == ' ' || line[0] == '-' || line[0] == '+' then Line(line[0], line[1..]) else Line(' ', line);
          hunk := Some(hunk.value.(lines := hunk.value.lines + [l]));
        }
      }
    }
    assert lines[..|lines|] == lines;
    if hunk.Some? && file.Some? {
      file := Some(CloseHunk(file.value, hunk));
    }
    if file.Some? && file.value.hunks != [] {
      diffs := diffs + [file.value];
    }
  }

  // ----- the printer -----

  function PrintLine(l: Line): string { [l.kind] + l.text }

  function PrintLines(ls: seq<Line>): seq<string> {
    if ls == [] then [] else PrintLines(ls[..|ls| - 1]) + [PrintLine(ls[|ls| - 1])]
  }

  type Header = Hunk -> string

  /** How the lines above hunks and above files are written. */
  datatype Layout = Layout(header: Header, heading: FileDiff -> seq<string>)

  const PlainHeader: Header := h => PrintHeader(h)

  const Unified: Layout := Layout(PlainHeader, (f: FileDiff) => ["--- " + f.oldPath, "+++ " + f.newPath])

  function PrintHunks(header: Header, hs: seq<Hunk>): seq<string> {
    if hs == [] then []
    else
      var h := hs[|hs| - 1];
      PrintHunks(header, hs[..|hs| - 1]) + ([header(h)] + PrintLines(h.lines))
  }

  function PrintFile(p: Layout, f: FileDiff): seq<string> {
    p.heading(f) + PrintHunks(p.header, f.hunks)
  }

  function PrintFiles(p: Layout, fs: seq<FileDiff>): seq<string> {
    if fs == [] then [] else PrintFiles(p, fs[..|fs| - 1]) + PrintFile(p, fs[|fs| - 1])
  }

  /** Every line, the last one included, ends with a newline. */
  function PrintAs(p: Layout, fs: seq<FileDiff>): string {
    Join(PrintFiles(p, fs) + [""])
  }

  function Print(fs: seq<FileDiff>): string { PrintAs(Unified, fs) }

  // ----- what can be printed faithfully -----

  /** Text that stays one line when it ends a line of the patch. */
  ghost predicate LineSafe(s: string) { SingleLine(s) && (s == "" || s[|s| - 1] != '\r') }

  ghost predicate ReadsAsHeader(line: string) {
    var trimmed := Trim(line);
    IsEnvelope(trimmed) || IsFileMarker(trimmed) || "--- " <= line || "+++ " <= line || "@@" <= trimmed
  }

  ghost predicate GoodLine(l: Line) {
    l.kind in {' ', '-', '+'} && LineSafe(l.text) && !ReadsAsHeader(PrintLine(l))
  }

  ghost predicate GoodHunk(h: Hunk) {
    && Number(h.oldStart) && Number(h.oldCount) && Number(h.newStart) && Number(h.newCount)
    && forall i :: 0 <= i < |h.lines| ==> GoodLine(h.lines[i])
  }

  ghost predicate GoodHunks(hs: seq<Hunk>) { forall i :: 0 <= i < |hs| ==> GoodHunk(hs[i]) }

  ghost predicate GoodPaths(f: FileDiff) { LineSafe(f.oldPath) && LineSafe(f.newPath) }

  ghost predicate GoodFile(f: FileDiff) { GoodPaths(f) && GoodHunks(f.hunks) }

  /** A file that is followed by another one needs an old path to be told apart from it. */
  ghost predicate GoodFiles(fs: seq<FileDiff>) {
    && (forall k :: 0 <= k < |fs| ==> GoodFile(fs[k]))
    && (forall k :: 0 <= k < |fs| - 1 ==> fs[k].oldPath != "")
  }

  // ----- the round trip: what any line machine with these three reactions does -----

  ghost predicate ReadsLines(f: Machine, good: Line -> bool) {
    forall s: State, l: Line :: s.hunk.Some? && good(l) ==> f(s, PrintLine(l)) == WithLine(s, l)
  }

  ghost function WithLine(s: State, l: Line): State
    requires s.hunk.Some?
  {
    s.(hunk := Some(s.hunk.value.(lines := s.hunk.value.lines + [l])))
  }

  ghost predicate ReadsHeaders(f: Machine, header: Header) {
    forall s: State, h: Hunk :: s.file.Some? && GoodHunk(h) ==>
      f(s, header(h)) == State(s.diffs, Some(CloseHunk(s.file.value, s.hunk)), Some(h.(lines := [])))
  }

  type Headed = FileDiff -> bool
  type Ready = State -> bool

  /** A file's heading closes what was open and opens the file. */
  ghost predicate ReadsHeadings(f: Machine, p: Layout, good: Headed, ready: Ready) {
    forall s: State, file: FileDiff :: ready(s) && good(file) ==>
      Consume(f, s, p.heading(file)) == State(CloseFile(s).diffs, Some(file.(hunks := [])), None)
  }

  lemma {:induction false} ConsumeConcat(f: Machine, s: State, a: seq<string>, b: seq<string>)
    ensures Consume(f, s, a + b) == Consume(f, Consume(f, s, a), b)
  {
    if b == [] {
      assert a + b == a;
    } else {
      assert (a + b)[..|a + b| - 1] == a + b[..|b| - 1];
      ConsumeConcat(f, s, a, b[..|b| - 1]);
    }
  }

  lemma {:induction false} LinesRoundTrip(f: Machine, good: Line -> bool, s: State, ls: seq<Line>)
    requires ReadsLines(f, good) && s.hunk.Some? && forall i :: 0 <= i < |ls| ==> good(ls[i])
    ensures Consume(f, s, PrintLines(ls)) == WithLines(s, ls)
  {
    if ls == [] {
      assert s.hunk.value.lines + [] == s.hunk.value.lines;
    } else {
      var init, last := ls[..|ls| - 1], ls[|ls| - 1];
      LinesRoundTrip(f, good, s, init);
      ConsumeMore(f, s, PrintLines(init), PrintLine(last));
      ReadOne(f, good, WithLines(s, init), last);
      WithLinesAppend(s, init, last);
      assert init + [last] == ls;
    }
  }

  lemma {:induction false} ConsumeMore(f: Machine, s: State, ls: seq<string>, x: string)
    ensures Consume(f, s, ls + [x]) == f(Consume(f, s, ls), x)
  {
    assert (ls + [x])[..|ls|] == ls;
  }

  lemma {:induction false} ReadOne(f: Machine, good: Line -> bool, s: State, l: Line)
    requires ReadsLines(f, good) && s.hunk.Some? && good(l)
    ensures f(s, PrintLine(l)) == WithLine(s, l)
  {
  }

  ghost function WithLines(s: State, ls: seq<Line>): (r: State)
    requires s.hunk.Some?
    ensures r.hunk.Some?
  {
    s.(hunk := Some(s.hunk.value.(lines := s.hunk.value.lines + ls)))
  }

  lemma {:induction false} WithLinesAppend(s: State, init: seq<Line>, last: Line)
    requires s.hunk.Some?
    ensures WithLine(WithLines(s, init), last) == WithLines(s, init + [last])
  {
    assert s.hunk.value.lines + init + [last] == s.hunk.value.lines + (init + [last]);
  }

  /** A file being read: all its hunks but the last are closed, the last is still open. */
  ghost function Reading(diffs: seq<FileDiff>, f: FileDiff): State {
    if f.hunks == [] then State(diffs, Some(f), None)
    else State(diffs, Some(f.(hunks := f.hunks[..|f.hunks| - 1])), Some(f.hunks[|f.hunks| - 1]))
  }

  lemma {:induction false} ReadingCloses(diffs: seq<FileDiff>, f: FileDiff)
    ensures CloseHunk(Reading(diffs, f).file.value, Reading(diffs, f).hunk) == f
  {
    if f.hunks != [] {
      assert f.hunks[..|f.hunks| - 1] + [f.hunks[|f.hunks| - 1]] == f.hunks;
    }
  }

  lemma {:induction false} HunkRoundTrip(f: Machine, header: Header, diffs: seq<FileDiff>, file: FileDiff, h: Hunk)
    requires ReadsLines(f, l => GoodLine(l)) && ReadsHeaders(f, header) && GoodHunk(h)
    ensures Consume(f, Reading(diffs, file), [header(h)] + PrintLines(h.lines))
         == Reading(diffs, file.(hunks := file.hunks + [h]))
  {
    var s := Reading(diffs, file);
    ConsumeConcat(f, s, [header(h)], PrintLines(h.lines));
    assert [header(h)][..0] == [];
    assert Consume(f, s, [header(h)]) == f(s, header(h));
    ReadingCloses(diffs, file);
    var begun := State(diffs, Some(file), Some(h.(lines := [])));
    assert f(s, header(h)) == begun;
    LinesRoundTrip(f, l => GoodLine(l), begun, h.lines);
    assert [] + h.lines == h.lines;
  }

  ghost predicate ReadsHunks(f: Machine, header: Header, good: Hunk -> bool) {
    forall diffs: seq<FileDiff>, file: FileDiff, h: Hunk :: good(h) ==>
      Consume(f, Reading(diffs, file), [header(h)] + PrintLines(h.lines)) == Reading(diffs, file.(hunks := file.hunks + [h]))
  }

  lemma {:induction false} HunksRoundTrip(f: Machine, header: Header, good: Hunk -> bool, diffs: seq<FileDiff>, file: FileDiff)
    requires ReadsHunks(f, header, good) && forall i :: 0 <= i < |file.hunks| ==> good(file.hunks[i])
    ensures Consume(f, State(diffs, Some(file.(hunks := [])), None), PrintHunks(header, file.hunks)) == Reading(diffs, file)
    decreases |file.hunks|
  {
    if file.hunks != [] {
      var init, h := file.hunks[..|file.hunks| - 1], file.hunks[|file.hunks| - 1];
      var s := State(diffs, Some(file.(hunks := [])), None);
      HunksRoundTrip(f, header, good, diffs, file.(hunks := init));
      assert init + [h] == file.hunks;
      ConsumeConcat(f, s, PrintHunks(header, init), [header(h)] + PrintLines(h.lines));
      assert good(h);
    }
  }

  lemma {:induction false} FileRoundTrip(f: Machine, p: Layout, good: Headed, ready: Ready, s: State, file: FileDiff)
    requires ReadsHunks(f, p.header, h => GoodHunk(h)) && ReadsHeadings(f, p, good, ready)
    requires ready(s) && good(file) && GoodHunks(file.hunks)
    ensures Consume(f, s, PrintFile(p, file)) == Reading(CloseFile(s).diffs, file)
  {
    ConsumeConcat(f, s, p.heading(file), PrintHunks(p.header, file.hunks));
    HunksRoundTrip(f, p.header, h => GoodHunk(h), CloseFile(s).diffs, file);
  }

  /** The files can be printed one after the other: each is good, and the state its reading
      leaves is one that the next heading is understood in. */
  ghost predicate Printable(good: Headed, ready: Ready, fs: seq<FileDiff>) {
    && ready(Start)
    && (forall k :: 0 <= k < |fs| ==> good(fs[k]) && GoodHunks(fs[k].hunks))
    && (forall k, diffs :: 0 <= k < |fs| - 1 ==> ready(Reading(diffs, fs[k])))
  }

  lemma {:induction false} FilesRoundTrip(f: Machine, p: Layout, good: Headed, ready: Ready, fs: seq<FileDiff>)
    requires ReadsHunks(f, p.header, h => GoodHunk(h)) && ReadsHeadings(f, p, good, ready)
    requires Printable(good, ready, fs) && fs != []
    ensures Consume(f, Start, PrintFiles(p, fs)) == Reading(fs[..|fs| - 1], fs[|fs| - 1])
  {
    var init, file := fs[..|fs| - 1], fs[|fs| - 1];
    var s := Consume(f, Start, PrintFiles(p, init));
    if init != [] {
      FilesRoundTrip(f, p, good, ready, init);
      ReadingClosesFile(init);
      assert ready(Reading(init[..|init| - 1], fs[|init| - 1]));
    }
    FileRoundTrip(f, p, good, ready, s, file);
    ConsumeConcat(f, Start, PrintFiles(p, init), PrintFile(p, file));
  }

  lemma {:induction false} ReadingClosesFile(fs: seq<FileDiff>)
    requires fs != []
    ensures var s := Reading(fs[..|fs| - 1], fs[|fs| - 1]); s.file.Some? && CloseFile(s).diffs == fs
  {
    var init, last := fs[..|fs| - 1], fs[|fs| - 1];
    ReadingCloses(init, last);
    assert init + [last] == fs;
  }

  // ----- the parser is such a machine -----

  lemma {:induction false} HeadDecides(line: string)
    requires line != "" && line[0] in {'-', '+', '@'}
    ensures !IsEnvelope(Trim(line)) && !IsFileMarker(Trim(line))
  {
    TrimKeepsHead(line);
  }

  lemma {:induction false} ReaderReadsLines(fallback: string, clean: string -> string)
    ensures ReadsLines(Reader(fallback, clean), l => GoodLine(l))
  {
    forall s: State, l: Line | s.hunk.Some? && GoodLine(l)
      ensures Step(s, PrintLine(l), fallback, clean) == WithLine(s, l)
    {
      var line := PrintLine(l);
      assert line[0] == l.kind && line[1..] == l.text;
      assert ParseHunkHeader(line).None?;
    }
  }

  lemma {:induction false} ReaderReadsHeaders(fallback: string, clean: string -> string)
    ensures ReadsHeaders(Reader(fallback, clean), PlainHeader)
  {
    forall s: State, h: Hunk | s.file.Some? && GoodHunk(h)
      ensures Step(s, PrintHeader(h), fallback, clean) == State(s.diffs, Some(CloseHunk(s.file.value, s.hunk)), Some(h.(lines := [])))
    {
      StepReadsHeader(s, h, fallback, clean);
    }
  }

  lemma {:induction false} StepReadsHeader(s: State, h: Hunk, fallback: string, clean: string -> string)
    requires s.file.Some? && GoodHunk(h)
    ensures Step(s, PrintHeader(h), fallback, clean) == State(s.diffs, Some(CloseHunk(s.file.value, s.hunk)), Some(h.(lines := [])))
  {
    HeaderRoundTrip(h);
    HeadDecides(PrintHeader(h));
    assert PrintHeader(h)[0] == '@';
  }

  /** Without a line of its own above it, a `--- ` line starts a new file only if the open one
      has its old path already. */
  const UnifiedReady: Ready := (s: State) => s == Start || (s.file.Some? && s.file.value.oldPath != "")

  lemma {:induction false} StepReadsPaths(s: State, file: FileDiff, fallback: string, clean: string -> string)
    requires s == Start || s.file.Some?
    ensures var s1 := if s.file.Some? && s.file.value.oldPath != "" then State(CloseFile(s).diffs, Some(NoFile), None)
                      else if s.file.None? then State([], Some(NoFile), None) else s;
            Step(Step(s, "--- " + file.oldPath, fallback, clean), "+++ " + file.newPath, fallback, clean)
              == s1.(file := Some(FileDiff(file.oldPath, file.newPath, s1.file.value.hunks)))
  {
    var a, b := "--- " + file.oldPath, "+++ " + file.newPath;
    HeadDecides(a);
    HeadDecides(b);
    assert a[4..] == file.oldPath && b[4..] == file.newPath;
  }

  lemma {:induction false} ConsumeTwo(f: Machine, s: State, a: string, b: string)
    ensures Consume(f, s, [a, b]) == f(f(s, a), b)
  {
    assert [a, b][..1] == [a] && [a][..0] == [];
    assert Consume(f, s, [a]) == f(s, a);
  }

  lemma {:induction false} ReaderReadsPaths(fallback: string, clean: string -> string)
    ensures ReadsHeadings(Reader(fallback, clean), Unified, f => GoodPaths(f), UnifiedReady)
  {
    forall s: State, file: FileDiff | UnifiedReady(s)
      ensures Consume(Reader(fallback, clean), s, Unified.heading(file)) == State(CloseFile(s).diffs, Some(file.(hunks := [])), None)
    {
      ConsumeTwo(Reader(fallback, clean), s, "--- " + file.oldPath, "+++ " + file.newPath);
      StepReadsPaths(s, file, fallback, clean);
    }
  }

  lemma {:induction false} ReaderReadsHunks(fallback: string, clean: string -> string)
    ensures ReadsHunks(Reader(fallback, clean), PlainHeader, h => GoodHunk(h))
  {
    var f := Reader(fallback, clean);
    ReaderReadsLines(fallback, clean);
    ReaderReadsHeaders(fallback, clean);
    forall diffs: seq<FileDiff>, file: FileDiff, h: Hunk | GoodHunk(h)
      ensures Consume(f, Reading(diffs, file), [PlainHeader(h)] + PrintLines(h.lines)) == Reading(diffs, file.(hunks := file.hunks + [h]))
    {
      HunkRoundTrip(f, PlainHeader, diffs, file, h);
    }
  }

  // ----- from lines to text -----

  lemma {:induction false} DecimalSafe(n: nat)
    ensures LineSafe(Decimal(n))
  {
    forall c | c in Decimal(n) ensures IsDigit(c) {
    }
  }

  ghost predicate LinesSafe(ls: seq<string>) { forall i :: 0 <= i < |ls| ==> LineSafe(ls[i]) }

  lemma {:induction false} PrintedLinesSafe(ls: seq<Line>)
    requires forall i :: 0 <= i < |ls| ==> GoodLine(ls[i])
    ensures LinesSafe(PrintLines(ls))
  {
    if ls != [] {
      PrintedLinesSafe(ls[..|ls| - 1]);
      assert GoodLine(ls[|ls| - 1]);
    }
  }

  lemma {:induction false} SafeTail(a: string, b: string)
    requires LineSafe(a) && LineSafe(b)
    ensures LineSafe(a + b)
  {
  }

  lemma {:induction false} RangeSafe(start: nat, count: nat, rest: string)
    requires LineSafe(rest)
    ensures LineSafe(PrintRange(start, count, rest))
  {
    DecimalSafe(start);
    DecimalSafe(count);
    SafeTail(Decimal(count), rest);
    SafeTail(",", Decimal(count) + rest);
    SafeTail(Decimal(start), PrintCount(count, rest));
  }

  lemma {:induction false} HeaderSafe(h: Hunk)
    ensures LineSafe(PrintHeader(h))
  {
    RangeSafe(h.newStart, h.newCount, " @@");
    SafeTail(" +", PrintRange(h.newStart, h.newCount, " @@"));
    RangeSafe(h.oldStart, h.oldCount, " +" + PrintRange(h.newStart, h.newCount, " @@"));
    SafeTail("@@ -", PrintRange(h.oldStart, h.oldCount, " +" + PrintRange(h.newStart, h.newCount, " @@")));
  }

  /** Headings are single lines. */
  ghost predicate SafeLayout(p: Layout, good: Headed) {
    && (forall h :: LineSafe(p.header(h)))
    && (forall f :: good(f) ==> LinesSafe(p.heading(f)))
  }

  lemma {:induction false} HeaderIsSafe()
    ensures forall h :: LineSafe(PlainHeader(h))
  {
    forall h ensures LineSafe(PlainHeader(h)) {
      HeaderSafe(h);
    }
  }

  lemma {:induction false} PathsSafe(f: FileDiff)
    requires GoodPaths(f)
    ensures LinesSafe(["--- " + f.oldPath, "+++ " + f.newPath])
  {
    SafeTail("--- ", f.oldPath);
    SafeTail("+++ ", f.newPath);
  }

  lemma {:induction false} UnifiedIsSafe()
    ensures SafeLayout(Unified, f => GoodPaths(f))
  {
    HeaderIsSafe();
    forall f | GoodPaths(f) ensures LinesSafe(Unified.heading(f)) {
      PathsSafe(f);
    }
  }

  lemma {:induction false} PrintedHunksSafe(header: Header, hs: seq<Hunk>)
    requires (forall h :: LineSafe(header(h))) && GoodHunks(hs)
    ensures LinesSafe(PrintHunks(header, hs))
  {
    if hs != [] {
      var h := hs[|hs| - 1];
      PrintedHunksSafe(header, hs[..|hs| - 1]);
      assert GoodHunk(h);
      PrintedLinesSafe(h.lines);
      SafeConcat([header(h)], PrintLines(h.lines));
      SafeConcat(PrintHunks(header, hs[..|hs| - 1]), [header(h)] + PrintLines(h.lines));
    }
  }

  lemma {:induction false} PrintedFilesSafe(p: Layout, good: Headed, fs: seq<FileDiff>)
    requires SafeLayout(p, good) && forall i :: 0 <= i < |fs| ==> good(fs[i]) && GoodHunks(fs[i].hunks)
    ensures LinesSafe(PrintFiles(p, fs))
  {
    if fs != [] {
      var f := fs[|fs| - 1];
      PrintedFilesSafe(p, good, fs[..|fs| - 1]);
      assert good(f);
      PrintedHunksSafe(p.header, f.hunks);
      SafeConcat(p.heading(f), PrintHunks(p.header, f.hunks));
      SafeConcat(PrintFiles(p, fs[..|fs| - 1]), PrintFile(p, f));
    }
  }

  lemma {:induction false} SafeConcat(a: seq<string>, b: seq<string>)
    requires LinesSafe(a) && LinesSafe(b)
    ensures LinesSafe(a + b)
  {
  }

  /** Joining such lines creates no carriage-return/newline pair. */
  lemma {:induction false} JoinSafe(ls: seq<string>)
    requires LinesSafe(ls)
    ensures Unix(Join(ls)) == Join(ls)
  {
    forall i ensures !HasCrLfAt(Join(ls), i) {
      NoCrLf(ls, i);
    }
    UnixIdentity(Join(ls));
  }

  lemma {:induction false} NoCrLf(ls: seq<string>, i: int)
    requires LinesSafe(ls)
    ensures !HasCrLfAt(Join(ls), i)
  {
    if |ls| == 1 {
      assert LineSafe(ls[0]);
    } else if |ls| > 1 {
      var a, b := ls[0], Join(ls[1..]);
      NoCrLf(ls[1..], i - |a| - 1);
      assert LineSafe(a);
    }
  }

  /** Text made of safe lines is read line by line. */
  lemma {:induction false} ParsedLines(ls: seq<string>, fallback: string, clean: string -> string)
    requires LinesSafe(ls) && ls != []
    ensures Parsed(Join(ls), fallback, clean) == Finish(Consume(Reader(fallback, clean), Start, ls))
  {
    JoinSafe(ls);
    SplitJoin(ls);
  }

  lemma {:induction false} FinishesWhatWasRead(fs: seq<FileDiff>)
    requires fs != []
    ensures Finish(Reading(fs[..|fs| - 1], fs[|fs| - 1])) == if fs[|fs| - 1].hunks == [] then fs[..|fs| - 1] else fs
  {
    ReadingCloses(fs[..|fs| - 1], fs[|fs| - 1]);
    assert fs[..|fs| - 1] + [fs[|fs| - 1]] == fs;
  }

  ghost predicate SkipsBlank(f: Machine) { forall s :: f(s, "") == s }

  lemma {:induction false} ReaderSkipsBlank(fallback: string, clean: string -> string)
    ensures SkipsBlank(Reader(fallback, clean))
  {
    assert Trim("") == "";
  }

  lemma {:induction false} TrailingBlank(f: Machine, s: State, ls: seq<string>)
    requires SkipsBlank(f)
    ensures Consume(f, s, ls + [""]) == Consume(f, s, ls)
  {
    assert (ls + [""])[..|ls|] == ls;
  }

  /** The round trip for any layout that the parser reads. */
  lemma {:induction false} LayoutRoundTrip(p: Layout, good: Headed, ready: Ready, fs: seq<FileDiff>, fallback: string, clean: string -> string)
    requires ReadsHunks(Reader(fallback, clean), p.header, h => GoodHunk(h)) && ReadsHeadings(Reader(fallback, clean), p, good, ready)
    requires SafeLayout(p, good) && Printable(good, ready, fs)
    ensures Parsed(PrintAs(p, fs), fallback, clean) == if fs != [] && fs[|fs| - 1].hunks == [] then fs[..|fs| - 1] else fs
  {
    PrintedFilesSafe(p, good, fs);
    SafeConcat(PrintFiles(p, fs), [""]);
    ParsedLines(PrintFiles(p, fs) + [""], fallback, clean);
    ReaderSkipsBlank(fallback, clean);
    TrailingBlank(Reader(fallback, clean), Start, PrintFiles(p, fs));
    if fs != [] {
      FilesRoundTrip(Reader(fallback, clean), p, good, ready, fs);
      FinishesWhatWasRead(fs);
    }
  }

  /** Printing any number of well-formed file diffs and parsing the text gives back exactly
      the same files, hunks, counts and lines, except that a last file without a hunk is
      lost. So the round trip is exact if and only if the last file has a hunk. */
  lemma {:induction false} PrintParseRoundTrip(fs: seq<FileDiff>, fallback: string, clean: string -> string)
    requires GoodFiles(fs)
    ensures fs == [] || fs[|fs| - 1].hunks != [] ==> Parsed(Print(fs), fallback, clean) == fs
    ensures fs != [] && fs[|fs| - 1].hunks == [] ==> Parsed(Print(fs), fallback, clean) == fs[..|fs| - 1]
  {
    ReaderReadsHunks(fallback, clean);
    ReaderReadsPaths(fallback, clean);
    UnifiedIsSafe();
    UnifiedPrintable(fs);
    LayoutRoundTrip(Unified, f => GoodPaths(f), UnifiedReady, fs, fallback, clean);
  }

  lemma {:induction false} UnifiedPrintable(fs: seq<FileDiff>)
    requires GoodFiles(fs)
    ensures Printable(f => GoodPaths(f), UnifiedReady, fs)
  {
  }
}
