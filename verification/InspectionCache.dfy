/** TaskDiagnosticCache: cached inspection and diagnostic results, against what a fresh tool run
    in the present workspace would return. */
module InspectionCache {
  import opened Text

  // -- Calls and their keys --

  /** A tool argument with its value already rendered. */
  datatype Arg = Arg(name: string, value: string)

  /** A tool call; its arguments are listed in name order. */
  datatype Call = Call(tool: string, args: seq<Arg>)

  function Part(a: Arg): string { a.name + "=" + a.value }

  function Parts(args: seq<Arg>): string
    requires args != []
  {
    if |args| == 1 then Part(args[0]) else Part(args[0]) + "&" + Parts(args[1..])
  }

  /** buildArgsKey */
  function Key(c: Call): string {
    if c.args == [] then c.tool else c.tool + ":" + Parts(c.args)
  }

  /** Argument names are plain and no value holds an ampersand. */
  predicate Plain(c: Call) {
    ':' !in c.tool && forall i :: 0 <= i < |c.args| ==> PlainArg(c.args[i])
  }

  predicate PlainArg(a: Arg) { '=' !in a.name && '&' !in a.name && '&' !in a.value }

  /** At most one argument, of any value. */
  predicate Single(c: Call) { ':' !in c.tool && |c.args| <= 1 && (c.args != [] ==> '=' !in c.args[0].name) }

  lemma {:induction false} SeparatorSplits(a: string, x: string, b: string, y: string, sep: char)
    requires sep !in a && sep !in b && a + [sep] + x == b + [sep] + y
    ensures a == b && x == y
  {
    var s, t := a + [sep] + x, b + [sep] + y;
    assert s[|a|] == sep && t[|b|] == sep;
    assert a == s[..|a|] && b == t[..|b|] && x == s[|a| + 1..] && y == t[|b| + 1..];
  }

  lemma {:induction false} SeparatorShows(a: string, x: string, sep: char)
    ensures sep in a + [sep] + x
  {
    assert (a + [sep] + x)[|a|] == sep;
  }

  lemma {:induction false} PartInjective(a: Arg, b: Arg)
    requires '=' !in a.name && '=' !in b.name && Part(a) == Part(b)
    ensures a == b
  {
    SeparatorSplits(a.name, a.value, b.name, b.value, '=');
  }

  lemma {:induction false} PartsInjective(s: seq<Arg>, t: seq<Arg>)
    requires s != [] && t != [] && Parts(s) == Parts(t)
    requires forall i :: 0 <= i < |s| ==> PlainArg(s[i])
    requires forall i :: 0 <= i < |t| ==> PlainArg(t[i])
    ensures s == t
  {
    if |s| > 1 && |t| > 1 {
      SeparatorSplits(Part(s[0]), Parts(s[1..]), Part(t[0]), Parts(t[1..]), '&');
      PartInjective(s[0], t[0]);
      PartsInjective(s[1..], t[1..]);
      assert s == [s[0]] + s[1..] && t == [t[0]] + t[1..];
    } else if |s| > 1 {
      SeparatorShows(Part(s[0]), Parts(s[1..]), '&');
      assert false;
    } else if |t| > 1 {
      SeparatorShows(Part(t[0]), Parts(t[1..]), '&');
      assert false;
    } else {
      PartInjective(s[0], t[0]);
    }
  }

  /** Two calls of the same family share a key only if they are the same call. */
  lemma {:induction false} KeyInjective(c: Call, d: Call)
    requires (Plain(c) && Plain(d)) || (Single(c) && Single(d))
    requires Key(c) == Key(d)
    ensures c == d
  {
    if c.args == [] && d.args != [] {
      SeparatorShows(d.tool, Parts(d.args), ':');
      assert false;
    } else if c.args != [] && d.args == [] {
      SeparatorShows(c.tool, Parts(c.args), ':');
      assert false;
    } else if c.args != [] {
      SeparatorSplits(c.tool, Parts(c.args), d.tool, Parts(d.args), ':');
      if Plain(c) && Plain(d) {
        PartsInjective(c.args, d.args);
      } else {
        PartInjective(c.args[0], d.args[0]);
      }
    }
  }

  /** All arguments folded into the value of the first. */
  function Folded(c: Call): Call
    requires |c.args| >= 2
  {
    Call(c.tool, [Arg(c.args[0].name, c.args[0].value + "&" + Parts(c.args[1..]))])
  }

  /** Every call with two or more arguments shares its key with a call that has one. */
  lemma {:induction false} ManyArgumentsCollide(c: Call)
    requires |c.args| >= 2
    ensures Key(Folded(c)) == Key(c) && Folded(c) != c
  {
    var a, rest := c.args[0], Parts(c.args[1..]);
    assert a.name + "=" + (a.value + "&" + rest) == a.name + "=" + a.value + "&" + rest;
  }

  /** The order sort.Strings puts names in. */
  predicate NameLess(a: string, b: string) {
    a != b && (a <= b || exists k :: 0 <= k < |a| && k < |b| && a[..k] == b[..k] && a[k] < b[k])
  }

  predicate PlainName(name: string) { '=' !in name && '&' !in name }

  /** A call as tools make it: plain argument names, listed in their order. */
  ghost predicate WellFormed(c: Call) {
    && ':' !in c.tool && (forall i :: 0 <= i < |c.args| ==> PlainName(c.args[i].name))
    && forall i, j :: 0 <= i < j < |c.args| ==> NameLess(c.args[i].name, c.args[j].name)
  }

  /** Between an ampersand at p and an equals sign at q the value spells a later argument name. */
  predicate HidesArgument(a: Arg, p: int, q: int) {
    0 <= p < q < |a.value| && a.value[p] == '&' && a.value[q] == '=' && PlainName(a.value[p + 1..q]) && NameLess(a.name, a.value[p + 1..q])
  }

  ghost predicate SharesKeyWithMany(c: Call) {
    exists d :: WellFormed(d) && |d.args| >= 2 && Key(d) == Key(c)
  }

  /** A call with one argument shares its key with one that has more if and only if its value
      hides an argument. */
  lemma {:induction false} OneArgumentCollidesIff(c: Call)
    requires WellFormed(c) && |c.args| == 1
    ensures SharesKeyWithMany(c) <==> exists p, q :: HidesArgument(c.args[0], p, q)
  {
    var a := c.args[0];
    if d :| WellFormed(d) && |d.args| >= 2 && Key(d) == Key(c) {
      SeparatorSplits(c.tool, Parts(c.args), d.tool, Parts(d.args), ':');
      var _, _ := ManyHideOne(a, d.args);
    }
    if p, q :| HidesArgument(a, p, q) {
      var d := Call(c.tool, [Arg(a.name, a.value[..p]), Arg(a.value[p + 1..q], a.value[q + 1..])]);
      UnfoldedKey(c, d, p, q);
      assert WellFormed(d);
    }
  }

  lemma {:induction false} ManyHideOne(a: Arg, args: seq<Arg>) returns (p: nat, q: nat)
    requires PlainName(a.name) && |args| >= 2 && Part(a) == Parts(args)
    requires PlainName(args[0].name) && PlainName(args[1].name) && NameLess(args[0].name, args[1].name)
    ensures HidesArgument(a, p, q)
  {
    var first, second := args[0], args[1];
    var rest := Parts(args[1..]);
    assert first.name + "=" + first.value + "&" + rest == first.name + "=" + (first.value + "&" + rest);
    SeparatorSplits(a.name, a.value, first.name, first.value + "&" + rest, '=');
    var tail := StartsWithName(args[1..]);
    p, q := |first.value|, |first.value| + 1 + |second.name|;
    assert a.value == first.value + "&" + (second.name + "=" + tail);
    assert a.value[p + 1..q] == second.name && a.value[q] == '=';
  }

  lemma {:induction false} StartsWithName(args: seq<Arg>) returns (tail: string)
    requires args != []
    ensures Parts(args) == args[0].name + "=" + tail
  {
    var a := args[0];
    if |args| == 1 {
      tail := a.value;
    } else {
      tail := a.value + "&" + Parts(args[1..]);
      assert a.name + "=" + a.value + "&" + Parts(args[1..]) == a.name + "=" + tail;
    }
  }

  lemma {:induction false} UnfoldedKey(c: Call, d: Call, p: int, q: int)
    requires |c.args| == 1 && HidesArgument(c.args[0], p, q)
    requires var a := c.args[0]; d == Call(c.tool, [Arg(a.name, a.value[..p]), Arg(a.value[p + 1..q], a.value[q + 1..])])
    ensures Key(d) == Key(c)
  {
    var v := c.args[0].value;
    ManyArgumentsCollide(d);
    assert d.args[1..] == [d.args[1]];
    assert v[..p] + "&" + (v[p + 1..q] + "=" + v[q + 1..]) == v;
  }

  // -- The cache --

  /** A diagnostic tool's result, kept even when the tool failed. */
  datatype Diagnostic = Diagnostic(output: string, err: Option<string>)

  datatype Entry = Entry(output: string, checksum: string, fromSeed: bool)

  datatype Cache = Cache(enabled: bool, isDirty: bool, tests: Option<Diagnostic>, linter: Option<Diagnostic>, inspections: map<string, Entry>)

  datatype Answer = Miss | Hit(text: string) | AlreadyInContext

  const Prefix := "[Cached Result - Workspace Unmodified]\n"

  predicate Tracked(tool: string) { tool in ["write_file", "edit_file", "multi_replace_file_content", "delete_file"] }

  /** Mutators that the cache does not watch. */
  predicate Untracked(tool: string) { tool in ["write_files", "apply_patch"] }

  predicate Mutates(tool: string) { Tracked(tool) || Untracked(tool) }

  predicate Inspection(tool: string) { tool in ["list_directory", "read_file", "find_files", "grep_search"] }

  /** The cache after a tool ran. */
  function Executed(c: Cache, call: Call, output: string, err: Option<string>, sha: string -> string): Cache {
    if !c.enabled then c
    else if Tracked(call.tool) then c.(isDirty := true, inspections := map[])
    else if call.tool == "run_tests" then c.(tests := Some(Diagnostic(output, err)), isDirty := false)
    else if call.tool == "run_linter" then c.(linter := Some(Diagnostic(output, err)), isDirty := false)
    else if Inspection(call.tool) && err.None? then
      c.(inspections := c.inspections[Key(call) := Entry(output, sha(output), false)], isDirty := false)
    else c
  }

  function ReadCall(path: string): Call { Call("read_file", [Arg("path", path)]) }

  function Seeded(c: Cache, path: string, content: string, sha: string -> string): Cache {
    if !c.enabled || path == "" then c
    else c.(inspections := c.inspections[Key(ReadCall(path)) := Entry(content, sha(content), true)], isDirty := false)
  }

  /** What a lookup answers and the cache it leaves. `disk` is the file's content when the
      lookup was for a named file that could be read. */
  function Asked(c: Cache, call: Call, disk: Option<string>, sha: string -> string): (Answer, Cache) {
    if !c.enabled || c.isDirty || Key(call) !in c.inspections then (Miss, c)
    else
      var e := c.inspections[Key(call)];
      if call.tool == "read_file" && disk.Some? && sha(disk.value) != e.checksum then
        (Miss, c.(inspections := c.inspections - {Key(call)}))
      else if call.tool == "read_file" && e.fromSeed then (AlreadyInContext, c)
      else (Hit(Prefix + e.output), c)
  }

  class TaskDiagnosticCache {
    const sha: string -> string
    const enabled: bool
    var isDirty: bool
    var tests: Option<Diagnostic>
    var linter: Option<Diagnostic>
    var inspections: map<string, Entry>

    function Value(): Cache
      reads this
    {
      Cache(enabled, isDirty, tests, linter, inspections)
    }

    constructor (enabled: bool, sha: string -> string)
      ensures Value() == Empty(enabled) && this.sha == sha
    {
      this.enabled, this.sha := enabled, sha;
      isDirty, tests, linter, inspections := false, None, None, map[];
    }

    method OnToolExecuted(call: Call, output: string, err: Option<string>)
      modifies this
      ensures Value() == Executed(old(Value()), call, output, err, sha)
    {
      if !enabled {
        return;
      }
      match call.tool {
        case "write_file" | "edit_file" | "multi_replace_file_content" | "delete_file" =>
          isDirty, inspections := true, map[];
        case "run_tests" =>
          tests, isDirty := Some(Diagnostic(output, err)), false;
        case "run_linter" =>
          linter, isDirty := Some(Diagnostic(output, err)), false;
        case "list_directory" | "read_file" | "find_files" | "grep_search" =>
          if err.None? {
            inspections := inspections[Key(call) := Entry(output, sha(output), false)];
            isDirty := false;
          }
        case _ =>
      }
    }

    method SeedFileContent(path: string, content: string)
      modifies this
      ensures Value() == Seeded(old(Value()), path, content, sha)
    {
      if !enabled || path == "" {
        return;
      }
      inspections := inspections[Key(ReadCall(path)) := Entry(content, sha(content), true)];
      isDirty := false;
    }

    method TryGetCachedResult(tool: string) returns (r: Option<Diagnostic>)
      ensures r == Served(Value(), tool)
    {
      if !enabled || isDirty {
        return None;
      }
      if tool == "run_tests" && tests.Some? {
        return Some(Diagnostic(Prefix + tests.value.output, tests.value.err));
      }
      if tool == "run_linter" && linter.Some? {
        return Some(Diagnostic(Prefix + linter.value.output, linter.value.err));
      }
      r := None;
    }

    method TryGetCachedInspection(call: Call, disk: Option<string>) returns (r: Answer)
      modifies this
      ensures (r, Value()) == Asked(old(Value()), call, disk, sha)
    {
      if !enabled || isDirty {
        return Miss;
      }
      var key := Key(call);
      if key !in inspections {
        return Miss;
      }
      var res := inspections[key];
      if call.tool == "read_file" {
        if disk.Some? && sha(disk.value) != res.checksum {
          inspections := inspections - {key};
          return Miss;
        }
        if res.fromSeed {
          return AlreadyInContext;
        }
      }
      r := Hit(Prefix + res.output);
    }
  }

  function Empty(enabled: bool): Cache { Cache(enabled, false, None, None, map[]) }

  /** The diagnostic result served for a tool, if any. */
  function Served(c: Cache, tool: string): Option<Diagnostic> {
    var kept := if tool == "run_tests" then c.tests else if tool == "run_linter" then c.linter else None;
    if c.enabled && !c.isDirty && kept.Some? then Some(Diagnostic(Prefix + kept.value.output, kept.value.err)) else None
  }

  function LinterResult(c: Cache): Option<Diagnostic> { Served(c, "run_linter") }

  // -- Runs over a changing workspace --

  datatype Event<W> =
    | Ran(call: Call, output: string, err: Option<string>, after: W)
    | Seed(path: string, content: string)
    | Ask(call: Call, disk: Option<string>)

  /** What tools return in a workspace: an inspection's output if it succeeds, the linter's result. */
  datatype Tools<!W> = Tools(inspect: (Call, W) -> Option<string>, lint: W -> Diagnostic, sha: string -> string)

  function Next<W>(t: Tools<W>, c: Cache, e: Event<W>): Cache {
    match e
    case Ran(call, output, err, _) => Executed(c, call, output, err, t.sha)
    case Seed(path, content) => Seeded(c, path, content, t.sha)
    case Ask(call, disk) => Asked(c, call, disk, t.sha).1
  }

  function Cached<W>(t: Tools<W>, enabled: bool, es: seq<Event<W>>): Cache {
    if es == [] then Empty(enabled) else Next(t, Cached(t, enabled, es[..|es| - 1]), es[|es| - 1])
  }

  function World<W>(w: W, es: seq<Event<W>>): W {
    if es == [] then w else if es[|es| - 1].Ran? then es[|es| - 1].after else World(w, es[..|es| - 1])
  }

  /** A tool run reports what the workspace holds, and only mutators change it. */
  ghost predicate TruthfulEvent<W>(t: Tools<W>, w: W, e: Event<W>) {
    e.Ran? ==>
      && (Mutates(e.call.tool) || e.after == w)
      && (Inspection(e.call.tool) && e.err.None? ==> t.inspect(e.call, w) == Some(e.output))
      && (e.call.tool == "run_linter" ==> t.lint(w) == Diagnostic(e.output, e.err))
  }

  ghost predicate Truthful<W>(t: Tools<W>, w: W, es: seq<Event<W>>) {
    es == [] || (Truthful(t, w, es[..|es| - 1]) && TruthfulEvent(t, World(w, es[..|es| - 1]), es[|es| - 1]))
  }

  /** And only the tracked mutators change it. */
  ghost predicate HonestEvent<W>(t: Tools<W>, w: W, e: Event<W>) {
    TruthfulEvent(t, w, e) && (e.Ran? ==> Tracked(e.call.tool) || e.after == w)
  }

  ghost predicate Honest<W>(t: Tools<W>, w: W, es: seq<Event<W>>) {
    es == [] || (Honest(t, w, es[..|es| - 1]) && HonestEvent(t, World(w, es[..|es| - 1]), es[|es| - 1]))
  }

  /** A cache that was switched off never stores anything. */
  lemma {:induction false} DisabledStaysEmpty<W>(t: Tools<W>, enabled: bool, es: seq<Event<W>>)
    ensures var c := Cached(t, enabled, es); c.enabled == enabled && (enabled || c == Empty(false))
  {
    if es != [] {
      DisabledStaysEmpty(t, enabled, es[..|es| - 1]);
    }
  }

  /** Every entry stands for a call made, or a file seeded, in this run. */
  ghost predicate Justified<W>(t: Tools<W>, w: W, es: seq<Event<W>>, key: string, e: Entry) {
    if e.fromSeed then exists i :: 0 <= i < |es| && SeededAs(t, es[i], key, e)
    else exists i :: 0 <= i < |es| && RanAs(t, w, es[i], key, e)
  }

  ghost predicate SeededAs<W>(t: Tools<W>, ev: Event<W>, key: string, e: Entry) {
    ev.Seed? && Key(ReadCall(ev.path)) == key && e.checksum == t.sha(ev.content)
  }

  ghost predicate RanAs<W>(t: Tools<W>, w: W, ev: Event<W>, key: string, e: Entry) {
    ev.Ran? && Key(ev.call) == key && t.inspect(ev.call, w) == Some(e.output)
  }

  ghost predicate Coherent<W>(t: Tools<W>, w: W, es: seq<Event<W>>, c: Cache) {
    forall key :: key in c.inspections ==> Justified(t, w, es, key, c.inspections[key])
  }

  lemma {:induction false} JustifiedLonger<W>(t: Tools<W>, w: W, es: seq<Event<W>>, ev: Event<W>, key: string, e: Entry)
    requires Justified(t, w, es, key, e)
    ensures Justified(t, w, es + [ev], key, e)
  {
    if e.fromSeed {
      var i :| 0 <= i < |es| && SeededAs(t, es[i], key, e);
      assert SeededAs(t, (es + [ev])[i], key, e);
    } else {
      var i :| 0 <= i < |es| && RanAs(t, w, es[i], key, e);
      assert RanAs(t, w, (es + [ev])[i], key, e);
    }
  }

  lemma {:induction false} StepKeepsCoherence<W>(t: Tools<W>, w: W, es: seq<Event<W>>, c: Cache, ev: Event<W>)
    requires Coherent(t, w, es, c) && HonestEvent(t, w, ev) && (c.enabled || c == Empty(false))
    ensures Coherent(t, if ev.Ran? then ev.after else w, es + [ev], Next(t, c, ev))
  {
    var w', c' := if ev.Ran? then ev.after else w, Next(t, c, ev);
    forall key | key in c'.inspections ensures Justified(t, w', es + [ev], key, c'.inspections[key]) {
      var e := c'.inspections[key];
      if key in c.inspections && c.inspections[key] == e && w' == w {
        JustifiedLonger(t, w, es, ev, key, e);
      } else if e.fromSeed {
        assert SeededAs(t, (es + [ev])[|es|], key, e);
      } else {
        assert RanAs(t, w', (es + [ev])[|es|], key, e);
      }
    }
  }

  lemma {:induction false} RunIsCoherent<W>(t: Tools<W>, enabled: bool, w: W, es: seq<Event<W>>)
    requires Honest(t, w, es)
    ensures Coherent(t, World(w, es), es, Cached(t, enabled, es))
  {
    if es != [] {
      var earlier := es[..|es| - 1];
      RunIsCoherent(t, enabled, w, earlier);
      DisabledStaysEmpty(t, enabled, earlier);
      StepKeepsCoherence(t, World(w, earlier), earlier, Cached(t, enabled, earlier), es[|es| - 1]);
      assert earlier + [es[|es| - 1]] == es;
    }
  }

  /** No other call of the run shares this call's key. */
  ghost predicate KeyIsOwn<W>(es: seq<Event<W>>, call: Call) {
    forall i :: 0 <= i < |es| && es[i].Ran? && Key(es[i].call) == Key(call) ==> es[i].call == call
  }

  lemma {:induction false} SeedKeysAreReads(call: Call, path: string)
    requires ':' !in call.tool && Key(call) == Key(ReadCall(path))
    ensures call.tool == "read_file"
  {
    var parts := Parts(ReadCall(path).args);
    if call.args == [] {
      SeparatorShows("read_file", parts, ':');
      assert false;
    } else {
      SeparatorSplits(call.tool, Parts(call.args), "read_file", parts, ':');
    }
  }

  /** In every run whose workspace changes only through the tracked mutators, an inspection hit
      carries exactly the output a fresh call would return now, and a hit on seeded content that
      could be compared with the disk has the checksum of content seeded for that file. */
  lemma {:induction false} HitsAreFresh<W>(t: Tools<W>, enabled: bool, w: W, es: seq<Event<W>>, call: Call, disk: Option<string>)
    requires Honest(t, w, es) && KeyIsOwn(es, call) && ':' !in call.tool
    ensures var r := Asked(Cached(t, enabled, es), call, disk, t.sha).0;
            && (r.Hit? ==> t.inspect(call, World(w, es)).Some? && r.text == Prefix + t.inspect(call, World(w, es)).value)
            && (r.AlreadyInContext? && disk.Some? ==>
                  exists i :: 0 <= i < |es| && es[i].Seed? && Key(ReadCall(es[i].path)) == Key(call) && t.sha(es[i].content) == t.sha(disk.value))
  {
    RunIsCoherent(t, enabled, w, es);
    var c := Cached(t, enabled, es);
    if Key(call) in c.inspections {
      var e := c.inspections[Key(call)];
      assert Justified(t, World(w, es), es, Key(call), e);
      if e.fromSeed {
        var i :| 0 <= i < |es| && SeededAs(t, es[i], Key(call), e);
        SeedKeysAreReads(call, es[i].path);
      }
    }
  }

  /** Keys are a run's own when all its calls have at most one argument, or all are plain. */
  lemma {:induction false} FamiliesOwnTheirKeys<W>(es: seq<Event<W>>, call: Call)
    requires (Single(call) && forall i :: 0 <= i < |es| && es[i].Ran? ==> Single(es[i].call))
          || (Plain(call) && forall i :: 0 <= i < |es| && es[i].Ran? ==> Plain(es[i].call))
    ensures KeyIsOwn(es, call)
  {
    forall i | 0 <= i < |es| && es[i].Ran? && Key(es[i].call) == Key(call) ensures es[i].call == call {
      KeyInjective(es[i].call, call);
    }
  }

  /** An event that cannot disturb the entry of `call` with this output. */
  ghost predicate Harmless<W>(t: Tools<W>, e: Event<W>, call: Call, output: string) {
    match e
    case Ran(other, _, err, _) => !Tracked(other.tool) && (Inspection(other.tool) && err.None? ==> Key(other) != Key(call))
    case Seed(path, _) => Key(ReadCall(path)) != Key(call)
    case Ask(other, disk) => Key(other) == Key(call) && disk.Some? ==> t.sha(disk.value) == t.sha(output)
  }

  /** The cache would serve this output for the call. */
  ghost predicate Holds<W>(t: Tools<W>, c: Cache, call: Call, output: string) {
    c.enabled && !c.isDirty && Key(call) in c.inspections && c.inspections[Key(call)] == Entry(output, t.sha(output), false)
  }

  lemma {:induction false} HarmlessKeeps<W>(t: Tools<W>, c: Cache, e: Event<W>, call: Call, output: string)
    requires Holds(t, c, call, output) && Harmless(t, e, call, output)
    ensures Holds(t, Next(t, c, e), call, output)
  {
    if e.Ask? && Key(e.call) == Key(call) {
      assert Next(t, c, e) == c;
    }
  }

  lemma {:induction false} CachedAppend<W>(t: Tools<W>, enabled: bool, es: seq<Event<W>>, e: Event<W>)
    ensures Cached(t, enabled, es + [e]) == Next(t, Cached(t, enabled, es), e)
  {
    assert (es + [e])[..|es|] == es;
  }

  lemma {:induction false} StillHeld<W>(t: Tools<W>, before: seq<Event<W>>, e: Event<W>, later: seq<Event<W>>, call: Call, output: string)
    requires e.Ran? && e.call == call && e.output == output && e.err.None? && Inspection(call.tool)
    requires forall i :: 0 <= i < |later| ==> Harmless(t, later[i], call, output)
    ensures Holds(t, Cached(t, true, before + [e] + later), call, output)
  {
    if later == [] {
      CachedAppend(t, true, before, e);
      DisabledStaysEmpty(t, true, before);
      assert before + [e] + later == before + [e];
    } else {
      var earlier, last := later[..|later| - 1], later[|later| - 1];
      StillHeld(t, before, e, earlier, call, output);
      CachedAppend(t, true, before + [e] + earlier, last);
      HarmlessKeeps(t, Cached(t, true, before + [e] + earlier), last, call, output);
      assert before + [e] + later == before + [e] + earlier + [last];
    }
  }

  /** A successful inspection is served again after any number of harmless events, whatever
      came before it, unless the disk disagrees. */
  lemma {:induction false} RepeatIsServed<W>(t: Tools<W>, before: seq<Event<W>>, call: Call, output: string, after: W, later: seq<Event<W>>, disk: Option<string>)
    requires Inspection(call.tool) && forall i :: 0 <= i < |later| ==> Harmless(t, later[i], call, output)
    ensures var r := Asked(Cached(t, true, before + [Ran(call, output, None, after)] + later), call, disk, t.sha).0;
            r == if call.tool == "read_file" && disk.Some? && t.sha(disk.value) != t.sha(output) then Miss else Hit(Prefix + output)
  {
    StillHeld(t, before, Ran(call, output, None, after), later, call, output);
  }

  // -- Untracked mutators --

  /** The event stores an entry under the key. */
  ghost predicate Stores<W>(e: Event<W>, key: string) {
    e.Ran? && Inspection(e.call.tool) && e.err.None? && Key(e.call) == key
  }

  /** The workspace in which the last entry under the key was stored. */
  ghost function StoredIn<W>(w: W, es: seq<Event<W>>, key: string): W {
    if es == [] then w
    else
      var e, earlier := es[|es| - 1], es[..|es| - 1];
      if Stores(e, key) then World(w, earlier) else StoredIn(w, earlier, key)
  }

  /** An untracked mutator ran since then. */
  ghost predicate UntrackedSince<W>(es: seq<Event<W>>, key: string) {
    es != [] &&
    var e := es[|es| - 1];
    !Stores(e, key) && ((e.Ran? && Untracked(e.call.tool)) || UntrackedSince(es[..|es| - 1], key))
  }

  /** An entry holds what the call returned where it was stored, which is the present workspace
      unless an untracked mutator ran since. */
  lemma {:induction false} EntryIsOfWorld<W>(t: Tools<W>, enabled: bool, w: W, es: seq<Event<W>>, call: Call)
    requires Truthful(t, w, es) && KeyIsOwn(es, call)
    ensures var c, key := Cached(t, enabled, es), Key(call);
            key in c.inspections && !c.inspections[key].fromSeed ==>
              && t.inspect(call, StoredIn(w, es, key)) == Some(c.inspections[key].output)
              && (!UntrackedSince(es, key) ==> StoredIn(w, es, key) == World(w, es))
  {
    if es != [] {
      var e, earlier := es[|es| - 1], es[..|es| - 1];
      assert forall i :: 0 <= i < |earlier| ==> earlier[i] == es[i];
      EntryIsOfWorld(t, enabled, w, earlier, call);
      DisabledStaysEmpty(t, enabled, earlier);
      EntryStep(t, Cached(t, enabled, earlier), World(w, earlier), e, call);
    }
  }

  /** One event and the entry of a call. */
  lemma {:induction false} EntryStep<W>(t: Tools<W>, c: Cache, w: W, e: Event<W>, call: Call)
    requires TruthfulEvent(t, w, e) && (c.enabled || c == Empty(false)) && (e.Ran? && Key(e.call) == Key(call) ==> e.call == call)
    ensures var c', key := Next(t, c, e), Key(call);
            key in c'.inspections && !c'.inspections[key].fromSeed ==>
              if Stores(e, key) then t.inspect(call, w) == Some(c'.inspections[key].output) && e.after == w
              else
                && key in c.inspections && c'.inspections[key] == c.inspections[key]
                && (e.Ran? ==> Untracked(e.call.tool) || e.after == w)
  {
  }

  ghost predicate FreshNow<W>(t: Tools<W>, call: Call, w: W, text: string) {
    t.inspect(call, w).Some? && text == Prefix + t.inspect(call, w).value
  }

  /** Whatever tools change the workspace, an inspection hit carries the output of the call where
      its entry was stored, and the present output if no untracked mutator ran since. */
  lemma {:induction false} HitIsOfStoredWorld<W>(t: Tools<W>, enabled: bool, w: W, es: seq<Event<W>>, call: Call, disk: Option<string>)
    requires Truthful(t, w, es) && KeyIsOwn(es, call) && ':' !in call.tool
    ensures var r := Asked(Cached(t, enabled, es), call, disk, t.sha).0;
            r.Hit? ==>
              && FreshNow(t, call, StoredIn(w, es, Key(call)), r.text)
              && (!UntrackedSince(es, Key(call)) ==> FreshNow(t, call, World(w, es), r.text))
  {
    EntryIsOfWorld(t, enabled, w, es, call);
    var c := Cached(t, enabled, es);
    if Key(call) in c.inspections && c.inspections[Key(call)].fromSeed {
      SeedsAreReads(t, enabled, es, call);
    }
  }

  lemma {:induction false} SeedsAreReads<W>(t: Tools<W>, enabled: bool, es: seq<Event<W>>, call: Call)
    requires ':' !in call.tool
    requires var c := Cached(t, enabled, es); Key(call) in c.inspections && c.inspections[Key(call)].fromSeed
    ensures call.tool == "read_file"
  {
    var e, earlier := es[|es| - 1], es[..|es| - 1];
    var c := Cached(t, enabled, earlier);
    if Key(call) in c.inspections && c.inspections[Key(call)].fromSeed {
      SeedsAreReads(t, enabled, earlier, call);
    } else {
      assert e.Seed?;
      SeedKeysAreReads(call, e.path);
    }
  }

  /** Every mutator leads to a workspace never seen before. */
  ghost predicate Growing(w: nat, es: seq<Event<nat>>) {
    es == [] || (Growing(w, es[..|es| - 1]) && var e := es[|es| - 1]; e.Ran? && Mutates(e.call.tool) ==> World(w, es[..|es| - 1]) < e.after)
  }

  lemma {:induction false} UntrackedMovesOn(t: Tools<nat>, w: nat, es: seq<Event<nat>>, key: string)
    requires Truthful(t, w, es) && Growing(w, es)
    ensures w <= World(w, es) && StoredIn(w, es, key) <= World(w, es)
    ensures UntrackedSince(es, key) ==> StoredIn(w, es, key) < World(w, es)
  {
    if es != [] {
      UntrackedMovesOn(t, w, es[..|es| - 1], key);
    }
  }

  /** Where the call tells workspaces apart and every mutator changes the workspace, a hit is the
      present output if and only if no untracked mutator ran since the entry was stored. */
  lemma {:induction false} HitFreshIff(t: Tools<nat>, enabled: bool, w: nat, es: seq<Event<nat>>, call: Call, disk: Option<string>)
    requires Truthful(t, w, es) && Growing(w, es) && KeyIsOwn(es, call) && ':' !in call.tool
    requires forall v: nat, u: nat :: t.inspect(call, v).Some? && t.inspect(call, v) == t.inspect(call, u) ==> v == u
    ensures var r := Asked(Cached(t, enabled, es), call, disk, t.sha).0;
            r.Hit? ==> (FreshNow(t, call, World(w, es), r.text) <==> !UntrackedSince(es, Key(call)))
  {
    HitIsOfStoredWorld(t, enabled, w, es, call, disk);
    UntrackedMovesOn(t, w, es, Key(call));
    var r := Asked(Cached(t, enabled, es), call, disk, t.sha).0;
    if r.Hit? && FreshNow(t, call, World(w, es), r.text) {
      assert r.text[|Prefix|..] == t.inspect(call, World(w, es)).value;
      assert r.text[|Prefix|..] == t.inspect(call, StoredIn(w, es, Key(call))).value;
    }
  }

  /** Such stale hits happen: after any run, an inspection followed by an untracked mutator is
      served from the cache. Only `read_file` is compared with the disk, and misses when the
      file could be read and differs; the other inspections are served whatever the disk holds. */
  lemma {:induction false} UntrackedWriteGoesStale<W>(t: Tools<W>, before: seq<Event<W>>, call: Call, output: string, at: W, write: Event<W>, disk: Option<string>)
    requires Inspection(call.tool) && write.Ran? && Untracked(write.call.tool)
    ensures var es := before + [Ran(call, output, None, at)] + [write];
            var r := Asked(Cached(t, true, es), call, disk, t.sha).0;
            && UntrackedSince(es, Key(call))
            && (call.tool != "read_file" ==> r == Hit(Prefix + output))
            && (call.tool == "read_file" ==> r == if disk.Some? && t.sha(disk.value) != t.sha(output) then Miss else Hit(Prefix + output))
  {
    RepeatIsServed(t, before, call, output, at, [write], disk);
  }

  // -- The linter's result --

  /** A mutator ran after the last linter run (or the linter never ran). */
  ghost predicate WroteSince<W>(es: seq<Event<W>>) {
    if es == [] then true
    else
      var e := es[|es| - 1];
      if e.Ran? && e.call.tool == "run_linter" then false
      else (e.Ran? && Mutates(e.call.tool)) || WroteSince(es[..|es| - 1])
  }

  /** The workspace in which the linter last ran. */
  ghost function LintedIn<W>(w: W, es: seq<Event<W>>): W {
    if es == [] then w
    else
      var e, earlier := es[|es| - 1], es[..|es| - 1];
      if e.Ran? && e.call.tool == "run_linter" then World(w, earlier) else LintedIn(w, earlier)
  }

  lemma {:induction false} LinterResultIsOfWorld<W>(t: Tools<W>, enabled: bool, w: W, es: seq<Event<W>>)
    requires Truthful(t, w, es)
    ensures var c := Cached(t, enabled, es); c.linter.Some? ==> c.linter.value == t.lint(LintedIn(w, es))
    ensures !WroteSince(es) ==> LintedIn(w, es) == World(w, es)
  {
    if es != [] {
      LinterResultIsOfWorld(t, enabled, w, es[..|es| - 1]);
      DisabledStaysEmpty(t, enabled, es[..|es| - 1]);
    }
  }

  /** Over every workspace: the linter result served is that of the workspace it last ran in, and
      the present one if no mutator ran since. */
  lemma {:induction false} LinterResultFresh<W>(t: Tools<W>, enabled: bool, w: W, es: seq<Event<W>>)
    requires Truthful(t, w, es)
    ensures var r, was, now := LinterResult(Cached(t, enabled, es)), t.lint(LintedIn(w, es)), t.lint(World(w, es));
            r.Some? ==>
              && r.value == Diagnostic(Prefix + was.output, was.err)
              && (!WroteSince(es) ==> r.value == Diagnostic(Prefix + now.output, now.err))
  {
    LinterResultIsOfWorld(t, enabled, w, es);
  }

  lemma {:induction false} WritesMoveOn(t: Tools<nat>, w: nat, es: seq<Event<nat>>)
    requires Truthful(t, w, es) && Growing(w, es)
    ensures w <= World(w, es) && LintedIn(w, es) <= World(w, es)
    ensures (exists i :: 0 <= i < |es| && es[i].Ran? && es[i].call.tool == "run_linter") && WroteSince(es) ==> LintedIn(w, es) < World(w, es)
  {
    if es != [] {
      var e, earlier := es[|es| - 1], es[..|es| - 1];
      WritesMoveOn(t, w, earlier);
      if i :| 0 <= i < |es| && es[i].Ran? && es[i].call.tool == "run_linter" {
        assert i < |earlier| ==> earlier[i] == es[i];
      }
    }
  }

  lemma {:induction false} ResultNeedsLinter<W>(t: Tools<W>, enabled: bool, es: seq<Event<W>>)
    requires Cached(t, enabled, es).linter.Some?
    ensures exists i :: 0 <= i < |es| && es[i].Ran? && es[i].call.tool == "run_linter"
  {
    var e, earlier := es[|es| - 1], es[..|es| - 1];
    if e.Ran? && e.call.tool == "run_linter" {
      assert es[|es| - 1] == e;
    } else {
      ResultNeedsLinter(t, enabled, earlier);
      var i :| 0 <= i < |earlier| && earlier[i].Ran? && earlier[i].call.tool == "run_linter";
      assert es[i] == earlier[i];
    }
  }

  /** Where workspaces lint differently and every mutator changes the workspace, that is an if
      and only if: the result is the present one exactly when no mutator ran since the linter. */
  lemma {:induction false} LinterResultFreshIff(t: Tools<nat>, enabled: bool, w: nat, es: seq<Event<nat>>)
    requires Truthful(t, w, es) && Growing(w, es)
    requires forall v: nat, u: nat :: t.lint(v) == t.lint(u) ==> v == u
    ensures var r, now := LinterResult(Cached(t, enabled, es)), t.lint(World(w, es));
            r.Some? ==> (r.value == Diagnostic(Prefix + now.output, now.err) <==> !WroteSince(es))
  {
    LinterResultFresh(t, enabled, w, es);
    WritesMoveOn(t, w, es);
    var r, was, now := LinterResult(Cached(t, enabled, es)), t.lint(LintedIn(w, es)), t.lint(World(w, es));
    if r.Some? {
      ResultNeedsLinter(t, enabled, es);
      assert (Prefix + was.output)[|Prefix|..] == was.output;
      assert (Prefix + now.output)[|Prefix|..] == now.output;
    }
  }

  // -- What the diagnostic half serves, over every run --

  /** The last event that touched the flag was a tracked write. */
  ghost predicate Silenced<W>(es: seq<Event<W>>) {
    es != [] &&
    match es[|es| - 1]
    case Ran(call, _, err, _) =>
      if Tracked(call.tool) then true
      else if call.tool == "run_tests" || call.tool == "run_linter" || (Inspection(call.tool) && err.None?) then false
      else Silenced(es[..|es| - 1])
    case Seed(path, _) => path == "" && Silenced(es[..|es| - 1])
    case Ask(_, _) => Silenced(es[..|es| - 1])
  }

  /** The last result of the tool, error included. */
  ghost function LastRun<W>(es: seq<Event<W>>, tool: string): Option<Diagnostic> {
    if es == [] then None
    else
      var e := es[|es| - 1];
      if e.Ran? && e.call.tool == tool then Some(Diagnostic(e.output, e.err)) else LastRun(es[..|es| - 1], tool)
  }

  lemma {:induction false} FieldsMean<W>(t: Tools<W>, es: seq<Event<W>>)
    ensures var c := Cached(t, true, es);
            c.enabled && c.isDirty == Silenced(es) && c.tests == LastRun(es, "run_tests") && c.linter == LastRun(es, "run_linter")
  {
    if es != [] {
      FieldsMean(t, es[..|es| - 1]);
    }
  }

  /** After any run, a diagnostic tool is served the result of its own last run, error included,
      unless a tracked write came after everything that clears the flag: then nothing is served,
      neither a diagnostic result nor an inspection. */
  lemma {:induction false} ServedMeans<W>(t: Tools<W>, es: seq<Event<W>>, tool: string, call: Call, disk: Option<string>)
    requires tool == "run_tests" || tool == "run_linter"
    ensures Silenced(es) ==> Served(Cached(t, true, es), tool) == None && Asked(Cached(t, true, es), call, disk, t.sha).0 == Miss
    ensures !Silenced(es) ==>
              var last := LastRun(es, tool);
              Served(Cached(t, true, es), tool) == if last.None? then None else Some(Diagnostic(Prefix + last.value.output, last.value.err))
  {
    FieldsMean(t, es);
  }

  /** Content that was just seeded is known to be in the prompt, unless the file on disk differs. */
  lemma {:induction false} SeedIsServed<W>(t: Tools<W>, es: seq<Event<W>>, path: string, content: string, disk: Option<string>)
    requires path != ""
    ensures Asked(Cached(t, true, es + [Seed(path, content)]), ReadCall(path), disk, t.sha).0
         == if disk.Some? && t.sha(disk.value) != t.sha(content) then Miss else AlreadyInContext
  {
    CachedAppend(t, true, es, Seed(path, content));
    DisabledStaysEmpty(t, true, es);
  }

  /** Such a stale hit always follows when a write is followed by a test run: the tests clear
      the dirty flag that the linter's result shares. */
  lemma {:induction false} StaleLinterResultIsServed<W>(t: Tools<W>, es: seq<Event<W>>, write: Event<W>, tests: Event<W>)
    requires Cached(t, true, es).linter.Some?
    requires write.Ran? && Mutates(write.call.tool) && tests.Ran? && tests.call.tool == "run_tests"
    ensures WroteSince(es + [write] + [tests])
    ensures var was := Cached(t, true, es).linter.value;
            LinterResult(Cached(t, true, es + [write] + [tests])) == Some(Diagnostic(Prefix + was.output, was.err))
  {
    DisabledStaysEmpty(t, true, es);
    CachedAppend(t, true, es, write);
    CachedAppend(t, true, es + [write], tests);
    assert (es + [write] + [tests])[..|es| + 1] == es + [write];
  }
}
