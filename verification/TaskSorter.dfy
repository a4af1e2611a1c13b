/** ResolveAndSortTasks: dependency resolution and the three-colour depth-first sort. */
module TaskSorter {
  import opened Finite
  import opened Graph
  import opened Text

  datatype Task = Task(id: string, title: string, dependsOn: seq<string>)

  datatype SortResult =
    | Sorted(tasks: seq<Task>)
    | DuplicateTitle(title: string)
    | Unresolved(title: string, dependency: string)
    | CycleFound(node: string)

  // ----- what a plan means -----

  /** The id registered for a title: the last task carrying it. */
  function TitleOwner(tasks: seq<Task>, title: string): Option<string> {
    if tasks == [] then None
    else if tasks[|tasks| - 1].title == title then Some(tasks[|tasks| - 1].id)
    else TitleOwner(tasks[..|tasks| - 1], title)
  }

  ghost predicate HasId(tasks: seq<Task>, id: string) { exists i :: 0 <= i < |tasks| && tasks[i].id == id }

  ghost predicate DistinctIds(tasks: seq<Task>) { forall i, j :: 0 <= i < j < |tasks| ==> tasks[i].id != tasks[j].id }

  /** No two tasks share a title unless they share the id too. */
  ghost predicate TitlesConsistent(tasks: seq<Task>) {
    forall i, j :: 0 <= i < j < |tasks| && tasks[i].title == tasks[j].title ==> tasks[i].id == tasks[j].id
  }

  datatype Resolution = Internal(id: string) | External | Unresolvable

  /** A title wins over an id; a reference to a task of another story is left alone. The
      test for such references is the caller's (`external`). */
  ghost function Resolve(tasks: seq<Task>, external: string -> bool, dep: string): Resolution {
    match TitleOwner(tasks, dep)
    case Some(id) => Internal(id)
    case None => if HasId(tasks, dep) then Internal(dep) else if external(dep) then External else Unresolvable
  }

  ghost predicate Resolvable(tasks: seq<Task>, external: string -> bool, deps: seq<string>) {
    forall i :: 0 <= i < |deps| ==> !Resolve(tasks, external, deps[i]).Unresolvable?
  }

  ghost predicate AllResolvable(tasks: seq<Task>, external: string -> bool) {
    forall i :: 0 <= i < |tasks| ==> Resolvable(tasks, external, tasks[i].dependsOn)
  }

  ghost function Prerequisites(tasks: seq<Task>, external: string -> bool, deps: seq<string>): seq<string> {
    if deps == [] then []
    else
      var earlier := Prerequisites(tasks, external, deps[..|deps| - 1]);
      var r := Resolve(tasks, external, deps[|deps| - 1]);
      if r.Internal? then earlier + [r.id] else earlier
  }

  /** The resolved graph of the first k tasks; a repeated id keeps its last occurrence. */
  ghost function GraphOf(tasks: seq<Task>, external: string -> bool, k: nat): Graph
    requires k <= |tasks|
  {
    if k == 0 then map[]
    else GraphOf(tasks, external, k - 1)[tasks[k - 1].id := Prerequisites(tasks, external, tasks[k - 1].dependsOn)]
  }

  ghost function TableOf(tasks: seq<Task>, k: nat): map<string, Task>
    requires k <= |tasks|
  {
    if k == 0 then map[] else TableOf(tasks, k - 1)[tasks[k - 1].id := tasks[k - 1]]
  }

  ghost function PlanGraph(tasks: seq<Task>, external: string -> bool): Graph { GraphOf(tasks, external, |tasks|) }

  lemma {:induction false} OwnerHasId(tasks: seq<Task>, title: string)
    ensures TitleOwner(tasks, title).Some? <==> exists i :: 0 <= i < |tasks| && tasks[i].title == title
    ensures TitleOwner(tasks, title).Some? ==>
              exists i :: 0 <= i < |tasks| && tasks[i].title == title && tasks[i].id == TitleOwner(tasks, title).value
  {
    if tasks != [] && tasks[|tasks| - 1].title != title {
      OwnerHasId(tasks[..|tasks| - 1], title);
    }
  }

  // ----- resolution in terms of the tasks alone -----

  ghost predicate HasTitle(tasks: seq<Task>, title: string) { exists i :: 0 <= i < |tasks| && tasks[i].title == title }

  /** The dependency names the task with this id: it is its title or, if no task has that title,
      the id itself. */
  ghost predicate Names(tasks: seq<Task>, dep: string, id: string) {
    if HasTitle(tasks, dep) then exists j :: 0 <= j < |tasks| && tasks[j].title == dep && tasks[j].id == id
    else id == dep && HasId(tasks, dep)
  }

  /** Where titles are unambiguous, a dependency resolves to exactly the task it names; it is
      refused exactly when it names none and is no reference to another story. */
  lemma {:induction false} ResolveMeans(tasks: seq<Task>, external: string -> bool, dep: string, id: string)
    requires TitlesConsistent(tasks)
    ensures Resolve(tasks, external, dep) == Internal(id) <==> Names(tasks, dep, id)
    ensures Resolve(tasks, external, dep).Unresolvable? <==> !HasTitle(tasks, dep) && !HasId(tasks, dep) && !external(dep)
  {
    OwnerHasId(tasks, dep);
    if HasTitle(tasks, dep) {
      var j :| 0 <= j < |tasks| && tasks[j].title == dep && tasks[j].id == TitleOwner(tasks, dep).value;
      forall k | 0 <= k < |tasks| && tasks[k].title == dep ensures tasks[k].id == tasks[j].id {
        assert k < j || j < k || k == j;
      }
    }
  }

  lemma {:induction false} PrerequisiteMeans(tasks: seq<Task>, external: string -> bool, deps: seq<string>, id: string)
    requires TitlesConsistent(tasks)
    ensures id in Prerequisites(tasks, external, deps) <==> exists k :: 0 <= k < |deps| && Names(tasks, deps[k], id)
  {
    if deps != [] {
      var n := |deps| - 1;
      PrerequisiteMeans(tasks, external, deps[..n], id);
      ResolveMeans(tasks, external, deps[n], id);
      if k :| 0 <= k < n && Names(tasks, deps[..n][k], id) {
        assert Names(tasks, deps[k], id);
      }
      if k :| 0 <= k < |deps| && Names(tasks, deps[k], id) {
        assert k < n ==> Names(tasks, deps[..n][k], id);
      }
    }
  }

  ghost predicate StandsBefore(sorted: seq<Task>, i: int, id: string) {
    exists j :: 0 <= j < i && j < |sorted| && sorted[j].id == id
  }

  /** Every task stands after each task that one of its dependencies names. */
  ghost predicate NamedTasksFirst(tasks: seq<Task>, sorted: seq<Task>) {
    forall i, k, id :: 0 <= i < |sorted| && 0 <= k < |sorted[i].dependsOn| && Names(tasks, sorted[i].dependsOn[k], id) ==>
      StandsBefore(sorted, i, id)
  }

  lemma {:induction false} OrderMeans(tasks: seq<Task>, external: string -> bool, sorted: seq<Task>)
    requires TitlesConsistent(tasks) && InDependencyOrder(tasks, external, sorted)
    ensures NamedTasksFirst(tasks, sorted)
  {
    forall i, k, id | 0 <= i < |sorted| && 0 <= k < |sorted[i].dependsOn| && Names(tasks, sorted[i].dependsOn[k], id)
      ensures StandsBefore(sorted, i, id)
    {
      PrerequisiteMeans(tasks, external, sorted[i].dependsOn, id);
    }
  }

  /** The plan's edges, which its cycles are made of, over the tasks alone. */
  lemma {:induction false} PlanEdgeMeans(tasks: seq<Task>, external: string -> bool, i: nat, id: string)
    requires TitlesConsistent(tasks) && DistinctIds(tasks) && i < |tasks|
    ensures Edge(PlanGraph(tasks, external), tasks[i].id, id) <==> exists k :: 0 <= k < |tasks[i].dependsOn| && Names(tasks, tasks[i].dependsOn[k], id)
  {
    GraphNodes(tasks, external, |tasks|, tasks[i].id);
    GraphEntry(tasks, external, |tasks|, tasks[i].id);
    TableEntry(tasks, |tasks|, i);
    PrerequisiteMeans(tasks, external, tasks[i].dependsOn, id);
  }

  lemma {:induction false} PrerequisitesHaveIds(tasks: seq<Task>, external: string -> bool, deps: seq<string>, d: string)
    requires d in Prerequisites(tasks, external, deps)
    ensures HasId(tasks, d)
  {
    var last := deps[|deps| - 1];
    OwnerHasId(tasks, last);
    if d in Prerequisites(tasks, external, deps[..|deps| - 1]) {
      PrerequisitesHaveIds(tasks, external, deps[..|deps| - 1], d);
    }
  }

  lemma {:induction false} GraphNodes(tasks: seq<Task>, external: string -> bool, k: nat, n: string)
    requires k <= |tasks|
    ensures n in GraphOf(tasks, external, k) <==> exists i :: 0 <= i < k && tasks[i].id == n
    ensures n in TableOf(tasks, k) <==> n in GraphOf(tasks, external, k)
  {
    if k > 0 {
      GraphNodes(tasks, external, k - 1, n);
    }
  }

  lemma {:induction false} GraphEntry(tasks: seq<Task>, external: string -> bool, k: nat, n: string)
    requires k <= |tasks| && n in GraphOf(tasks, external, k)
    ensures n in TableOf(tasks, k) && TableOf(tasks, k)[n].id == n
    ensures GraphOf(tasks, external, k)[n] == Prerequisites(tasks, external, TableOf(tasks, k)[n].dependsOn)
  {
    if tasks[k - 1].id != n {
      GraphEntry(tasks, external, k - 1, n);
    }
  }

  lemma {:induction false} TableEntry(tasks: seq<Task>, k: nat, i: nat)
    requires i < k <= |tasks| && DistinctIds(tasks)
    ensures tasks[i].id in TableOf(tasks, k) && TableOf(tasks, k)[tasks[i].id] == tasks[i]
  {
    if i < k - 1 {
      TableEntry(tasks, k - 1, i);
    }
  }

  lemma {:induction false} PlanGraphClosed(tasks: seq<Task>, external: string -> bool)
    ensures Closed(PlanGraph(tasks, external))
  {
    var g := PlanGraph(tasks, external);
    forall a, b | Edge(g, a, b) ensures b in g {
      GraphEntry(tasks, external, |tasks|, a);
      PrerequisitesHaveIds(tasks, external, TableOf(tasks, |tasks|)[a].dependsOn, b);
      GraphNodes(tasks, external, |tasks|, b);
    }
  }

  // ----- the algorithm -----

  const VISITING := 1
  const VISITED := 2

  /** `stack` holds the nodes whose visit is under way, outermost first. */
  ghost predicate SearchInv(adj: Graph, visited: map<string, int>, order: seq<string>, stack: seq<string>) {
    && Closed(adj)
    && visited.Keys <= adj.Keys
    && (forall n :: n in visited ==> visited[n] == VISITING || visited[n] == VISITED)
    && (forall n :: n in visited && visited[n] == VISITING <==> n in stack)
    && (forall n :: n in visited && visited[n] == VISITED <==> n in order)
    && Distinct(order) && PrerequisitesFirst(adj, order)
    && Walk(adj, stack)
  }

  lemma {:induction false} VisitStarts(adj: Graph, visited: map<string, int>, order: seq<string>, stack: seq<string>, node: string)
    requires SearchInv(adj, visited, order, stack) && node in adj && node !in visited && Walk(adj, stack + [node])
    ensures SearchInv(adj, visited[node := VISITING], order, stack + [node])
  {
  }

  lemma {:induction false} VisitEnds(adj: Graph, visited: map<string, int>, order: seq<string>, stack: seq<string>, node: string)
    requires SearchInv(adj, visited, order, stack + [node]) && node in adj && node !in stack
    requires forall d :: Edge(adj, node, d) ==> d in order
    ensures SearchInv(adj, visited[node := VISITED], order + [node], stack)
  {
    assert visited[node] == VISITING by { assert node in stack + [node]; }
    SubWalk(adj, stack + [node], 0, |stack|);
    assert (stack + [node])[0..|stack|] == stack;
    forall n ensures n in visited[node := VISITED] && visited[node := VISITED][n] == VISITING <==> n in stack {
      assert n in stack + [node] <==> n in stack || n == node;
    }
    OrderExtends(adj, order, node);
  }

  lemma {:induction false} OrderExtends(adj: Graph, order: seq<string>, node: string)
    requires PrerequisitesFirst(adj, order) && forall d :: Edge(adj, node, d) ==> d in order
    ensures PrerequisitesFirst(adj, order + [node])
  {
    var longer := order + [node];
    forall i, d | 0 <= i < |longer| && Edge(adj, longer[i], d) ensures d in longer[..i] {
      if i < |order| {
        assert longer[..i] == order[..i];
      } else {
        assert longer[..i] == order;
      }
    }
  }

  lemma {:induction false} ClosesCycle(adj: Graph, path: seq<string>, dep: string)
    requires Walk(adj, path) && path != [] && Edge(adj, path[|path| - 1], dep) && dep in path
    ensures OnCycle(adj, path[|path| - 1])
  {
    var j :| 0 <= j < |path| && path[j] == dep;
    WalkAppend(adj, path, dep);
    SubWalk(adj, path + [dep], j, |path| + 1);
    var p := (path + [dep])[j..|path| + 1];
    assert Cycle(adj, p);
    assert p[|path| - 1 - j] == path[|path| - 1];
  }

  /** The captured variables of the recursive closure. */
  class Search {
    const adj: Graph
    var visited: map<string, int>
    var order: seq<string>

    constructor (g: Graph)
      requires Closed(g)
      ensures adj == g && visited == map[] && order == [] && Valid([])
    {
      adj, visited, order := g, map[], [];
    }

    ghost predicate Valid(stack: seq<string>)
      reads this
    {
      SearchInv(adj, visited, order, stack)
    }

    /** Visits an unvisited node: either it and all it needs end up in the order, after
        their prerequisites, or a cycle passes through the node that is reported. */
    method Visit(node: string, ghost stack: seq<string>) returns (bad: Option<string>)
      requires Valid(stack) && node in adj && node !in visited && Walk(adj, stack + [node])
      modifies this
      ensures bad.None? ==> Valid(stack) && node in order && old(order) <= order && old(visited.Keys) <= visited.Keys
      ensures bad.Some? ==> OnCycle(adj, bad.value)
      decreases adj.Keys - visited.Keys
    {
      VisitStarts(adj, visited, order, stack, node);
      assert node !in stack;
      visited := visited[node := VISITING];
      ghost var path := stack + [node];
      var deps := adj[node];
      for i := 0 to |deps|
        invariant Valid(path) && old(order) <= order && old(visited.Keys) + {node} <= visited.Keys
        invariant forall k :: 0 <= k < i ==> deps[k] in order
      {
        var dep := deps[i];
        assert Edge(adj, node, dep);
        if dep in visited && visited[dep] == VISITING {
          ClosesCycle(adj, path, dep);
          return Some(node);
        }
        if dep !in visited {
          WalkAppend(adj, path, dep);
          bad := Visit(dep, path);
          if bad.Some? {
            return;
          }
        }
      }
      VisitEnds(adj, visited, order, stack, node);
      visited := visited[node := VISITED];
      order := order + [node];
      bad := None;
    }
  }

  ghost predicate TitleMapOf(m: map<string, string>, tasks: seq<Task>) {
    forall x :: if x in m then TitleOwner(tasks, x) == Some(m[x]) else TitleOwner(tasks, x).None?
  }

  /** The first task whose title an earlier task with another id has. */
  ghost predicate FirstClash(tasks: seq<Task>, i: int, title: string) {
    && 0 <= i < |tasks| && TitlesConsistent(tasks[..i]) && tasks[i].title == title
    && exists j :: 0 <= j < i && tasks[j].title == title && tasks[j].id != tasks[i].id
  }

  /** The first dependency that resolves to nothing. */
  ghost predicate FirstMissing(tasks: seq<Task>, external: string -> bool, deps: seq<string>, i: int, dep: string) {
    0 <= i < |deps| && Resolvable(tasks, external, deps[..i]) && deps[i] == dep && Resolve(tasks, external, dep).Unresolvable?
  }

  /** It belongs to the first task that has one. */
  ghost predicate FirstUnresolved(tasks: seq<Task>, external: string -> bool, k: int, title: string, dep: string) {
    && 0 <= k < |tasks| && tasks[k].title == title
    && (forall j :: 0 <= j < k ==> Resolvable(tasks, external, tasks[j].dependsOn))
    && exists i :: FirstMissing(tasks, external, tasks[k].dependsOn, i, dep)
  }

  lemma {:induction false} RegisterOne(tasks: seq<Task>, i: nat, titles: map<string, string>)
    requires i < |tasks| && TitleMapOf(titles, tasks[..i]) && TitlesConsistent(tasks[..i])
    requires tasks[i].title in titles ==> titles[tasks[i].title] == tasks[i].id
    ensures TitlesConsistent(tasks[..i + 1]) && TitleMapOf(titles[tasks[i].title := tasks[i].id], tasks[..i + 1])
  {
    assert tasks[..i + 1][..i] == tasks[..i];
    forall j | 0 <= j < i && tasks[j].title == tasks[i].title ensures tasks[j].id == tasks[i].id {
      OwnerIsAnyHolder(tasks[..i], j);
    }
  }

  lemma {:induction false} OwnerIsAnyHolder(tasks: seq<Task>, j: nat)
    requires j < |tasks| && TitlesConsistent(tasks)
    ensures TitleOwner(tasks, tasks[j].title) == Some(tasks[j].id)
  {
    OwnerHasId(tasks, tasks[j].title);
    var i :| 0 <= i < |tasks| && tasks[i].title == tasks[j].title && tasks[i].id == TitleOwner(tasks, tasks[j].title).value;
    assert i < j || j < i || i == j;
  }

  method RegisterTitles(tasks: seq<Task>) returns (clash: Option<string>, titles: map<string, string>, ids: set<string>)
    ensures clash.None? <==> TitlesConsistent(tasks)
    ensures clash.Some? ==> exists i :: FirstClash(tasks, i, clash.value)
    ensures clash.None? ==> TitleMapOf(titles, tasks) && forall x :: x in ids <==> HasId(tasks, x)
  {
    titles, ids := map[], {};
    for i := 0 to |tasks|
      invariant TitleMapOf(titles, tasks[..i]) && TitlesConsistent(tasks[..i])
      invariant forall x :: x in ids <==> exists j :: 0 <= j < i && tasks[j].id == x
    {
      var t := tasks[i];
      OwnerHasId(tasks[..i], t.title);
      if t.title in titles && titles[t.title] != t.id {
        assert FirstClash(tasks, i, t.title);
        return Some(t.title), titles, ids;
      }
      RegisterOne(tasks, i, titles);
      titles := titles[t.title := t.id];
      ids := ids + {t.id};
    }
    assert tasks[..|tasks|] == tasks;
    clash := None;
  }

  method ResolveAll(tasks: seq<Task>, external: string -> bool, titles: map<string, string>, ids: set<string>, deps: seq<string>)
      returns (missing: Option<string>, resolved: seq<string>)
    requires TitleMapOf(titles, tasks) && forall x :: x in ids <==> HasId(tasks, x)
    ensures missing.None? <==> Resolvable(tasks, external, deps)
    ensures missing.Some? ==> exists i :: FirstMissing(tasks, external, deps, i, missing.value)
    ensures missing.None? ==> resolved == Prerequisites(tasks, external, deps)
  {
    resolved := [];
    for i := 0 to |deps|
      invariant Resolvable(tasks, external, deps[..i])
      invariant resolved == Prerequisites(tasks, external, deps[..i])
    {
      var dep := deps[i];
      assert deps[..i + 1][..i] == deps[..i];
      if dep in titles {
        resolved := resolved + [titles[dep]];
      } else if dep in ids {
        resolved := resolved + [dep];
      } else if !external(dep) {
        assert FirstMissing(tasks, external, deps, i, dep);
        return Some(dep), resolved;
      }
    }
    assert deps[..|deps|] == deps;
    missing := None;
  }

  method BuildGraph(tasks: seq<Task>, external: string -> bool, titles: map<string, string>, ids: set<string>)
      returns (failure: Option<SortResult>, adj: Graph, table: map<string, Task>)
    requires TitleMapOf(titles, tasks) && forall x :: x in ids <==> HasId(tasks, x)
    ensures failure.None? <==> AllResolvable(tasks, external)
    ensures failure.Some? ==> failure.value.Unresolved? && exists k :: FirstUnresolved(tasks, external, k, failure.value.title, failure.value.dependency)
    ensures failure.None? ==> adj == PlanGraph(tasks, external) && table == TableOf(tasks, |tasks|)
  {
    adj, table := map[], map[];
    for i := 0 to |tasks|
      invariant forall j :: 0 <= j < i ==> Resolvable(tasks, external, tasks[j].dependsOn)
      invariant adj == GraphOf(tasks, external, i) && table == TableOf(tasks, i)
    {
      var t := tasks[i];
      table := table[t.id := t];
      var missing, deps := ResolveAll(tasks, external, titles, ids, t.dependsOn);
      if missing.Some? {
        assert FirstUnresolved(tasks, external, i, t.title, missing.value);
        return Some(Unresolved(t.title, missing.value)), adj, table;
      }
      adj := adj[t.id := deps];
    }
    failure := None;
  }

  method SortGraph(tasks: seq<Task>, adj: Graph) returns (bad: Option<string>, order: seq<string>)
    requires Closed(adj) && forall n :: n in adj <==> HasId(tasks, n)
    ensures (bad.Some? <==> Cyclic(adj)) && (bad.Some? ==> OnCycle(adj, bad.value))
    ensures bad.None? ==> Distinct(order) && PrerequisitesFirst(adj, order) && forall n :: n in order <==> n in adj
  {
    var search := new Search(adj);
    for i := 0 to |tasks|
      invariant search.Valid([]) && search.adj == adj
      invariant forall j :: 0 <= j < i ==> tasks[j].id in search.order
    {
      if tasks[i].id !in search.visited {
        bad := search.Visit(tasks[i].id, []);
        if bad.Some? {
          return bad, [];
        }
      }
    }
    order := search.order;
    forall n | n in adj ensures n in order {
      assert HasId(tasks, n);
    }
    OrderExcludesCycles(adj, order);
    bad := None;
  }

  /** Every task after all the tasks its dependencies resolve to. */
  ghost predicate InDependencyOrder(tasks: seq<Task>, external: string -> bool, sorted: seq<Task>) {
    forall i, d :: 0 <= i < |sorted| && d in Prerequisites(tasks, external, sorted[i].dependsOn) ==>
      exists j :: 0 <= j < i && sorted[j].id == d
  }

  /** The sorter tells the four cases apart exactly, naming the title, the dependency or the
      node at fault, and for tasks with distinct ids a
      successful result is the given tasks, reordered so that prerequisites come first. */
  method ResolveAndSortTasks(tasks: seq<Task>, external: string -> bool) returns (r: SortResult)
    ensures r.DuplicateTitle? <==> !TitlesConsistent(tasks)
    ensures r.Unresolved? <==> TitlesConsistent(tasks) && !AllResolvable(tasks, external)
    ensures r.CycleFound? <==> TitlesConsistent(tasks) && AllResolvable(tasks, external) && Cyclic(PlanGraph(tasks, external))
    ensures r.DuplicateTitle? ==> exists i :: FirstClash(tasks, i, r.title)
    ensures r.Unresolved? ==> exists k :: FirstUnresolved(tasks, external, k, r.title, r.dependency)
    ensures r.CycleFound? ==> OnCycle(PlanGraph(tasks, external), r.node)
    ensures r.Sorted? ==> InDependencyOrder(tasks, external, r.tasks) && NamedTasksFirst(tasks, r.tasks)
    ensures r.Sorted? && DistinctIds(tasks) ==> multiset(r.tasks) == multiset(tasks)
  {
    var clash, titles, ids := RegisterTitles(tasks);
    if clash.Some? {
      return DuplicateTitle(clash.value);
    }
    var failure, adj, table := BuildGraph(tasks, external, titles, ids);
    if failure.Some? {
      return failure.value;
    }
    PlanGraphClosed(tasks, external);
    forall n ensures n in adj <==> HasId(tasks, n) {
      GraphNodes(tasks, external, |tasks|, n);
    }
    var bad, order := SortGraph(tasks, adj);
    if bad.Some? {
      return CycleFound(bad.value);
    }
    forall n | n in order ensures n in table && table[n].id == n {
      GraphEntry(tasks, external, |tasks|, n);
    }
    var sorted := [];
    for i := 0 to |order|
      invariant |sorted| == i && forall k :: 0 <= k < i ==> order[k] in table && sorted[k] == table[order[k]]
    {
      sorted := sorted + [table[order[i]]];
    }
    SortedInOrder(tasks, external, order, sorted);
    OrderMeans(tasks, external, sorted);
    if DistinctIds(tasks) {
      SortedIsPermutation(tasks, order, sorted);
    }
    r := Sorted(sorted);
  }

  lemma {:induction false} SortedInOrder(tasks: seq<Task>, external: string -> bool, order: seq<string>, sorted: seq<Task>)
    requires PrerequisitesFirst(PlanGraph(tasks, external), order) && |sorted| == |order|
    requires forall n :: n in order ==> n in PlanGraph(tasks, external)
    requires forall k :: 0 <= k < |order| ==>
               order[k] in TableOf(tasks, |tasks|) && sorted[k] == TableOf(tasks, |tasks|)[order[k]] && sorted[k].id == order[k]
    ensures InDependencyOrder(tasks, external, sorted)
  {
    forall i, d | 0 <= i < |sorted| && d in Prerequisites(tasks, external, sorted[i].dependsOn)
      ensures exists j :: 0 <= j < i && sorted[j].id == d
    {
      assert Edge(PlanGraph(tasks, external), order[i], d) by {
        GraphEntry(tasks, external, |tasks|, order[i]);
      }
      EarlierInOrder(PlanGraph(tasks, external), order, i, d);
      var j :| 0 <= j < i && order[j] == d;
      assert sorted[j].id == order[j];
    }
  }

  lemma {:induction false} EarlierInOrder(g: Graph, order: seq<string>, i: nat, d: string)
    requires PrerequisitesFirst(g, order) && i < |order| && Edge(g, order[i], d)
    ensures exists j :: 0 <= j < i && order[j] == d
  {
    assert d in order[..i];
  }

  lemma {:induction false} SortedIsPermutation(tasks: seq<Task>, order: seq<string>, sorted: seq<Task>)
    requires DistinctIds(tasks) && Distinct(order) && |sorted| == |order|
    requires forall n :: n in order <==> HasId(tasks, n)
    requires forall k :: 0 <= k < |order| ==>
               order[k] in TableOf(tasks, |tasks|) && sorted[k] == TableOf(tasks, |tasks|)[order[k]] && sorted[k].id == order[k]
    ensures multiset(sorted) == multiset(tasks)
  {
    forall x: Task ensures multiset(sorted)[x] == multiset(tasks)[x] {
      DistinctCount(sorted, x);
      DistinctCount(tasks, x);
      if x in tasks {
        var i :| 0 <= i < |tasks| && tasks[i] == x;
        TableEntry(tasks, |tasks|, i);
        assert x.id in order;
        var k :| 0 <= k < |order| && order[k] == x.id;
        assert sorted[k] == x;
      }
      if x in sorted {
        var k :| 0 <= k < |sorted| && sorted[k] == x;
        assert order[k] in order;
        var i :| 0 <= i < |tasks| && tasks[i].id == order[k];
        TableEntry(tasks, |tasks|, i);
      }
    }
  }
}
