/** ValidateStoryDependencies: referential checks on a roadmap, then Kahn's algorithm. */
module StoryPlan {
  import opened Finite
  import opened Graph
  import Sorter = TaskSorter
  import opened Text

  datatype Entry = Entry(storyId: string, dependencies: seq<string>)

  datatype Verdict = Accepted | EmptyId | DuplicateId(id: string) | SelfReference(id: string)
                   | Missing(id: string, dependency: string) | Circular

  // ----- what a roadmap means; `norm` is the upper-cased, trimmed form of an id -----

  ghost predicate IdsGood(entries: seq<Entry>, norm: string -> string) {
    && (forall i :: 0 <= i < |entries| ==> norm(entries[i].storyId) != "")
    && (forall i, j :: 0 <= i < j < |entries| ==> norm(entries[i].storyId) != norm(entries[j].storyId))
  }

  ghost predicate HasStory(entries: seq<Entry>, norm: string -> string, id: string) {
    exists i :: 0 <= i < |entries| && norm(entries[i].storyId) == id
  }

  /** The non-blank dependencies, normalized. */
  function Needs(norm: string -> string, deps: seq<string>): seq<string> {
    if deps == [] then []
    else
      var earlier, d := Needs(norm, deps[..|deps| - 1]), norm(deps[|deps| - 1]);
      if d == "" then earlier else earlier + [d]
  }

  ghost predicate NeedsGood(needs: seq<string>, id: string, stories: set<string>) {
    forall d :: d in needs ==> d != id && d in stories
  }

  ghost function Stories(entries: seq<Entry>, norm: string -> string): set<string> {
    set i | 0 <= i < |entries| :: norm(entries[i].storyId)
  }

  ghost predicate EntryGood(entries: seq<Entry>, norm: string -> string, i: nat)
    requires i < |entries|
  {
    NeedsGood(Needs(norm, entries[i].dependencies), norm(entries[i].storyId), Stories(entries, norm))
  }

  ghost predicate DependenciesGood(entries: seq<Entry>, norm: string -> string) {
    forall i: nat :: i < |entries| ==> EntryGood(entries, norm, i)
  }

  ghost function StoryGraph(entries: seq<Entry>, norm: string -> string, k: nat): Graph
    requires k <= |entries|
  {
    if k == 0 then map[]
    else StoryGraph(entries, norm, k - 1)[norm(entries[k - 1].storyId) := Needs(norm, entries[k - 1].dependencies)]
  }

  // ----- edge lists: (prerequisite, story) pairs, repeated as declared -----

  type Edges = seq<(string, string)>

  /** How many edges lead into n from nodes outside `processed`. */
  ghost function InDegree(es: Edges, n: string, processed: set<string>): nat {
    if es == [] then 0
    else
      var e := es[|es| - 1];
      InDegree(es[..|es| - 1], n, processed) + if e.1 == n && e.0 !in processed then 1 else 0
  }

  ghost function FanOut(es: Edges, m: string): seq<string> {
    if es == [] then []
    else
      var earlier, e := FanOut(es[..|es| - 1], m), es[|es| - 1];
      if e.0 == m then earlier + [e.1] else earlier
  }

  lemma {:induction false} ProcessingDecrements(es: Edges, n: string, processed: set<string>, m: string)
    requires m !in processed
    ensures InDegree(es, n, processed) == InDegree(es, n, processed + {m}) + multiset(FanOut(es, m))[n]
  {
    if es != [] {
      ProcessingDecrements(es[..|es| - 1], n, processed, m);
    }
  }

  lemma {:induction false} InDegreePositive(es: Edges, n: string, processed: set<string>)
    ensures InDegree(es, n, processed) > 0 <==> exists m :: (m, n) in es && m !in processed
  {
    if es != [] {
      var rest := es[..|es| - 1];
      var e := es[|es| - 1];
      InDegreePositive(rest, n, processed);
      assert es == rest + [e];
      if m :| (m, n) in rest && m !in processed {
        assert (m, n) in es;
      }
      if m :| (m, n) in es && m !in processed {
        assert (m, n) in rest || (m, n) == e;
      }
    }
  }

  lemma {:induction false} FanOutTargets(es: Edges, m: string, n: string)
    ensures n in FanOut(es, m) <==> (m, n) in es
  {
    if es != [] {
      FanOutTargets(es[..|es| - 1], m, n);
      assert es == es[..|es| - 1] + [es[|es| - 1]];
    }
  }

  ghost predicate EdgesOf(g: Graph, es: Edges) {
    forall a, b :: Edge(g, a, b) <==> (b, a) in es
  }

  // ----- Kahn's algorithm -----

  ghost predicate KahnInv(g: Graph, es: Edges, degree: map<string, int>, done: seq<string>, queue: seq<string>) {
    && Closed(g) && EdgesOf(g, es) && degree.Keys == g.Keys
    && Distinct(done + queue) && (forall n :: n in done + queue ==> n in g)
    && PrerequisitesFirst(g, done)
    && (forall n :: n in g ==> (degree[n] == 0 <==> n in done + queue))
  }

  ghost function Elements(s: seq<string>): set<string> { set n | n in s }

  lemma {:induction false} QueueHeadIsFree(g: Graph, es: Edges, degree: map<string, int>, done: seq<string>, queue: seq<string>)
    requires KahnInv(g, es, degree, done, queue) && queue != []
    requires forall n :: n in g ==> degree[n] == InDegree(es, n, Elements(done))
    ensures queue[0] !in done && PrerequisitesFirst(g, done + [queue[0]])
    ensures Distinct(done + [queue[0]] + queue[1..])
    ensures forall n :: n in done + [queue[0]] + queue[1..] <==> n in done + queue
  {
    var c := queue[0];
    assert done + [c] + queue[1..] == done + queue;
    assert (done + queue)[|done|] == c;
    assert c in done + queue;
    InDegreePositive(es, c, Elements(done));
    forall d | Edge(g, c, d) ensures d in done {
      assert (d, c) in es;
    }
    Sorter.OrderExtends(g, done, c);
    assert forall k :: 0 <= k < |done| ==> (done + queue)[k] == done[k];
  }

  ghost predicate DegreesAfter(g: Graph, es: Edges, degree: map<string, int>, done: seq<string>, pending: seq<string>)
    requires g.Keys <= degree.Keys
  {
    forall n :: n in g ==> degree[n] == InDegree(es, n, Elements(done)) + multiset(pending)[n]
  }

  /** The stories without prerequisites; the map is iterated in an arbitrary order. */
  method FreeStories(degree: map<string, int>) returns (queue: seq<string>)
    ensures Distinct(queue) && forall n :: n in queue <==> n in degree && degree[n] == 0
  {
    queue := [];
    var left := degree.Keys;
    while left != {}
      invariant left <= degree.Keys && Distinct(queue)
      invariant forall n :: n in queue <==> n in degree && n !in left && degree[n] == 0
      decreases left
    {
      var id :| id in left;
      left := left - {id};
      if degree[id] == 0 {
        queue := queue + [id];
      }
    }
  }

  /** One decrement, which queues the story when it becomes free. */
  method ReleaseOne(ghost g: Graph, ghost es: Edges, degree: map<string, int>, ghost done: seq<string>, queue: seq<string>, n: string, ghost pending: seq<string>)
      returns (degree': map<string, int>, queue': seq<string>)
    requires KahnInv(g, es, degree, done, queue) && n in g
    requires DegreesAfter(g, es, degree, done, [n] + pending)
    ensures KahnInv(g, es, degree', done, queue') && DegreesAfter(g, es, degree', done, pending)
  {
    assert degree[n] > 0;
    assert n !in done + queue;
    degree', queue' := degree[n := degree[n] - 1], queue;
    if degree'[n] == 0 {
      queue' := queue + [n];
    }
    assert done + (queue + [n]) == done + queue + [n];
  }

  /** The loop over the stories that wait for the one just taken. */
  method Release(ghost g: Graph, ghost es: Edges, degree0: map<string, int>, ghost done: seq<string>, queue0: seq<string>, out: seq<string>)
      returns (degree: map<string, int>, queue: seq<string>)
    requires KahnInv(g, es, degree0, done, queue0) && forall n :: n in out ==> n in g
    requires DegreesAfter(g, es, degree0, done, out)
    ensures KahnInv(g, es, degree, done, queue) && DegreesAfter(g, es, degree, done, [])
  {
    degree, queue := degree0, queue0;
    assert out[0..] == out;
    for j := 0 to |out|
      invariant KahnInv(g, es, degree, done, queue) && DegreesAfter(g, es, degree, done, out[j..])
    {
      assert out[j..] == [out[j]] + out[j + 1..];
      degree, queue := ReleaseOne(g, es, degree, done, queue, out[j], out[j + 1..]);
    }
    assert out[|out|..] == [];
  }

  lemma {:induction false} TakeHead(g: Graph, es: Edges, degree: map<string, int>, done: seq<string>, queue: seq<string>)
    requires KahnInv(g, es, degree, done, queue) && queue != [] && DegreesAfter(g, es, degree, done, [])
    ensures KahnInv(g, es, degree, done + [queue[0]], queue[1..])
    ensures DegreesAfter(g, es, degree, done + [queue[0]], FanOut(es, queue[0]))
    ensures forall n :: n in FanOut(es, queue[0]) ==> n in g
    ensures queue[0] !in done && queue[0] in g
  {
    var c := queue[0];
    QueueHeadIsFree(g, es, degree, done, queue);
    assert c in done + queue;
    assert Elements(done + [c]) == Elements(done) + {c};
    forall n | n in g ensures degree[n] == InDegree(es, n, Elements(done + [c])) + multiset(FanOut(es, c))[n] {
      ProcessingDecrements(es, n, Elements(done), c);
    }
    forall n | n in FanOut(es, c) ensures n in g {
      FanOutTargets(es, c, n);
      assert Edge(g, n, c);
    }
  }

  lemma {:induction false} EmptyQueueDecides(g: Graph, es: Edges, degree: map<string, int>, done: seq<string>)
    requires KahnInv(g, es, degree, done, []) && DegreesAfter(g, es, degree, done, [])
    ensures |done| == |g| <==> !Cyclic(g)
    ensures |done| <= |g|
  {
    var rest := g.Keys - Elements(done);
    assert done + [] == done;
    ElementsSize(done);
    ProperSubsetSmaller(Elements(done), g.Keys);
    if rest == {} {
      forall n | n in g ensures n in done {
        assert n !in rest;
      }
      OrderExcludesCycles(g, done);
      assert Elements(done) == g.Keys;
    } else {
      forall a | a in rest ensures HasPrerequisiteIn(g, a, rest) {
        InDegreePositive(es, a, Elements(done));
        var m :| (m, a) in es && m !in Elements(done);
        assert Edge(g, a, m);
      }
      StuckSetHasCycle(g, rest);
    }
  }

  function Out(adj: map<string, seq<string>>, m: string): seq<string> { if m in adj then adj[m] else [] }

  ghost predicate AdjacencyOf(adj: map<string, seq<string>>, es: Edges) {
    forall m :: Out(adj, m) == FanOut(es, m)
  }

  lemma {:induction false} KahnStarts(g: Graph, es: Edges, degree: map<string, int>, queue: seq<string>)
    requires Closed(g) && EdgesOf(g, es) && degree.Keys == g.Keys
    requires forall n :: n in g ==> degree[n] == InDegree(es, n, {})
    requires Distinct(queue) && forall n :: n in queue <==> n in degree && degree[n] == 0
    ensures KahnInv(g, es, degree, [], queue) && DegreesAfter(g, es, degree, [], [])
  {
    assert [] + queue == queue && Elements([]) == {};
  }

  /** The sorting loop counts every story exactly when there is no cycle. */
  method CountSortable(ghost g: Graph, ghost es: Edges, inDegree: map<string, int>, adj: map<string, seq<string>>)
      returns (visited: nat)
    requires Closed(g) && EdgesOf(g, es) && inDegree.Keys == g.Keys
    requires forall n :: n in g ==> inDegree[n] == InDegree(es, n, {})
    requires AdjacencyOf(adj, es)
    ensures visited == |g| <==> !Cyclic(g)
    ensures visited <= |g|
  {
    var degree := inDegree;
    var queue := FreeStories(degree);
    visited := 0;
    ghost var done: seq<string> := [];
    KahnStarts(g, es, degree, queue);
    while queue != []
      invariant KahnInv(g, es, degree, done, queue) && visited == |done|
      invariant DegreesAfter(g, es, degree, done, [])
      decreases g.Keys - Elements(done)
    {
      TakeHead(g, es, degree, done, queue);
      var curr := queue[0];
      queue := queue[1..];
      visited := visited + 1;
      done := done + [curr];
      assert curr in Elements(done);
      assert Out(adj, curr) == FanOut(es, curr);
      degree, queue := Release(g, es, degree, done, queue, Out(adj, curr));
    }
    EmptyQueueDecides(g, es, degree, done);
  }

  lemma {:induction false} ElementsSize(s: seq<string>)
    requires Distinct(s)
    ensures |Elements(s)| == |s|
  {
    if s != [] {
      var rest := s[..|s| - 1];
      ElementsSize(rest);
      assert s == rest + [s[|s| - 1]];
      assert Elements(s) == Elements(rest) + {s[|s| - 1]};
    }
  }

  lemma {:induction false} ProperSubsetSmaller<T>(a: set<T>, b: set<T>)
    requires a <= b
    ensures |a| <= |b| && (a < b ==> |a| < |b|)
    decreases |a|
  {
    if a == {} {
      if y :| y in b {
        assert |b| > 0;
      }
    } else {
      var x :| x in a;
      if y :| y in b && y !in a {
        assert y in b - {x} && y !in a - {x};
      }
      ProperSubsetSmaller(a - {x}, b - {x});
    }
  }

  // ----- the checks before the sort -----

  ghost function Pairs(needs: seq<string>, id: string): Edges {
    if needs == [] then [] else Pairs(needs[..|needs| - 1], id) + [(needs[|needs| - 1], id)]
  }

  ghost function EdgesBelow(entries: seq<Entry>, norm: string -> string, k: nat): Edges
    requires k <= |entries|
  {
    if k == 0 then []
    else EdgesBelow(entries, norm, k - 1) + Pairs(Needs(norm, entries[k - 1].dependencies), norm(entries[k - 1].storyId))
  }

  lemma {:induction false} PairsMean(needs: seq<string>, id: string, a: string, b: string)
    ensures (b, a) in Pairs(needs, id) <==> a == id && b in needs
  {
    if needs != [] {
      PairsMean(needs[..|needs| - 1], id, a, b);
      assert needs == needs[..|needs| - 1] + [needs[|needs| - 1]];
    }
  }

  lemma {:induction false} StoryNodes(entries: seq<Entry>, norm: string -> string, k: nat)
    requires IdsGood(entries, norm) && k <= |entries|
    ensures forall n :: n in StoryGraph(entries, norm, k) <==> exists i :: 0 <= i < k && norm(entries[i].storyId) == n
    ensures |StoryGraph(entries, norm, k)| == k
  {
    forall n ensures n in StoryGraph(entries, norm, k) <==> exists i :: 0 <= i < k && norm(entries[i].storyId) == n {
      StoryNode(entries, norm, k, n);
    }
    StoryCount(entries, norm, k);
  }

  lemma {:induction false} StoryNode(entries: seq<Entry>, norm: string -> string, k: nat, n: string)
    requires k <= |entries|
    ensures n in StoryGraph(entries, norm, k) <==> exists i :: 0 <= i < k && norm(entries[i].storyId) == n
  {
    if k > 0 {
      StoryNode(entries, norm, k - 1, n);
    }
  }

  lemma {:induction false} AddedNode(g: Graph, id: string, needs: seq<string>)
    requires id !in g
    ensures |g[id := needs]| == |g| + 1
  {
    assert g[id := needs].Keys == g.Keys + {id};
  }

  lemma {:induction false} FreshStory(entries: seq<Entry>, norm: string -> string, k: nat)
    requires IdsGood(entries, norm) && k < |entries|
    ensures norm(entries[k].storyId) !in StoryGraph(entries, norm, k)
  {
    StoryNode(entries, norm, k, norm(entries[k].storyId));
  }

  lemma {:induction false} StoryCount(entries: seq<Entry>, norm: string -> string, k: nat)
    requires IdsGood(entries, norm) && k <= |entries|
    ensures |StoryGraph(entries, norm, k)| == k
  {
    if k > 0 {
      StoryCount(entries, norm, k - 1);
      FreshStory(entries, norm, k - 1);
      AddedNode(StoryGraph(entries, norm, k - 1), norm(entries[k - 1].storyId), Needs(norm, entries[k - 1].dependencies));
    }
  }

  lemma {:induction false} AddedEdges(g: Graph, es: Edges, id: string, needs: seq<string>, a: string, b: string)
    requires id !in g && (Edge(g, a, b) <==> (b, a) in es)
    ensures Edge(g[id := needs], a, b) <==> (b, a) in es + Pairs(needs, id)
  {
    PairsMean(needs, id, a, b);
  }

  lemma {:induction false} StoryEdge(entries: seq<Entry>, norm: string -> string, k: nat, a: string, b: string)
    requires IdsGood(entries, norm) && k <= |entries|
    ensures Edge(StoryGraph(entries, norm, k), a, b) <==> (b, a) in EdgesBelow(entries, norm, k)
  {
    if k > 0 {
      StoryEdge(entries, norm, k - 1, a, b);
      FreshStory(entries, norm, k - 1);
      var g, es := StoryGraph(entries, norm, k - 1), EdgesBelow(entries, norm, k - 1);
      AddedEdges(g, es, norm(entries[k - 1].storyId), Needs(norm, entries[k - 1].dependencies), a, b);
    }
  }

  lemma {:induction false} StoryEdges(entries: seq<Entry>, norm: string -> string)
    requires IdsGood(entries, norm)
    ensures EdgesOf(StoryGraph(entries, norm, |entries|), EdgesBelow(entries, norm, |entries|))
  {
    forall a, b ensures Edge(StoryGraph(entries, norm, |entries|), a, b) <==> (b, a) in EdgesBelow(entries, norm, |entries|) {
      StoryEdge(entries, norm, |entries|, a, b);
    }
  }

  lemma {:induction false} StoryNeeds(entries: seq<Entry>, norm: string -> string, k: nat, a: string, b: string)
    requires k <= |entries| && Edge(StoryGraph(entries, norm, k), a, b)
    ensures exists i :: 0 <= i < k && b in Needs(norm, entries[i].dependencies)
  {
    if norm(entries[k - 1].storyId) != a {
      StoryNeeds(entries, norm, k - 1, a, b);
    }
  }

  lemma {:induction false} StoryGraphClosed(entries: seq<Entry>, norm: string -> string)
    requires IdsGood(entries, norm) && DependenciesGood(entries, norm)
    ensures Closed(StoryGraph(entries, norm, |entries|))
  {
    StoryNodes(entries, norm, |entries|);
    forall a, b | Edge(StoryGraph(entries, norm, |entries|), a, b) ensures b in StoryGraph(entries, norm, |entries|) {
      StoryNeeds(entries, norm, |entries|, a, b);
      var i :| 0 <= i < |entries| && b in Needs(norm, entries[i].dependencies);
      assert EntryGood(entries, norm, i);
    }
  }

  // ----- the same in terms of the entries alone -----

  ghost predicate Declares(entry: Entry, norm: string -> string, d: string) {
    d != "" && exists k :: 0 <= k < |entry.dependencies| && norm(entry.dependencies[k]) == d
  }

  lemma {:induction false} NeedsMean(norm: string -> string, deps: seq<string>, d: string)
    ensures d in Needs(norm, deps) <==> d != "" && exists k :: 0 <= k < |deps| && norm(deps[k]) == d
  {
    if deps != [] {
      var n := |deps| - 1;
      NeedsMean(norm, deps[..n], d);
      if k :| 0 <= k < n && norm(deps[..n][k]) == d {
        assert deps[k] == deps[..n][k];
      }
      if k :| 0 <= k < n && norm(deps[k]) == d {
        assert deps[..n][k] == deps[k];
      }
    }
  }

  /** Dependencies are good when every declared one is another story of the roadmap. */
  lemma {:induction false} DependenciesGoodMeans(entries: seq<Entry>, norm: string -> string)
    ensures DependenciesGood(entries, norm) <==>
              forall i: nat :: i < |entries| ==> DeclaresOthers(entries, norm, i)
  {
    forall i: nat | i < |entries| ensures EntryGood(entries, norm, i) <==> DeclaresOthers(entries, norm, i) {
      EntryGoodMeans(entries, norm, i);
    }
  }

  ghost predicate DeclaresOthers(entries: seq<Entry>, norm: string -> string, i: nat)
    requires i < |entries|
  {
    forall d :: Declares(entries[i], norm, d) ==> d != norm(entries[i].storyId) && HasStory(entries, norm, d)
  }

  lemma {:induction false} EntryGoodMeans(entries: seq<Entry>, norm: string -> string, i: nat)
    requires i < |entries|
    ensures EntryGood(entries, norm, i) <==> DeclaresOthers(entries, norm, i)
  {
    var needs := Needs(norm, entries[i].dependencies);
    forall d ensures d in needs <==> Declares(entries[i], norm, d) {
      NeedsMean(norm, entries[i].dependencies, d);
    }
    forall d ensures d in Stories(entries, norm) <==> HasStory(entries, norm, d) {}
  }

  /** A story's edges, which cycles are made of, lead to exactly the stories it declares. */
  lemma {:induction false} StoryEdgeMeans(entries: seq<Entry>, norm: string -> string, i: nat, d: string)
    requires IdsGood(entries, norm) && i < |entries|
    ensures Edge(StoryGraph(entries, norm, |entries|), norm(entries[i].storyId), d) <==> Declares(entries[i], norm, d)
  {
    StoryEntry(entries, norm, |entries|, i);
    NeedsMean(norm, entries[i].dependencies, d);
  }

  lemma {:induction false} StoryEntry(entries: seq<Entry>, norm: string -> string, k: nat, i: nat)
    requires IdsGood(entries, norm) && i < k <= |entries|
    ensures var id := norm(entries[i].storyId);
            id in StoryGraph(entries, norm, k) && StoryGraph(entries, norm, k)[id] == Needs(norm, entries[i].dependencies)
  {
    if i < k - 1 {
      StoryEntry(entries, norm, k - 1, i);
    }
  }

  /** The first entry whose id is empty or taken, and which of the two it is. */
  ghost predicate FirstBadId(entries: seq<Entry>, norm: string -> string, i: int, v: Verdict) {
    && 0 <= i < |entries| && IdsGood(entries[..i], norm)
    && match v
       case EmptyId => norm(entries[i].storyId) == ""
       case DuplicateId(id) => id == norm(entries[i].storyId) != "" && HasStory(entries[..i], norm, id)
       case _ => false
  }

  /** The first dependency, of the first entry that has one, that is the story itself or does
      not exist. */
  ghost predicate FirstBadNeed(entries: seq<Entry>, norm: string -> string, i: int, v: Verdict) {
    && 0 <= i < |entries| && (forall j: nat :: j < i ==> EntryGood(entries, norm, j))
    && exists k :: BadNeedAt(Needs(norm, entries[i].dependencies), k, norm(entries[i].storyId), Stories(entries, norm), v)
  }

  ghost predicate BadNeedAt(needs: seq<string>, k: int, id: string, stories: set<string>, v: Verdict) {
    && 0 <= k < |needs| && NeedsGood(needs[..k], id, stories)
    && match v
       case SelfReference(x) => x == id == needs[k]
       case Missing(x, d) => x == id && d == needs[k] && d != id && d !in stories
       case _ => false
  }

  method RegisterStories(entries: seq<Entry>, norm: string -> string) returns (bad: Option<Verdict>, degree: map<string, int>)
    ensures bad.None? <==> IdsGood(entries, norm)
    ensures bad.Some? ==> exists i :: FirstBadId(entries, norm, i, bad.value)
    ensures bad.None? ==> forall n :: n in degree <==> HasStory(entries, norm, n)
    ensures forall n :: n in degree ==> degree[n] == 0
  {
    degree := map[];
    for i := 0 to |entries|
      invariant IdsGood(entries[..i], norm)
      invariant forall n :: n in degree <==> exists j :: 0 <= j < i && norm(entries[j].storyId) == n
      invariant forall n :: n in degree ==> degree[n] == 0
    {
      var id := norm(entries[i].storyId);
      if id == "" {
        assert FirstBadId(entries, norm, i, EmptyId);
        return Some(EmptyId), degree;
      }
      if id in degree {
        assert HasStory(entries[..i], norm, id) by {
          var j :| 0 <= j < i && norm(entries[j].storyId) == id;
          assert entries[..i][j] == entries[j];
        }
        assert FirstBadId(entries, norm, i, DuplicateId(id));
        return Some(DuplicateId(id)), degree;
      }
      degree := degree[id := 0];
    }
    assert entries[..|entries|] == entries;
    bad := None;
  }

  /** The tables the two loops over the dependencies fill, against the edges read so far. */
  ghost predicate TablesOf(degree: map<string, int>, adj: map<string, seq<string>>, es: Edges) {
    && AdjacencyOf(adj, es)
    && forall n :: n in degree ==> degree[n] == InDegree(es, n, {})
  }

  lemma {:induction false} AddEdge(degree: map<string, int>, adj: map<string, seq<string>>, es: Edges, d: string, id: string)
    requires TablesOf(degree, adj, es) && id in degree
    ensures TablesOf(degree[id := degree[id] + 1], adj[d := Out(adj, d) + [id]], es + [(d, id)])
  {
    var longer := es + [(d, id)];
    assert longer[..|es|] == es;
    forall m ensures Out(adj[d := Out(adj, d) + [id]], m) == FanOut(longer, m) {
      assert Out(adj, m) == FanOut(es, m);
    }
  }

  lemma {:induction false} BadNeed(needs: seq<string>, k: nat, id: string, stories: set<string>)
    requires k < |needs| && (needs[k] == id || needs[k] !in stories)
    ensures !NeedsGood(needs, id, stories)
  {
    assert needs[k] in needs;
  }

  lemma {:induction false} AddNeed(degree: map<string, int>, adj: map<string, seq<string>>, es: Edges, needs: seq<string>, d: string, id: string)
    requires TablesOf(degree, adj, es + Pairs(needs, id)) && id in degree
    ensures TablesOf(degree[id := degree[id] + 1], adj[d := Out(adj, d) + [id]], es + Pairs(needs + [d], id))
  {
    AddEdge(degree, adj, es + Pairs(needs, id), d, id);
    assert (needs + [d])[..|needs|] == needs;
    assert es + Pairs(needs + [d], id) == es + Pairs(needs, id) + [(d, id)];
  }

  method AddDependencies(norm: string -> string, id: string, deps: seq<string>, degree0: map<string, int>, adj0: map<string, seq<string>>, ghost es: Edges)
      returns (bad: Option<Verdict>, degree: map<string, int>, adj: map<string, seq<string>>)
    requires TablesOf(degree0, adj0, es) && id in degree0
    ensures bad.None? <==> NeedsGood(Needs(norm, deps), id, degree0.Keys)
    ensures bad.Some? ==> exists k :: BadNeedAt(Needs(norm, deps), k, id, degree0.Keys, bad.value)
    ensures bad.None? ==> degree.Keys == degree0.Keys && TablesOf(degree, adj, es + Pairs(Needs(norm, deps), id))
  {
    degree, adj := degree0, adj0;
    ghost var needs := [];
    assert es + Pairs(needs, id) == es;
    for i := 0 to |deps|
      invariant degree.Keys == degree0.Keys && needs == Needs(norm, deps[..i])
      invariant NeedsGood(needs, id, degree0.Keys)
      invariant TablesOf(degree, adj, es + Pairs(needs, id))
    {
      var d := norm(deps[i]);
      assert deps[..i + 1][..i] == deps[..i];
      if d != "" {
        if d == id || d !in degree {
          NeedsGrow(norm, deps, i + 1);
          assert d == Needs(norm, deps)[|needs|];
          BadNeed(Needs(norm, deps), |needs|, id, degree0.Keys);
          bad := Some(if d == id then SelfReference(id) else Missing(id, d));
          assert Needs(norm, deps)[..|needs|] == needs;
          assert BadNeedAt(Needs(norm, deps), |needs|, id, degree0.Keys, bad.value);
          return;
        }
        AddNeed(degree, adj, es, needs, d, id);
        adj := adj[d := Out(adj, d) + [id]];
        degree := degree[id := degree[id] + 1];
        needs := needs + [d];
      }
    }
    assert deps[..|deps|] == deps;
    bad := None;
  }

  lemma {:induction false} NeedsGrow(norm: string -> string, deps: seq<string>, i: nat)
    requires i <= |deps|
    ensures Needs(norm, deps[..i]) <= Needs(norm, deps)
    decreases |deps| - i
  {
    if i < |deps| {
      NeedsGrow(norm, deps, i + 1);
      assert deps[..i + 1][..i] == deps[..i];
    } else {
      assert deps[..i] == deps;
    }
  }

  lemma {:induction false} StoriesAre(entries: seq<Entry>, norm: string -> string, ids: set<string>)
    requires forall n :: n in ids <==> HasStory(entries, norm, n)
    ensures Stories(entries, norm) == ids
  {
    forall n ensures n in Stories(entries, norm) <==> HasStory(entries, norm, n) {}
  }

  ghost predicate GoodBelow(entries: seq<Entry>, norm: string -> string, i: nat)
    requires i <= |entries|
  {
    forall j: nat :: j < i ==> EntryGood(entries, norm, j)
  }

  lemma {:induction false} OneMoreGood(entries: seq<Entry>, norm: string -> string, i: nat)
    requires i < |entries| && GoodBelow(entries, norm, i)
    requires NeedsGood(Needs(norm, entries[i].dependencies), norm(entries[i].storyId), Stories(entries, norm))
    ensures GoodBelow(entries, norm, i + 1)
  {
  }

  lemma {:induction false} EntryIsBad(entries: seq<Entry>, norm: string -> string, i: nat, v: Verdict)
    requires i < |entries| && forall j: nat :: j < i ==> EntryGood(entries, norm, j)
    requires exists k :: BadNeedAt(Needs(norm, entries[i].dependencies), k, norm(entries[i].storyId), Stories(entries, norm), v)
    ensures !EntryGood(entries, norm, i) && FirstBadNeed(entries, norm, i, v)
  {
    var needs := Needs(norm, entries[i].dependencies);
    var k :| BadNeedAt(needs, k, norm(entries[i].storyId), Stories(entries, norm), v);
    BadNeed(needs, k, norm(entries[i].storyId), Stories(entries, norm));
  }

  method ReadDependencies(entries: seq<Entry>, norm: string -> string, degree0: map<string, int>)
      returns (bad: Option<Verdict>, degree: map<string, int>, adj: map<string, seq<string>>)
    requires forall n :: n in degree0 <==> HasStory(entries, norm, n)
    requires forall n :: n in degree0 ==> degree0[n] == 0
    ensures bad.None? <==> DependenciesGood(entries, norm)
    ensures bad.Some? ==> exists i :: FirstBadNeed(entries, norm, i, bad.value)
    ensures bad.None? ==> degree.Keys == degree0.Keys && TablesOf(degree, adj, EdgesBelow(entries, norm, |entries|))
  {
    degree, adj := degree0, map[];
    ghost var es: Edges := [];
    StoriesAre(entries, norm, degree0.Keys);
    for i := 0 to |entries|
      invariant degree.Keys == degree0.Keys == Stories(entries, norm)
      invariant GoodBelow(entries, norm, i)
      invariant es == EdgesBelow(entries, norm, i) && TablesOf(degree, adj, es)
    {
      var id := norm(entries[i].storyId);
      assert HasStory(entries, norm, id);
      bad, degree, adj := AddDependencies(norm, id, entries[i].dependencies, degree, adj, es);
      if bad.Some? {
        EntryIsBad(entries, norm, i, bad.value);
        return;
      }
      OneMoreGood(entries, norm, i);
      es := es + Pairs(Needs(norm, entries[i].dependencies), id);
    }
    bad := None;
  }

  /** The validator accepts exactly the roadmaps whose normalized ids are non-empty and
      unique, whose non-blank dependencies exist and are not the story itself, and whose
      graph has no cycle; each refusal names the first of these that fails. */
  method ValidateStoryDependencies(entries: seq<Entry>, norm: string -> string) returns (v: Verdict)
    ensures v.EmptyId? || v.DuplicateId? <==> !IdsGood(entries, norm)
    ensures v.EmptyId? || v.DuplicateId? ==> exists i :: FirstBadId(entries, norm, i, v)
    ensures v.SelfReference? || v.Missing? <==> IdsGood(entries, norm) && !DependenciesGood(entries, norm)
    ensures v.SelfReference? || v.Missing? ==> exists i :: FirstBadNeed(entries, norm, i, v)
    ensures v.Circular? <==>
              IdsGood(entries, norm) && DependenciesGood(entries, norm) && Cyclic(StoryGraph(entries, norm, |entries|))
  {
    var bad, degree := RegisterStories(entries, norm);
    if bad.Some? {
      return bad.value;
    }
    var adj;
    bad, degree, adj := ReadDependencies(entries, norm, degree);
    if bad.Some? {
      return bad.value;
    }
    ghost var g := StoryGraph(entries, norm, |entries|);
    StoryNodes(entries, norm, |entries|);
    StoryEdges(entries, norm);
    StoryGraphClosed(entries, norm);
    assert degree.Keys == g.Keys;
    var visited := CountSortable(g, EdgesBelow(entries, norm, |entries|), degree, adj);
    v := if visited != |entries| then Circular else Accepted;
  }

  // ----- agreement with the task sorter -----

  /** The same roadmap as a task list: titles equal to ids, dependencies normalized. */
  ghost predicate Mirrors(ts: seq<Sorter.Task>, entries: seq<Entry>, norm: string -> string) {
    |ts| == |entries| && forall i :: 0 <= i < |ts| ==>
      ts[i].id == ts[i].title == norm(entries[i].storyId) && ts[i].dependsOn == Needs(norm, entries[i].dependencies)
  }

  lemma {:induction false} IdsResolveToThemselves(ts: seq<Sorter.Task>, external: string -> bool, deps: seq<string>)
    requires forall i :: 0 <= i < |ts| ==> ts[i].title == ts[i].id
    requires forall d :: d in deps ==> Sorter.HasId(ts, d)
    ensures Sorter.Prerequisites(ts, external, deps) == deps && Sorter.Resolvable(ts, external, deps)
  {
    if deps != [] {
      var init, d := deps[..|deps| - 1], deps[|deps| - 1];
      IdsResolveToThemselves(ts, external, init);
      IdResolvesToItself(ts, external, d);
      assert deps == init + [d];
      forall i | 0 <= i < |deps| ensures !Sorter.Resolve(ts, external, deps[i]).Unresolvable? {
        assert i < |init| ==> deps[i] == init[i];
      }
    }
  }

  lemma {:induction false} IdResolvesToItself(ts: seq<Sorter.Task>, external: string -> bool, d: string)
    requires forall i :: 0 <= i < |ts| ==> ts[i].title == ts[i].id
    requires Sorter.HasId(ts, d)
    ensures Sorter.Resolve(ts, external, d) == Sorter.Internal(d)
  {
    Sorter.OwnerHasId(ts, d);
  }

  lemma {:induction false} MirrorResolves(ts: seq<Sorter.Task>, entries: seq<Entry>, norm: string -> string, external: string -> bool, k: nat)
    requires Mirrors(ts, entries, norm) && DependenciesGood(entries, norm) && k < |ts|
    ensures Sorter.Prerequisites(ts, external, ts[k].dependsOn) == ts[k].dependsOn
    ensures Sorter.Resolvable(ts, external, ts[k].dependsOn)
  {
    forall d | d in ts[k].dependsOn ensures Sorter.HasId(ts, d) {
      assert EntryGood(entries, norm, k);
      var i :| 0 <= i < |entries| && norm(entries[i].storyId) == d;
      assert ts[i].id == d;
    }
    IdsResolveToThemselves(ts, external, ts[k].dependsOn);
  }

  lemma {:induction false} SameGraph(ts: seq<Sorter.Task>, entries: seq<Entry>, norm: string -> string, external: string -> bool, k: nat)
    requires Mirrors(ts, entries, norm) && DependenciesGood(entries, norm) && k <= |entries|
    ensures Sorter.GraphOf(ts, external, k) == StoryGraph(entries, norm, k)
  {
    if k > 0 {
      SameGraph(ts, entries, norm, external, k - 1);
      MirrorResolves(ts, entries, norm, external, k - 1);
    }
  }

  /** On a roadmap that passes the referential checks, Kahn's validator and the depth-first
      sorter give the same answer: one reports a cycle exactly when the other does. */
  method CrossCheck(ts: seq<Sorter.Task>, entries: seq<Entry>, norm: string -> string, external: string -> bool)
      returns (v: Verdict, r: Sorter.SortResult)
    requires Mirrors(ts, entries, norm) && IdsGood(entries, norm) && DependenciesGood(entries, norm)
    ensures v.Accepted? <==> r.Sorted?
    ensures v.Circular? <==> r.CycleFound?
  {
    SameGraph(ts, entries, norm, external, |entries|);
    forall k | 0 <= k < |ts| ensures Sorter.Resolvable(ts, external, ts[k].dependsOn) {
      MirrorResolves(ts, entries, norm, external, k);
    }
    assert Sorter.TitlesConsistent(ts) && Sorter.AllResolvable(ts, external);
    v := ValidateStoryDependencies(entries, norm);
    r := Sorter.ResolveAndSortTasks(ts, external);
  }
}
