/** Dependency graphs: what a cycle is, and the two facts that make topological sorting and
    cycle detection agree. */
module Graph {
  import opened Finite

  /** Each node with its prerequisites, in order and possibly repeated. */
  type Graph = map<string, seq<string>>

  predicate Edge(g: Graph, a: string, b: string) { a in g && b in g[a] }

  ghost predicate Closed(g: Graph) { forall a, b :: Edge(g, a, b) ==> b in g }

  ghost predicate LinkAt(g: Graph, p: seq<string>, i: int)
    requires 0 <= i < |p| - 1
  {
    Edge(g, p[i], p[i + 1])
  }

  ghost predicate Walk(g: Graph, p: seq<string>) {
    forall i :: 0 <= i < |p| - 1 ==> LinkAt(g, p, i)
  }

  ghost predicate Cycle(g: Graph, p: seq<string>) {
    |p| >= 2 && p[0] == p[|p| - 1] && Walk(g, p)
  }

  ghost predicate Cyclic(g: Graph) { exists p :: Cycle(g, p) }

  ghost predicate OnCycle(g: Graph, n: string) { exists p :: Cycle(g, p) && n in p }

  /** Every listed node comes after all its prerequisites. */
  ghost predicate PrerequisitesFirst(g: Graph, order: seq<string>) {
    forall i, d :: 0 <= i < |order| && Edge(g, order[i], d) ==> d in order[..i]
  }

  /** Following edges inside such an order moves strictly towards its start. */
  lemma {:induction false} WalkDescends(g: Graph, order: seq<string>, p: seq<string>, at: nat)
    requires PrerequisitesFirst(g, order) && Walk(g, p) && |p| >= 1
    requires at < |order| && order[at] == p[0]
    ensures exists k :: 0 <= k < |order| && order[k] == p[|p| - 1] && k + |p| - 1 <= at
    decreases |p|
  {
    if |p| > 1 {
      assert LinkAt(g, p, 0);
      assert p[1] in order[..at];
      var next :| 0 <= next < at && order[next] == p[1];
      forall i | 0 <= i < |p[1..]| - 1 ensures LinkAt(g, p[1..], i) {
        assert LinkAt(g, p, i + 1);
      }
      WalkDescends(g, order, p[1..], next);
    }
  }

  /** A graph whose nodes can all be listed after their prerequisites has no cycle. */
  lemma {:induction false} OrderExcludesCycles(g: Graph, order: seq<string>)
    requires PrerequisitesFirst(g, order) && Distinct(order)
    requires forall n :: n in g ==> n in order
    ensures !Cyclic(g)
  {
    forall p ensures !Cycle(g, p) {
      if Cycle(g, p) {
        assert LinkAt(g, p, 0);
        var at :| 0 <= at < |order| && order[at] == p[0];
        WalkDescends(g, order, p, at);
        assert false;
      }
    }
  }

  ghost predicate HasPrerequisiteIn(g: Graph, a: string, r: set<string>) {
    exists b :: b in r && Edge(g, a, b)
  }

  ghost predicate Stuck(g: Graph, r: set<string>) {
    r != {} && forall a :: a in r ==> HasPrerequisiteIn(g, a, r)
  }

  lemma {:induction false} LongWalk(g: Graph, r: set<string>, n: nat) returns (p: seq<string>)
    requires Stuck(g, r)
    ensures |p| == n + 1 && Walk(g, p) && forall i :: 0 <= i < |p| ==> p[i] in r
    decreases n
  {
    if n == 0 {
      var a :| a in r;
      p := [a];
    } else {
      var q := LongWalk(g, r, n - 1);
      var last := q[|q| - 1];
      assert HasPrerequisiteIn(g, last, r);
      var b :| b in r && Edge(g, last, b);
      WalkAppend(g, q, b);
      p := q + [b];
    }
  }

  lemma {:induction false} WalkAppend(g: Graph, q: seq<string>, b: string)
    requires q != [] && Walk(g, q) && Edge(g, q[|q| - 1], b)
    ensures Walk(g, q + [b])
  {
    forall i | 0 <= i < |q + [b]| - 1 ensures LinkAt(g, q + [b], i) {
      assert i < |q| - 1 ==> LinkAt(g, q, i);
    }
  }

  lemma {:induction false} SubWalk(g: Graph, p: seq<string>, i: nat, j: nat)
    requires Walk(g, p) && i <= j <= |p|
    ensures Walk(g, p[i..j])
  {
    forall k | 0 <= k < |p[i..j]| - 1 ensures LinkAt(g, p[i..j], k) {
      assert LinkAt(g, p, i + k);
    }
  }

  /** A non-empty set of nodes each of which has a prerequisite in the set contains a cycle. */
  lemma {:induction false} StuckSetHasCycle(g: Graph, r: set<string>)
    requires Stuck(g, r)
    ensures Cyclic(g)
  {
    var p := LongWalk(g, r, |r|);
    assert !Distinct(p) by {
      if Distinct(p) {
        DistinctFits(p, r);
      }
    }
    var i, j :| 0 <= i < j < |p| && p[i] == p[j];
    WalkCloses(g, p, i, j);
  }

  lemma {:induction false} WalkCloses(g: Graph, p: seq<string>, i: nat, j: nat)
    requires Walk(g, p) && i < j < |p| && p[i] == p[j]
    ensures Cyclic(g)
  {
    SubWalk(g, p, i, j + 1);
    assert Cycle(g, p[i..j + 1]);
  }
}
