/** Finite directed graphs and reachability by explicit walks. */
module Graphs {
  import opened Base

  /** Each node's successors, in the order they are listed. */
  type Graph = map<Bytes, seq<Bytes>>

  ghost predicate Edge(g: Graph, u: Bytes, v: Bytes) {
    u in g && v in g[u]
  }

  ghost predicate Walk(g: Graph, p: seq<Bytes>) {
    && |p| > 0
    && forall i, j :: 0 <= i && j == i + 1 < |p| ==> Edge(g, p[i], p[j])
  }

  /** `v` can be reached from `u` in zero or more steps. */
  ghost predicate Reaches(g: Graph, u: Bytes, v: Bytes) {
    exists p :: Walk(g, p) && p[0] == u && p[|p| - 1] == v
  }

  ghost predicate ReachedFrom(g: Graph, roots: seq<Bytes>, v: Bytes) {
    exists r :: r in roots && Reaches(g, r, v)
  }

  lemma ReachesSelf(g: Graph, u: Bytes)
    ensures Reaches(g, u, u)
  {
    assert Walk(g, [u]);
  }

  lemma ReachesStep(g: Graph, u: Bytes, v: Bytes, w: Bytes)
    requires Reaches(g, u, v) && Edge(g, v, w)
    ensures Reaches(g, u, w)
  {
    var p :| Walk(g, p) && p[0] == u && p[|p| - 1] == v;
    var q := p + [w];
    assert Walk(g, q) && q[0] == u && q[|q| - 1] == w;
  }

  lemma ReachesTrans(g: Graph, u: Bytes, v: Bytes, w: Bytes)
    requires Reaches(g, u, v) && Reaches(g, v, w)
    ensures Reaches(g, u, w)
  {
    var p :| Walk(g, p) && p[0] == u && p[|p| - 1] == v;
    var q :| Walk(g, q) && q[0] == v && q[|q| - 1] == w;
    var r := p + q[1..];
    forall i, j | 0 <= i && j == i + 1 < |r|
      ensures Edge(g, r[i], r[j])
    {
      if i >= |p| - 1 {
        assert r[i] == q[i - (|p| - 1)] && r[j] == q[j - (|p| - 1)];
      }
    }
    assert Walk(g, r) && r[0] == u && r[|r| - 1] == w;
  }

  ghost predicate ClosedUnder(g: Graph, s: set<Bytes>) {
    forall u, v :: u in s && Edge(g, u, v) ==> v in s
  }

  /** A walk that starts in a closed set never leaves it. */
  lemma {:induction false} WalkStaysIn(g: Graph, s: set<Bytes>, p: seq<Bytes>, i: nat)
    requires ClosedUnder(g, s) && Walk(g, p) && p[0] in s && i < |p|
    ensures p[i] in s
  {
    if i > 0 {
      WalkStaysIn(g, s, p, i - 1);
      assert Edge(g, p[i - 1], p[i]);
    }
  }

  lemma ReachesStaysIn(g: Graph, s: set<Bytes>, u: Bytes, v: Bytes)
    requires ClosedUnder(g, s) && u in s && Reaches(g, u, v)
    ensures v in s
  {
    var p :| Walk(g, p) && p[0] == u && p[|p| - 1] == v;
    WalkStaysIn(g, s, p, |p| - 1);
  }

  /** Reachability out of a closed set only looks at that set's edges. */
  lemma ReachesWithin(g: Graph, h: Graph, s: set<Bytes>, u: Bytes, v: Bytes)
    requires ClosedUnder(g, s) && u in s && Reaches(g, u, v)
    requires forall x, y :: x in s && Edge(g, x, y) ==> Edge(h, x, y)
    ensures Reaches(h, u, v)
  {
    var p :| Walk(g, p) && p[0] == u && p[|p| - 1] == v;
    forall i, j | 0 <= i && j == i + 1 < |p|
      ensures Edge(h, p[i], p[j])
    {
      WalkStaysIn(g, s, p, i);
    }
    assert Walk(h, p);
  }

  // ---- reachability from a set of roots ----

  lemma RootReached(g: Graph, roots: seq<Bytes>, r: Bytes)
    requires r in roots
    ensures ReachedFrom(g, roots, r)
  {
    ReachesSelf(g, r);
  }

  lemma ReachedThen(g: Graph, roots: seq<Bytes>, u: Bytes, v: Bytes)
    requires ReachedFrom(g, roots, u) && Reaches(g, u, v)
    ensures ReachedFrom(g, roots, v)
  {
    hide Reaches;
    var r :| r in roots && Reaches(g, r, u);
    ReachesTrans(g, r, u, v);
  }

  lemma ReachedStep(g: Graph, roots: seq<Bytes>, u: Bytes, v: Bytes)
    requires ReachedFrom(g, roots, u) && Edge(g, u, v)
    ensures ReachedFrom(g, roots, v)
  {
    hide Reaches;
    var r :| r in roots && Reaches(g, r, u);
    ReachesStep(g, r, u, v);
  }

  lemma ReachedInClosed(g: Graph, roots: seq<Bytes>, s: set<Bytes>, v: Bytes)
    requires ClosedUnder(g, s) && (forall r :: r in roots ==> r in s) && ReachedFrom(g, roots, v)
    ensures v in s
  {
    hide Reaches;
    var r :| r in roots && Reaches(g, r, v);
    ReachesStaysIn(g, s, r, v);
  }

  /** The nodes of the graph that can be reached from the roots. */
  ghost function Reachable(g: Graph, roots: seq<Bytes>): set<Bytes> {
    set v | v in g && ReachedFrom(g, roots, v)
  }

  lemma ReachableClosed(g: Graph, roots: seq<Bytes>)
    requires ClosedUnder(g, g.Keys)
    ensures ClosedUnder(g, Reachable(g, roots))
  {
    hide ReachedFrom;
    forall u, v | u in Reachable(g, roots) && Edge(g, u, v)
      ensures v in Reachable(g, roots)
    {
      ReachedStep(g, roots, u, v);
    }
  }

  /** The reachable part of a graph, taken alone, reaches the same nodes. */
  lemma ReachableAlone(g: Graph, h: Graph, roots: seq<Bytes>)
    requires ClosedUnder(g, g.Keys) && h.Keys == Reachable(g, roots)
    requires forall u :: u in h ==> h[u] == g[u]
    requires forall r :: r in roots ==> r in g
    ensures Reachable(h, roots) == Reachable(g, roots)
    ensures forall u, v :: u in h && Reaches(h, u, v) ==> Reaches(g, u, v)
  {
    hide Reaches;
    ReachableClosed(g, roots);
    forall u, v | u in h && Reaches(h, u, v)
      ensures Reaches(g, u, v)
    {
      ReachesWithin(h, g, h.Keys, u, v);
    }
    forall v | v in h
      ensures ReachedFrom(h, roots, v)
    {
      var r :| r in roots && Reaches(g, r, v);
      RootReached(g, roots, r);
      ReachesWithin(g, h, h.Keys, r, v);
    }
  }
}
