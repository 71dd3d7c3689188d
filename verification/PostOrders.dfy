/** Depth-first post-order of a finite graph, as a function of the graph and the roots. */
module PostOrders {
  import opened Base
  import opened Graphs

  /** What a search has entered, and what it has placed, in order. */
  datatype Search = Search(visited: set<Bytes>, order: seq<Bytes>)

  const UNVISITED: Search := Search({}, [])

  /** Enter a node, visit its successors in order, and place it after them. */
  function Visit(g: Graph, u: Bytes, s: Search): (t: Search)
    ensures s.visited <= t.visited && u in t.visited
    decreases g.Keys - s.visited, 0
  {
    if u in s.visited then s
    else if u !in g then s.(visited := s.visited + {u})
    else
      var t := VisitAll(g, g[u], s.(visited := s.visited + {u}));
      t.(order := t.order + [u])
  }

  function VisitAll(g: Graph, us: seq<Bytes>, s: Search): (t: Search)
    ensures s.visited <= t.visited
    decreases g.Keys - s.visited, |us| + 1
  {
    if us == [] then s else VisitAll(g, us[1..], Visit(g, us[0], s))
  }

  function PostOrder(g: Graph, roots: seq<Bytes>): seq<Bytes> {
    VisitAll(g, roots, UNVISITED).order
  }

  /** `h` is a part of `g` that no edge of `g` leaves. */
  ghost predicate ClosedPart(g: Graph, h: Graph) {
    && h.Keys <= g.Keys && (forall u :: u in h ==> h[u] == g[u])
    && ClosedUnder(g, h.Keys)
  }

  /** A search that starts in such a part never sees the rest. */
  lemma {:induction false} VisitInPart(g: Graph, h: Graph, u: Bytes, s: Search)
    requires ClosedPart(g, h) && u in h
    ensures Visit(g, u, s) == Visit(h, u, s)
    decreases g.Keys - s.visited, 0
  {
    if u !in s.visited {
      assert forall v :: v in g[u] ==> Edge(g, u, v);
      VisitAllInPart(g, h, g[u], s.(visited := s.visited + {u}));
    }
  }

  lemma {:induction false} VisitAllInPart(g: Graph, h: Graph, us: seq<Bytes>, s: Search)
    requires ClosedPart(g, h) && forall u :: u in us ==> u in h
    ensures VisitAll(g, us, s) == VisitAll(h, us, s)
    decreases g.Keys - s.visited, |us| + 1
  {
    if us != [] {
      VisitInPart(g, h, us[0], s);
      VisitAllInPart(g, h, us[1..], Visit(g, us[0], s));
    }
  }

  /** So the post-order of a graph is that of its reachable part. */
  lemma PostOrderOfPart(g: Graph, h: Graph, roots: seq<Bytes>)
    requires ClosedPart(g, h) && forall r :: r in roots ==> r in h
    ensures PostOrder(g, roots) == PostOrder(h, roots)
  {
    VisitAllInPart(g, h, roots, UNVISITED);
  }

  // ---- the order of roots and successors ----

  lemma {:induction false} VisitAllAppend(g: Graph, a: seq<Bytes>, b: seq<Bytes>, s: Search)
    ensures VisitAll(g, a + b, s) == VisitAll(g, b, VisitAll(g, a, s))
    decreases |a|
  {
    if a == [] {
      assert a + b == b;
    } else {
      VisitAllAppend(g, a[1..], b, Visit(g, a[0], s));
      assert (a + b)[1..] == a[1..] + b;
    }
  }

  lemma {:induction false} VisitExtends(g: Graph, u: Bytes, s: Search)
    ensures s.order <= Visit(g, u, s).order
    decreases g.Keys - s.visited, 0
  {
    if u !in s.visited && u in g {
      VisitAllExtends(g, g[u], s.(visited := s.visited + {u}));
    }
  }

  lemma {:induction false} VisitAllExtends(g: Graph, us: seq<Bytes>, s: Search)
    ensures s.order <= VisitAll(g, us, s).order
    decreases g.Keys - s.visited, |us| + 1
  {
    if us != [] {
      VisitExtends(g, us[0], s);
      VisitAllExtends(g, us[1..], Visit(g, us[0], s));
    }
  }

  /** Roots are taken in order: what the first roots reach is placed before all else. */
  lemma PostOrderPrefix(g: Graph, a: seq<Bytes>, b: seq<Bytes>)
    ensures PostOrder(g, a) <= PostOrder(g, a + b)
  {
    VisitAllAppend(g, a, b, UNVISITED);
    VisitAllExtends(g, b, VisitAll(g, a, UNVISITED));
  }

  /** Having visited a node that cannot be reached makes no difference. */
  lemma {:induction false} VisitAvoids(g: Graph, v: Bytes, s: Search, u: Bytes)
    requires !Reaches(g, v, u)
    ensures Visit(g, v, s.(visited := s.visited + {u})).order == Visit(g, v, s).order
    ensures Visit(g, v, s.(visited := s.visited + {u})).visited == Visit(g, v, s).visited + {u}
    decreases g.Keys - s.visited, 0
  {
    ReachesSelf(g, v);
    hide Reaches;
    if v !in s.visited && v in g {
      forall w | w in g[v]
        ensures !Reaches(g, w, u)
      {
        assert Edge(g, v, w);
        if Reaches(g, w, u) {
          ReachesSelf(g, v);
          ReachesStep(g, v, v, w);
          ReachesTrans(g, v, w, u);
        }
      }
      assert s.visited + {v} + {u} == s.visited + {u} + {v};
      VisitAllAvoids(g, g[v], s.(visited := s.visited + {v}), u);
    }
  }

  lemma {:induction false} VisitAllAvoids(g: Graph, vs: seq<Bytes>, s: Search, u: Bytes)
    requires forall v :: v in vs ==> !Reaches(g, v, u)
    ensures VisitAll(g, vs, s.(visited := s.visited + {u})).order == VisitAll(g, vs, s).order
    ensures VisitAll(g, vs, s.(visited := s.visited + {u})).visited == VisitAll(g, vs, s).visited + {u}
    decreases g.Keys - s.visited, |vs| + 1
  {
    hide Reaches;
    if vs != [] {
      VisitAvoids(g, vs[0], s, u);
      var t := Visit(g, vs[0], s);
      assert Visit(g, vs[0], s.(visited := s.visited + {u})) == t.(visited := t.visited + {u});
      VisitAllAvoids(g, vs[1..], t, u);
    }
  }

  /** A node that is on no cycle comes right after the post-order of its successors, in their
      own order. */
  lemma SuccessorsFirst(g: Graph, u: Bytes)
    requires u in g && forall v :: v in g[u] ==> !Reaches(g, v, u)
    ensures PostOrder(g, [u]) == PostOrder(g, g[u]) + [u]
  {
    hide Reaches;
    VisitAllAvoids(g, g[u], UNVISITED, u);
    assert [u][1..] == [];
    var t := Visit(g, u, UNVISITED);
    assert VisitAll(g, [], t) == t;
  }
}
