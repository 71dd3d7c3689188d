/** Closure resolution and dependency order (src/closure.rs). */
module Closure {
  import opened Base
  import opened Graphs
  import opened PostOrders

  const DASH: Byte := 0x2d
  const HASH_PART_LEN := 32

  /** The text before the first '-', or the whole text when there is none. */
  function HashPart(name: Bytes): (r: Bytes)
    ensures r <= name && DASH !in r
    ensures r != name ==> name[|r|] == DASH
  {
    if name == [] || name[0] == DASH then [] else [name[0]] + HashPart(name[1..])
  }

  lemma {:induction false} HashPartOf(s: Bytes, rest: Bytes)
    requires DASH !in s
    ensures HashPart(s + [DASH] + rest) == s
  {
    var all := s + [DASH] + rest;
    if s != [] {
      HashPartOf(s[1..], rest);
      assert all[1..] == s[1..] + [DASH] + rest;
      assert s == [s[0]] + s[1..];
    }
  }

  /** A store entry; `path` is its file name, `hashpart` the text before the first '-'. */
  datatype Candidate = Candidate(hashpart: Bytes, path: FileName)

  datatype ClosureEntry = ClosureEntry(path: FileName, narHash: Hash, narSize: U64, references: seq<Bytes>)

  /** What one scan of a store path reports: `matches` are candidate indices. */
  datatype Scan = ScanError | Scan(narHash: Hash, narSize: U64, matches: seq<nat>)

  /** The store: its directory listing (None is an unreadable entry), whether the
      reference pattern can be built, and the reference scanner. */
  datatype Store = Store(listing: seq<Option<FileName>>, patternOk: bool, scan: Bytes -> Scan)

  datatype ResolveError = ReadDir | BadPattern | InvalidPath | NotInStore(hashpart: Bytes) | ScanFailed(path: FileName)

  // ---- candidates ----

  predicate IsCandidateName(name: Bytes) {
    HashPart(name) != name && |HashPart(name)| == HASH_PART_LEN
  }

  function CandidatesOf(listing: seq<Option<FileName>>): (cs: seq<Candidate>)
    ensures forall i :: 0 <= i < |cs| ==>
      && HashPart(cs[i].path) != cs[i].path && |HashPart(cs[i].path)| == 32
      && cs[i].hashpart == HashPart(cs[i].path) && Some(cs[i].path) in listing
    ensures forall n :: Some(n) in listing && HashPart(n) != n && |HashPart(n)| == 32 ==>
      Candidate(HashPart(n), n) in cs
  {
    if listing == [] then [] else
      var rest := CandidatesOf(listing[..|listing| - 1]);
      match listing[|listing| - 1]
      case None => rest
      case Some(n) => if IsCandidateName(n) then rest + [Candidate(HashPart(n), n)] else rest
  }

  method ReadStoreCandidates(listing: seq<Option<FileName>>) returns (r: Result<seq<Candidate>, ResolveError>)
    ensures r.Ok? <==> None !in listing
    ensures r.Ok? ==> r.value == CandidatesOf(listing)
    ensures r.Err? ==> r.error == ReadDir
  {
    var candidates := [];
    for i := 0 to |listing|
      invariant candidates == CandidatesOf(listing[..i])
      invariant None !in listing[..i]
    {
      assert listing[..i + 1][..i] == listing[..i];
      if listing[i].None? {
        return Err(ReadDir);
      }
      var name := listing[i].value;
      var hashpart := HashPart(name);
      if hashpart == name {
        continue;
      }
      if |hashpart| != HASH_PART_LEN {
        continue;
      }
      candidates := candidates + [Candidate(hashpart, name)];
    }
    assert listing[..|listing|] == listing;
    r := Ok(candidates);
  }

  /** Hashpart to index; a later candidate with the same hashpart wins. */
  function IndexOf(cs: seq<Candidate>): (m: map<Bytes, nat>)
    ensures forall h :: h in m ==> m[h] < |cs| && cs[m[h]].hashpart == h
  {
    if cs == [] then map[] else
      IndexOf(cs[..|cs| - 1])[cs[|cs| - 1].hashpart := |cs| - 1]
  }

  lemma {:induction false} IndexOfFinds(cs: seq<Candidate>, i: nat)
    requires i < |cs|
    ensures cs[i].hashpart in IndexOf(cs) && i <= IndexOf(cs)[cs[i].hashpart]
  {
    if i < |cs| - 1 {
      IndexOfFinds(cs[..|cs| - 1], i);
    }
  }

  // ---- the reference graph of a store ----

  predicate MatchesInRange(s: Scan, count: nat) {
    s.Scan? ==> forall i :: 0 <= i < |s.matches| ==> s.matches[i] < count
  }

  /** The scanner only reports candidates it was given. */
  ghost predicate ScannerInRange(cs: seq<Candidate>, scan: Bytes -> Scan) {
    forall p :: MatchesInRange(scan(p), |cs|)
  }

  function ScanOf(cs: seq<Candidate>, scan: Bytes -> Scan, hp: Bytes): Scan
    requires hp in IndexOf(cs)
  {
    scan(cs[IndexOf(cs)[hp]].path)
  }

  /** Matched indices as hashparts, without the path's own. */
  function RefsOf(cs: seq<Candidate>, matches: seq<nat>, self: Bytes): (refs: seq<Bytes>)
    requires forall i :: 0 <= i < |matches| ==> matches[i] < |cs|
    ensures forall i :: 0 <= i < |refs| ==>
      refs[i] != self && exists k :: 0 <= k < |matches| && cs[matches[k]].hashpart == refs[i]
    ensures forall k :: 0 <= k < |matches| && cs[matches[k]].hashpart != self ==> cs[matches[k]].hashpart in refs
  {
    if matches == [] then [] else
      var hp := cs[matches[0]].hashpart;
      var rest := RefsOf(cs, matches[1..], self);
      if hp != self then [hp] + rest else rest
  }

  function EntryOf(cs: seq<Candidate>, scan: Bytes -> Scan, hp: Bytes): ClosureEntry
    requires ScannerInRange(cs, scan) && hp in IndexOf(cs) && ScanOf(cs, scan, hp).Scan?
  {
    var s := ScanOf(cs, scan, hp);
    ClosureEntry(cs[IndexOf(cs)[hp]].path, s.narHash, s.narSize, RefsOf(cs, s.matches, hp))
  }

  /** Every hashpart with the non-self references its scan finds. */
  ghost function StoreGraph(cs: seq<Candidate>, scan: Bytes -> Scan): Graph
    requires ScannerInRange(cs, scan)
  {
    map hp | hp in IndexOf(cs) ::
      if ScanOf(cs, scan, hp).Scan? then EntryOf(cs, scan, hp).references else []
  }

  lemma MatchesAt(cs: seq<Candidate>, scan: Bytes -> Scan, p: Bytes)
    requires ScannerInRange(cs, scan)
    ensures MatchesInRange(scan(p), |cs|)
  {
  }

  lemma StoreGraphClosed(cs: seq<Candidate>, scan: Bytes -> Scan)
    requires ScannerInRange(cs, scan)
    ensures ClosedUnder(StoreGraph(cs, scan), IndexOf(cs).Keys)
    ensures StoreGraph(cs, scan).Keys == IndexOf(cs).Keys
  {
    forall u, v | Edge(StoreGraph(cs, scan), u, v)
      ensures v in IndexOf(cs)
    {
      RefsAreIndexed(cs, ScanOf(cs, scan, u).matches, u);
    }
  }

  lemma GraphRow(cs: seq<Candidate>, scan: Bytes -> Scan, hp: Bytes)
    requires ScannerInRange(cs, scan) && hp in IndexOf(cs) && ScanOf(cs, scan, hp).Scan?
    ensures hp in StoreGraph(cs, scan)
    ensures StoreGraph(cs, scan)[hp] == EntryOf(cs, scan, hp).references
  {
  }

  /** Looking up a reference's index never misses. */
  lemma RefsAreIndexed(cs: seq<Candidate>, matches: seq<nat>, self: Bytes)
    requires forall i :: 0 <= i < |matches| ==> matches[i] < |cs|
    ensures forall h :: h in RefsOf(cs, matches, self) ==> h in IndexOf(cs)
  {
    forall h | h in RefsOf(cs, matches, self)
      ensures h in IndexOf(cs)
    {
      var k :| 0 <= k < |matches| && cs[matches[k]].hashpart == h;
      IndexOfFinds(cs, matches[k]);
    }
  }

  // ---- the worklist ----

  /** `closure` holds exactly what is reachable from `roots`, each with its scan. */
  ghost predicate ExactClosure(cs: seq<Candidate>, scan: Bytes -> Scan, roots: seq<Bytes>,
                               closure: map<Bytes, ClosureEntry>)
    requires ScannerInRange(cs, scan)
  {
    && closure.Keys == Reachable(StoreGraph(cs, scan), roots)
    && (forall h :: h in closure ==>
          h in IndexOf(cs) && ScanOf(cs, scan, h).Scan? && closure[h] == EntryOf(cs, scan, h))
  }

  ghost predicate AllScansSucceed(cs: seq<Candidate>, scan: Bytes -> Scan, roots: seq<Bytes>)
    requires ScannerInRange(cs, scan)
  {
    forall h :: h in Reachable(StoreGraph(cs, scan), roots) ==> ScanOf(cs, scan, h).Scan?
  }

  /** A path in the closure of the roots that cannot be scanned. */
  ghost predicate ScanFailsAt(cs: seq<Candidate>, scan: Bytes -> Scan, roots: seq<Bytes>, p: FileName)
    requires ScannerInRange(cs, scan)
  {
    exists h :: h in Reachable(StoreGraph(cs, scan), roots) && h in IndexOf(cs) && cs[IndexOf(cs)[h]].path == p &&
      ScanOf(cs, scan, h).ScanError?
  }

  /** What the worklist loop keeps: everything seen is reachable, and whatever a
      visited path refers to has been visited or is still to be. */
  ghost predicate Frontier(g: Graph, roots: seq<Bytes>, visited: set<Bytes>, worklist: seq<Bytes>) {
    && (forall h :: h in visited || h in worklist ==> ReachedFrom(g, roots, h))
    && (forall h :: h in roots ==> h in visited || h in worklist)
    && (forall h, v :: h in visited && Edge(g, h, v) ==> v in visited || v in worklist)
  }

  lemma FrontierInit(g: Graph, roots: seq<Bytes>)
    ensures Frontier(g, roots, {}, roots)
  {
    hide ReachedFrom;
    forall h | h in roots
      ensures ReachedFrom(g, roots, h)
    {
      RootReached(g, roots, h);
    }
  }

  lemma FrontierDrop(g: Graph, roots: seq<Bytes>, visited: set<Bytes>, before: seq<Bytes>, after: seq<Bytes>)
    requires Frontier(g, roots, visited, before)
    requires |before| > 0 && before == after + [before[|before| - 1]] && before[|before| - 1] in visited
    ensures Frontier(g, roots, visited, after)
  {
    hide ReachedFrom;
    assert forall h :: h in before ==> h in after || h in visited;
  }

  lemma FrontierVisit(g: Graph, roots: seq<Bytes>, visited: set<Bytes>, before: seq<Bytes>,
                      hp: Bytes, after: seq<Bytes>)
    requires Frontier(g, roots, visited, before)
    requires hp in before && forall h :: h in before && h != hp ==> h in after
    requires forall h :: h in after ==> h in before || Edge(g, hp, h)
    requires forall v :: Edge(g, hp, v) ==> v in visited + {hp} || v in after
    ensures Frontier(g, roots, visited + {hp}, after)
  {
    hide ReachedFrom;
    forall h | h in after
      ensures ReachedFrom(g, roots, h)
    {
      if h !in before {
        ReachedStep(g, roots, hp, h);
      }
    }
  }

  lemma FrontierReached(g: Graph, roots: seq<Bytes>, visited: set<Bytes>, worklist: seq<Bytes>, hp: Bytes)
    requires Frontier(g, roots, visited, worklist) && hp in worklist && hp in g
    ensures hp in Reachable(g, roots)
  {
    hide ReachedFrom;
  }

  lemma FrontierDone(g: Graph, roots: seq<Bytes>, visited: set<Bytes>)
    requires Frontier(g, roots, visited, []) && visited <= g.Keys
    ensures visited == Reachable(g, roots)
  {
    hide ReachedFrom;
    forall h | h in Reachable(g, roots)
      ensures h in visited
    {
      ReachedInClosed(g, roots, visited, h);
    }
  }

  lemma ScanFailureRefutes(cs: seq<Candidate>, scan: Bytes -> Scan, roots: seq<Bytes>, hp: Bytes)
    requires ScannerInRange(cs, scan) && hp in Reachable(StoreGraph(cs, scan), roots)
    requires hp in IndexOf(cs) && ScanOf(cs, scan, hp).ScanError?
    ensures !AllScansSucceed(cs, scan, roots)
    ensures ScanFailsAt(cs, scan, roots, cs[IndexOf(cs)[hp]].path)
  {
    hide IndexOf;
  }

  lemma ClosureDone(cs: seq<Candidate>, scan: Bytes -> Scan, roots: seq<Bytes>, closure: map<Bytes, ClosureEntry>)
    requires ScannerInRange(cs, scan) && Frontier(StoreGraph(cs, scan), roots, closure.Keys, [])
    requires forall h :: h in closure ==>
      h in IndexOf(cs) && ScanOf(cs, scan, h).Scan? && closure[h] == EntryOf(cs, scan, h)
    ensures AllScansSucceed(cs, scan, roots) && ExactClosure(cs, scan, roots, closure)
  {
    hide IndexOf, Frontier, Reachable, ScannerInRange;
    FrontierDone(StoreGraph(cs, scan), roots, closure.Keys);
  }

  /** Push the references that have not been visited yet. */
  method PushUnvisited(refs: seq<Bytes>, visited: set<Bytes>, worklist: seq<Bytes>) returns (r: seq<Bytes>)
    ensures worklist <= r
    ensures forall h :: h in r ==> h in worklist || (h in refs && h !in visited)
    ensures forall h :: h in refs ==> h in visited || h in r
  {
    r := worklist;
    for i := 0 to |refs|
      invariant worklist <= r
      invariant forall h :: h in r ==> h in worklist || (h in refs && h !in visited)
      invariant forall k :: 0 <= k < i ==> refs[k] in visited || refs[k] in r
    {
      if refs[i] !in visited {
        r := r + [refs[i]];
      }
    }
  }

  method CloseOver(cs: seq<Candidate>, scan: Bytes -> Scan, roots: seq<Bytes>)
    returns (r: Result<map<Bytes, ClosureEntry>, ResolveError>, ghost scanned: seq<Bytes>)
    requires ScannerInRange(cs, scan)
    requires forall h :: h in roots ==> h in IndexOf(cs)
    ensures r.Ok? <==> AllScansSucceed(cs, scan, roots)
    ensures r.Ok? ==> ExactClosure(cs, scan, roots, r.value)
    ensures NoDup(scanned)
    ensures r.Ok? ==> forall h :: h in r.value <==> h in scanned
    ensures r.Err? ==> r.error.ScanFailed? && ScanFailsAt(cs, scan, roots, r.error.path)
  {
    hide ScanFailsAt, IndexOf, ScannerInRange, StoreGraph, Frontier, Reachable, AllScansSucceed, ExactClosure;
    ghost var g := StoreGraph(cs, scan);
    StoreGraphClosed(cs, scan);
    var index := IndexOf(cs);
    var closure: map<Bytes, ClosureEntry> := map[];
    var worklist := roots;
    var visited: set<Bytes> := {};
    scanned := [];
    FrontierInit(g, roots);
    while worklist != []
      invariant visited == closure.Keys
      invariant NoDup(scanned) && forall h :: h in visited <==> h in scanned
      invariant forall h :: h in visited || h in worklist ==> h in index
      invariant Frontier(g, roots, visited, worklist)
      invariant forall h :: h in closure ==> ScanOf(cs, scan, h).Scan? && closure[h] == EntryOf(cs, scan, h)
      decreases index.Keys - visited, |worklist|
    {
      var hashpart := worklist[|worklist| - 1];
      ghost var before := worklist;
      worklist := worklist[..|worklist| - 1];
      assert before == worklist + [hashpart];
      if hashpart in visited {
        FrontierDrop(g, roots, visited, before, worklist);
        continue;
      }
      ghost var visitedBefore := visited;
      visited := visited + {hashpart};
      scanned := scanned + [hashpart];
      var path := cs[index[hashpart]].path;
      var s := scan(path);
      if s.ScanError? {
        FrontierReached(g, roots, visitedBefore, before, hashpart);
        ScanFailureRefutes(cs, scan, roots, hashpart);
        return Err(ScanFailed(path)), scanned;
      }
      MatchesAt(cs, scan, path);
      var references := RefsOf(cs, s.matches, hashpart);
      RefsAreIndexed(cs, s.matches, hashpart);
      GraphRow(cs, scan, hashpart);
      worklist := PushUnvisited(references, visited, worklist);
      FrontierVisit(g, roots, visitedBefore, before, hashpart, worklist);
      closure := closure[hashpart := ClosureEntry(path, s.narHash, s.narSize, references)];
    }
    ClosureDone(cs, scan, roots, closure);
    r := Ok(closure);
  }

  // ---- depth-first order ----

  ghost function GraphOf(closure: map<Bytes, ClosureEntry>): Graph {
    map h | h in closure :: closure[h].references
  }

  /** Nodes on the depth-first stack: entered but not yet placed. */
  ghost function Open(g: Graph, visited: set<Bytes>, order: seq<Bytes>): set<Bytes> {
    set x | x in visited && x in g && x !in order
  }

  /** What holds of everything placed so far: each successor of a placed node is
      placed before it, or leads back to it, or is not a node of the graph. */
  ghost predicate Placed(g: Graph, visited: set<Bytes>, order: seq<Bytes>) {
    && NoDup(order)
    && (forall x :: x in order ==> x in visited && x in g)
    && (forall i, v :: 0 <= i < |order| && Edge(g, order[i], v) ==>
          v in visited && (v in g ==> v in order[..i] || Reaches(g, v, order[i])))
  }

  /** The order theorem: exactly the reachable nodes, once each, and an edge from an
      earlier node to a later one lies on a cycle. */
  ghost predicate DependencyOrder(g: Graph, roots: seq<Bytes>, order: seq<Bytes>) {
    && NoDup(order)
    && (forall v :: v in order <==> v in Reachable(g, roots))
    && (forall i, j :: 0 <= i < j < |order| && Edge(g, order[i], order[j]) ==>
          Reaches(g, order[j], order[i]))
  }

  lemma PlaceNode(g: Graph, visited: set<Bytes>, order: seq<Bytes>, hp: Bytes)
    requires Placed(g, visited, order)
    requires hp in visited && hp in g && hp !in order
    requires forall v :: Edge(g, hp, v) ==> v in visited
    requires forall x :: x in Open(g, visited, order) ==> Reaches(g, x, hp)
    ensures Placed(g, visited, order + [hp])
    ensures Open(g, visited, order + [hp]) == Open(g, visited, order) - {hp}
  {
    var placed := order + [hp];
    forall i, v | 0 <= i < |placed| && Edge(g, placed[i], v)
      ensures v in visited && (v in g ==> v in placed[..i] || Reaches(g, v, placed[i]))
    {
      if i < |order| {
        assert placed[..i] == order[..i];
      } else {
        assert placed[..i] == order;
        if v in g && v !in order {
          assert v in Open(g, visited, order);
        }
      }
    }
  }

  class TopoSorter {
    const closure: map<Bytes, ClosureEntry>
    var visited: set<Bytes>
    var result: seq<ClosureEntry>
    /** The hashparts of `result`. */
    ghost var order: seq<Bytes>

    constructor (closure: map<Bytes, ClosureEntry>)
      ensures this.closure == closure && visited == {} && result == [] && order == []
    {
      this.closure := closure;
      visited, result, order := {}, [], [];
    }

    ghost predicate Valid()
      reads this
    {
      && Placed(GraphOf(closure), visited, order)
      && Lists(closure, order, result)
    }

    ghost function Progress(): Search
      reads this
    {
      Search(visited, order)
    }

    /** Every open node leads to `hp`. */
    ghost predicate OpenLeadsTo(hp: Bytes)
      reads this
    {
      forall x :: x in Open(GraphOf(closure), visited, order) ==> Reaches(GraphOf(closure), x, hp)
    }

    method Dfs(hp: Bytes)
      requires Valid() && OpenLeadsTo(hp)
      modifies this
      ensures Valid()
      ensures old(visited) <= visited && hp in visited
      ensures old(order) <= order
      ensures Open(GraphOf(closure), visited, order) == old(Open(GraphOf(closure), visited, order))
      ensures forall x :: x in visited - old(visited) ==> Reaches(GraphOf(closure), hp, x)
      ensures Progress() == Visit(GraphOf(closure), hp, old(Progress()))
      decreases closure.Keys - visited
    {
      hide Reaches;
      ghost var g := GraphOf(closure);
      if hp in visited {
        return;
      }
      ghost var stack := Open(g, visited, order);
      visited := visited + {hp};
      ReachesSelf(g, hp);
      if hp in closure {
        assert hp !in order;
        ghost var entered := visited;
        var refs := closure[hp].references;
        assert Open(g, visited, order) == stack + {hp};
        for i := 0 to |refs|
          invariant Valid() && entered <= visited && old(order) <= order
          invariant Open(g, visited, order) == stack + {hp}
          invariant forall k :: 0 <= k < i ==> refs[k] in visited
          invariant forall x :: x in visited - entered ==> Reaches(g, hp, x)
          invariant VisitAll(g, refs, old(Progress()).(visited := entered)) == VisitAll(g, refs[i..], Progress())
        {
          ghost var before := visited;
          assert refs[i..][1..] == refs[i + 1..];
          assert Edge(g, hp, refs[i]);
          forall x | x in stack + {hp}
            ensures Reaches(g, x, refs[i])
          {
            ReachesStep(g, x, hp, refs[i]);
          }
          Dfs(refs[i]);
          forall x | x in visited - before
            ensures Reaches(g, hp, x)
          {
            ReachesTrans(g, hp, refs[i], x);
          }
        }
        assert hp in Open(g, visited, order);
        PlaceNode(g, visited, order, hp);
        result := result + [closure[hp]];
        order := order + [hp];
      }
    }
  }

  lemma OrderComplete(g: Graph, roots: seq<Bytes>, visited: set<Bytes>, order: seq<Bytes>)
    requires Placed(g, visited, order) && Open(g, visited, order) == {}
    requires forall r :: r in roots ==> r in visited
    requires forall x :: x in visited ==> ReachedFrom(g, roots, x)
    ensures DependencyOrder(g, roots, order)
  {
    hide Reaches, ReachedFrom;
    forall u, v | u in visited && Edge(g, u, v)
      ensures v in visited
    {
      assert u !in Open(g, visited, order);
      var i :| 0 <= i < |order| && order[i] == u;
    }
    forall v | v in g && ReachedFrom(g, roots, v)
      ensures v in order
    {
      ReachedInClosed(g, roots, visited, v);
      assert v !in Open(g, visited, order);
    }
    assert forall v :: v in order ==> v in visited && v in g;
  }

  /** `list` holds the entries of `order`, in that order. */
  ghost predicate Lists(closure: map<Bytes, ClosureEntry>, order: seq<Bytes>, list: seq<ClosureEntry>) {
    && |list| == |order|
    && forall i :: 0 <= i < |order| ==> order[i] in closure && list[i] == closure[order[i]]
  }

  method TopoSort(closure: map<Bytes, ClosureEntry>, roots: seq<Bytes>) returns (result: seq<ClosureEntry>)
    ensures DependencyOrder(GraphOf(closure), roots, PostOrder(GraphOf(closure), roots))
    ensures Lists(closure, PostOrder(GraphOf(closure), roots), result)
  {
    ghost var g := GraphOf(closure);
    var sorter := new TopoSorter(closure);
    for i := 0 to |roots|
      invariant sorter.Valid() && fresh(sorter) && sorter.closure == closure
      invariant Open(g, sorter.visited, sorter.order) == {}
      invariant forall k :: 0 <= k < i ==> roots[k] in sorter.visited
      invariant forall x :: x in sorter.visited ==> ReachedFrom(g, roots, x)
      invariant VisitAll(g, roots, UNVISITED) == VisitAll(g, roots[i..], sorter.Progress())
    {
      assert roots[i..][1..] == roots[i + 1..];
      ghost var before := sorter.visited;
      sorter.Dfs(roots[i]);
      RootReached(g, roots, roots[i]);
      forall x | x in sorter.visited - before
        ensures ReachedFrom(g, roots, x)
      {
        ReachedThen(g, roots, roots[i], x);
      }
    }
    OrderComplete(g, roots, sorter.visited, sorter.order);
    result := sorter.result;
    assert Lists(closure, sorter.order, result);
  }

  /** Every dependency that is a node comes before all its dependents. */
  ghost predicate DependenciesFirst(g: Graph, order: seq<Bytes>) {
    forall i, v :: 0 <= i < |order| && v in g && Edge(g, order[i], v) ==> v in order[..i]
  }

  /** No node that can be reached from the roots lies on a cycle. */
  ghost predicate AcyclicFrom(g: Graph, roots: seq<Bytes>) {
    forall u, v :: u in Reachable(g, roots) && v in g && Edge(g, u, v) ==> !Reaches(g, v, u)
  }

  /** Without cycles the order puts every dependency before all its dependents. */
  lemma AcyclicOrder(g: Graph, roots: seq<Bytes>, order: seq<Bytes>)
    requires DependencyOrder(g, roots, order) && AcyclicFrom(g, roots)
    ensures DependenciesFirst(g, order)
  {
    hide Reaches, ReachedFrom;
    forall i, v | 0 <= i < |order| && v in g && Edge(g, order[i], v)
      ensures v in order[..i]
    {
      assert order[i] in order;
      ReachedStep(g, roots, order[i], v);
      assert v in Reachable(g, roots);
      assert v in order;
      var j :| 0 <= j < |order| && order[j] == v;
      ReachesSelf(g, v);
      assert j != i;
    }
  }

  /** When dependencies come first, a walk only moves to earlier places. */
  lemma {:induction false} WalkDescends(g: Graph, order: seq<Bytes>, p: seq<Bytes>, i: nat, j: nat) returns (k: nat)
    requires DependenciesFirst(g, order) && Walk(g, p) && p[|p| - 1] in g
    requires i < |order| && order[i] == p[0] && j < |p|
    ensures k <= i && order[k] == p[j]
  {
    if j == 0 {
      k := i;
    } else {
      var k' := WalkDescends(g, order, p, i, j - 1);
      assert Edge(g, p[j - 1], p[j]);
      assert p[j] in g by {
        if j < |p| - 1 {
          assert Edge(g, p[j], p[j + 1]);
        }
      }
      k :| 0 <= k < k' && order[k] == p[j];
    }
  }

  /** The order is topological exactly when no path that can be reached from the roots is
      on a reference cycle. */
  lemma TopologicalExactly(g: Graph, roots: seq<Bytes>, order: seq<Bytes>)
    requires DependencyOrder(g, roots, order)
    ensures DependenciesFirst(g, order) <==> AcyclicFrom(g, roots)
  {
    if AcyclicFrom(g, roots) {
      AcyclicOrder(g, roots, order);
    }
    if DependenciesFirst(g, order) {
      forall u, v | u in Reachable(g, roots) && v in g && Edge(g, u, v)
        ensures !Reaches(g, v, u)
      {
        assert u in order;
        var i :| 0 <= i < |order| && order[i] == u;
        if Reaches(g, v, u) {
          var p :| Walk(g, p) && p[0] == v && p[|p| - 1] == u;
          var j :| 0 <= j < i && order[j] == v;
          var k := WalkDescends(g, order, p, j, |p| - 1);
          assert false;
        }
      }
    }
  }

  // ---- resolve ----

  function InputHashparts(inputs: seq<Option<FileName>>): (hps: seq<Bytes>)
    requires None !in inputs
    ensures |hps| == |inputs| && forall i :: 0 <= i < |inputs| ==> hps[i] == HashPart(inputs[i].value)
  {
    seq(|inputs|, i requires 0 <= i < |inputs| => HashPart(inputs[i].value))
  }

  /** When `Resolve` succeeds. Inputs are paths, given by their file names (None when
      the path has none). */
  ghost predicate Resolvable(inputs: seq<Option<FileName>>, store: Store)
    requires ScannerInRange(CandidatesOf(store.listing), store.scan)
  {
    inputs == [] || (
      var cs := CandidatesOf(store.listing);
      && None !in store.listing && store.patternOk && None !in inputs
      && (forall h :: h in InputHashparts(inputs) ==> h in IndexOf(cs))
      && AllScansSucceed(cs, store.scan, InputHashparts(inputs)))
  }

  /** The hashparts of a resolved list. */
  function OrderOf(list: seq<ClosureEntry>): seq<Bytes> {
    seq(|list|, i requires 0 <= i < |list| => HashPart(list[i].path))
  }

  /** What a resolved list is: the exact closure of the inputs, each path once with its
      own scan, in the depth-first post-order, which is a dependency order. */
  ghost predicate Resolved(inputs: seq<Option<FileName>>, store: Store, list: seq<ClosureEntry>)
    requires ScannerInRange(CandidatesOf(store.listing), store.scan)
    requires None !in inputs
  {
    var cs := CandidatesOf(store.listing);
    var g := StoreGraph(cs, store.scan);
    var order := OrderOf(list);
    && DependencyOrder(g, InputHashparts(inputs), order)
    && order == PostOrder(g, InputHashparts(inputs))
    && (forall i :: 0 <= i < |list| ==>
          && order[i] in IndexOf(cs) && ScanOf(cs, store.scan, order[i]).Scan?
          && list[i] == EntryOf(cs, store.scan, order[i]))
  }

  /** The documented order of a resolved list: whatever a path refers to comes before it. */
  ghost predicate DocumentedOrder(list: seq<ClosureEntry>) {
    forall i, h :: 0 <= i < |list| && h in list[i].references ==> exists j :: 0 <= j < i && HashPart(list[j].path) == h
  }

  /** No path in the closure of the inputs is on a reference cycle of the store. */
  ghost predicate StoreAcyclic(inputs: seq<Option<FileName>>, store: Store)
    requires ScannerInRange(CandidatesOf(store.listing), store.scan) && None !in inputs
  {
    AcyclicFrom(StoreGraph(CandidatesOf(store.listing), store.scan), InputHashparts(inputs))
  }

  lemma ResolvedEdge(inputs: seq<Option<FileName>>, store: Store, list: seq<ClosureEntry>, i: nat, h: Bytes)
    requires ScannerInRange(CandidatesOf(store.listing), store.scan) && None !in inputs
    requires Resolved(inputs, store, list) && i < |list|
    ensures h in list[i].references <==> Edge(StoreGraph(CandidatesOf(store.listing), store.scan), OrderOf(list)[i], h)
  {
    hide HashPart, CandidatesOf, IndexOf, DependencyOrder, InputHashparts, ScannerInRange;
    GraphRow(CandidatesOf(store.listing), store.scan, OrderOf(list)[i]);
  }

  lemma DocumentedIs(g: Graph, list: seq<ClosureEntry>)
    requires ClosedUnder(g, g.Keys)
    requires forall i, h :: 0 <= i < |list| ==> (h in list[i].references <==> Edge(g, OrderOf(list)[i], h))
    ensures DocumentedOrder(list) <==> DependenciesFirst(g, OrderOf(list))
  {
    hide HashPart;
    var order := OrderOf(list);
    if DocumentedOrder(list) {
      forall i, h | 0 <= i < |list| && Edge(g, order[i], h)
        ensures h in order[..i]
      {
        assert h in list[i].references;
        var j :| 0 <= j < i && HashPart(list[j].path) == h;
        assert order[..i][j] == h;
      }
    }
    if DependenciesFirst(g, order) {
      forall i, h | 0 <= i < |list| && h in list[i].references
        ensures exists j :: 0 <= j < i && HashPart(list[j].path) == h
      {
        assert Edge(g, order[i], h);
        var j :| 0 <= j < i && order[j] == h;
        assert HashPart(list[j].path) == h;
      }
    }
  }

  /** What `Resolve` returns is dependencies first, as documented, exactly when the closure
      of the inputs has no reference cycle. */
  lemma ResolvedOrderExactly(inputs: seq<Option<FileName>>, store: Store, list: seq<ClosureEntry>)
    requires ScannerInRange(CandidatesOf(store.listing), store.scan) && None !in inputs
    requires Resolved(inputs, store, list)
    ensures DocumentedOrder(list) <==> StoreAcyclic(inputs, store)
  {
    var g := StoreGraph(CandidatesOf(store.listing), store.scan);
    StoreGraphClosed(CandidatesOf(store.listing), store.scan);
    assert DependencyOrder(g, InputHashparts(inputs), OrderOf(list));
    forall i, h | 0 <= i < |list|
      ensures h in list[i].references <==> Edge(g, OrderOf(list)[i], h)
    {
      ResolvedEdge(inputs, store, list, i, h);
    }
    hide OrderOf, DependencyOrder, Resolved, DocumentedOrder, DependenciesFirst, StoreGraph, Edge, AcyclicFrom,
      CandidatesOf, ScannerInRange, IndexOf, PostOrder;
    TopologicalExactly(g, InputHashparts(inputs), OrderOf(list));
    DocumentedIs(g, list);
  }

  lemma RootsReachable(g: Graph, roots: seq<Bytes>)
    requires forall r :: r in roots ==> r in g
    ensures forall r :: r in roots ==> r in Reachable(g, roots)
  {
    hide ReachedFrom;
    forall r | r in roots
      ensures ReachedFrom(g, roots, r)
    {
      RootReached(g, roots, r);
    }
  }

  /** There is only one resolved list. */
  lemma ResolvedUnique(inputs: seq<Option<FileName>>, store: Store, a: seq<ClosureEntry>, b: seq<ClosureEntry>)
    requires ScannerInRange(CandidatesOf(store.listing), store.scan) && None !in inputs
    requires Resolved(inputs, store, a) && Resolved(inputs, store, b)
    ensures a == b
  {
    hide HashPart, CandidatesOf, IndexOf, DependencyOrder, InputHashparts, ScannerInRange, StoreGraph, PostOrder;
    assert OrderOf(a) == OrderOf(b);
    assert |OrderOf(a)| == |a| && |OrderOf(b)| == |b|;
    forall i | 0 <= i < |a|
      ensures a[i] == b[i]
    {
      assert OrderOf(a)[i] == OrderOf(b)[i];
    }
  }

  lemma ClosureOrderIsStoreOrder(cs: seq<Candidate>, scan: Bytes -> Scan, roots: seq<Bytes>,
                                 closure: map<Bytes, ClosureEntry>, order: seq<Bytes>)
    requires ScannerInRange(cs, scan) && ExactClosure(cs, scan, roots, closure)
    requires forall h :: h in roots ==> h in IndexOf(cs)
    requires DependencyOrder(GraphOf(closure), roots, order)
    ensures DependencyOrder(StoreGraph(cs, scan), roots, order)
    ensures PostOrder(StoreGraph(cs, scan), roots) == PostOrder(GraphOf(closure), roots)
  {
    hide Reachable, Reaches, ScannerInRange, IndexOf, PostOrder;
    var g, h := StoreGraph(cs, scan), GraphOf(closure);
    StoreGraphClosed(cs, scan);
    ReachableAlone(g, h, roots);
    ReachableClosed(g, roots);
    RootsReachable(g, roots);
    PostOrderOfPart(g, h, roots);
    assert forall i, v :: 0 <= i < |order| && Edge(g, order[i], v) ==> Edge(h, order[i], v);
  }

  lemma ResolvedByOrder(inputs: seq<Option<FileName>>, store: Store, roots: seq<Bytes>,
                        closure: map<Bytes, ClosureEntry>, order: seq<Bytes>, list: seq<ClosureEntry>)
    requires ScannerInRange(CandidatesOf(store.listing), store.scan)
    requires None !in inputs && roots == InputHashparts(inputs)
    requires forall h :: h in roots ==> h in IndexOf(CandidatesOf(store.listing))
    requires ExactClosure(CandidatesOf(store.listing), store.scan, roots, closure)
    requires DependencyOrder(GraphOf(closure), roots, order) && Lists(closure, order, list)
    requires order == PostOrder(GraphOf(closure), roots)
    ensures Resolved(inputs, store, list)
  {
    hide PostOrder, DependencyOrder, Reachable, IndexOf, CandidatesOf, ScannerInRange, StoreGraph, InputHashparts;
    ClosureOrderIsStoreOrder(CandidatesOf(store.listing), store.scan, roots, closure, order);
    assert order == OrderOf(list);
  }

  method MapInputs(inputs: seq<Option<FileName>>, cs: seq<Candidate>) returns (r: Result<seq<Bytes>, ResolveError>)
    ensures r.Ok? <==> forall i :: 0 <= i < |inputs| ==> inputs[i].Some? && HashPart(inputs[i].value) in IndexOf(cs)
    ensures r.Ok? ==> |r.value| == |inputs| && forall i :: 0 <= i < |inputs| ==> r.value[i] == HashPart(inputs[i].value)
    ensures r.Ok? ==> None !in inputs && r.value == InputHashparts(inputs)
    ensures r.Err? ==>
      || (r.error == InvalidPath && None in inputs)
      || (None !in inputs && exists i: nat :: FirstMissing(inputs, cs, i) &&
                                                  r.error == NotInStore(HashPart(inputs[i].value)))
  {
    hide HashPart, IndexOf;
    var index := IndexOf(cs);
    var hashparts := [];
    for i := 0 to |inputs|
      invariant None !in inputs[..i]
      invariant |hashparts| == i && forall k :: 0 <= k < i ==> hashparts[k] == HashPart(inputs[k].value)
    {
      if inputs[i].None? {
        return Err(InvalidPath);
      }
      hashparts := hashparts + [HashPart(inputs[i].value)];
    }
    assert hashparts == InputHashparts(inputs);
    for i := 0 to |hashparts|
      invariant forall k :: 0 <= k < i ==> hashparts[k] in index
    {
      if hashparts[i] !in index {
        assert FirstMissing(inputs, cs, i);
        return Err(NotInStore(hashparts[i]));
      }
    }
    r := Ok(hashparts);
  }

  /** The first input that is not in the store. */
  ghost predicate FirstMissing(inputs: seq<Option<FileName>>, cs: seq<Candidate>, i: nat) {
    && i < |inputs| && inputs[i].Some? && HashPart(inputs[i].value) !in IndexOf(cs)
    && forall k :: 0 <= k < i && inputs[k].Some? ==> HashPart(inputs[k].value) in IndexOf(cs)
  }

  /** What each way of failing means. At most one of them applies to inputs and a store, but
      for the choice of the path whose scan is reported. */
  ghost predicate FailsWith(inputs: seq<Option<FileName>>, store: Store, e: ResolveError)
    requires ScannerInRange(CandidatesOf(store.listing), store.scan)
  {
    var cs := CandidatesOf(store.listing);
    && (None in store.listing <==> e == ReadDir)
    && (None !in store.listing && !store.patternOk <==> e == BadPattern)
    && (None !in store.listing && store.patternOk ==>
          && (None in inputs <==> e == InvalidPath)
          && (None !in inputs ==>
                match e
                case NotInStore(h) => exists i: nat :: FirstMissing(inputs, cs, i) && HashPart(inputs[i].value) == h
                case ScanFailed(p) =>
                  && (forall h :: h in InputHashparts(inputs) ==> h in IndexOf(cs))
                  && ScanFailsAt(cs, store.scan, InputHashparts(inputs), p)
                case _ => false))
  }

  method Resolve(inputs: seq<Option<FileName>>, store: Store)
    returns (r: Result<seq<ClosureEntry>, ResolveError>, ghost scanned: seq<Bytes>)
    requires ScannerInRange(CandidatesOf(store.listing), store.scan)
    ensures r.Ok? <==> Resolvable(inputs, store)
    ensures r.Ok? && inputs == [] ==> r.value == []
    ensures r.Ok? && inputs != [] ==> Resolved(inputs, store, r.value)
    ensures NoDup(scanned)
    ensures r.Ok? ==> |scanned| == |r.value|
    ensures r.Err? ==> inputs != [] && FailsWith(inputs, store, r.error)
  {
    hide AllScansSucceed, ExactClosure, DependencyOrder, PostOrder, IndexOf, CandidatesOf, ScannerInRange, Resolved,
      Reachable;
    scanned := [];
    if inputs == [] {
      return Ok([]), [];
    }
    var read := ReadStoreCandidates(store.listing);
    if read.Err? {
      return Err(read.error), [];
    }
    var candidates := read.value;
    if !store.patternOk {
      return Err(BadPattern), [];
    }
    var hashparts := MapInputs(inputs, candidates);
    if hashparts.Err? {
      return Err(hashparts.error), [];
    }
    var closed;
    closed, scanned := CloseOver(candidates, store.scan, hashparts.value);
    if closed.Err? {
      return Err(closed.error), scanned;
    }
    var list := TopoSort(closed.value, hashparts.value);
    ghost var order := PostOrder(GraphOf(closed.value), hashparts.value);
    ResolvedByOrder(inputs, store, hashparts.value, closed.value, order, list);
    ClosureSize(candidates, store.scan, hashparts.value, closed.value, order, scanned);
    r := Ok(list);
  }

  lemma ClosureSize(cs: seq<Candidate>, scan: Bytes -> Scan, roots: seq<Bytes>,
                    closure: map<Bytes, ClosureEntry>, order: seq<Bytes>, scanned: seq<Bytes>)
    requires ScannerInRange(cs, scan) && ExactClosure(cs, scan, roots, closure)
    requires forall h :: h in roots ==> h in IndexOf(cs)
    requires DependencyOrder(GraphOf(closure), roots, order)
    requires NoDup(scanned) && forall h :: h in closure <==> h in scanned
    ensures |order| == |scanned|
  {
    hide Reachable, Reaches, IndexOf, ScannerInRange;
    ClosureOrderIsStoreOrder(cs, scan, roots, closure, order);
    SameSize(order, scanned);
  }

  lemma {:induction false} SameSize(a: seq<Bytes>, b: seq<Bytes>)
    requires NoDup(a) && NoDup(b) && Elements(a) == Elements(b)
    ensures |a| == |b|
  {
    SizeOfElements(a);
    SizeOfElements(b);
  }

  lemma {:induction false} SizeOfElements(a: seq<Bytes>)
    requires NoDup(a)
    ensures |Elements(a)| == |a|
  {
    if a != [] {
      var front, last := a[..|a| - 1], a[|a| - 1];
      SizeOfElements(front);
      assert a == front + [last];
      assert Elements(a) == Elements(front) + {last};
    }
  }
}
