/** What a resolved closure is, in terms of the inputs, the directory listing and the scans
    alone (src/closure.rs). */
module ClosureLaws {
  import opened Base
  import opened Graphs
  import opened PostOrders
  import opened Closure

  // ---- candidates and references ----

  /** Candidates are taken from the listing name by name, in its order. */
  lemma {:induction false} CandidatesAppend(a: seq<Option<FileName>>, b: seq<Option<FileName>>)
    ensures CandidatesOf(a + b) == CandidatesOf(a) + CandidatesOf(b)
  {
    hide HashPart, IsCandidateName;
    if b == [] {
      assert a + b == a;
    } else {
      CandidatesAppend(a, b[..|b| - 1]);
      assert (a + b)[..|a + b| - 1] == a + b[..|b| - 1];
    }
  }

  /** Matches that are candidate indices. */
  predicate InRange(cs: seq<Candidate>, matches: seq<nat>) {
    forall i :: 0 <= i < |matches| ==> matches[i] < |cs|
  }

  lemma RefsOfNone(cs: seq<Candidate>, self: Bytes)
    ensures InRange(cs, []) && RefsOf(cs, [], self) == []
  {
  }

  /** One match is one reference, unless it is the path itself. */
  lemma RefsOfOne(cs: seq<Candidate>, m: nat, self: Bytes)
    requires m < |cs|
    ensures RefsOf(cs, [m], self) == if cs[m].hashpart == self then [] else [cs[m].hashpart]
  {
    assert [m][1..] == [];
  }

  /** References are taken match by match, in the order of the scan and as often as it reports
      them. */
  lemma {:induction false} RefsInOrder(cs: seq<Candidate>, a: seq<nat>, b: seq<nat>, self: Bytes)
    requires InRange(cs, a) && InRange(cs, b)
    ensures InRange(cs, a + b) && RefsOf(cs, a + b, self) == RefsOf(cs, a, self) + RefsOf(cs, b, self)
  {
    hide InRange, RefsOf;
    RangeOfSum(cs, a, b);
    if a == [] {
      RefsOfNone(cs, self);
      assert a + b == b;
    } else {
      RefsInOrder(cs, a[1..], b, self);
      RefsStep(cs, a, self);
      RefsStep(cs, a + b, self);
    }
  }

  lemma RangeOfSum(cs: seq<Candidate>, a: seq<nat>, b: seq<nat>)
    requires InRange(cs, a) && InRange(cs, b)
    ensures InRange(cs, a + b) && (a != [] ==> InRange(cs, a[1..]) && (a + b)[0] == a[0] && (a + b)[1..] == a[1..] + b)
  {
  }

  lemma RefsStep(cs: seq<Candidate>, matches: seq<nat>, self: Bytes)
    requires InRange(cs, matches) && matches != []
    ensures matches[0] < |cs| && InRange(cs, matches[1..])
    ensures RefsOf(cs, matches, self) ==
      (if cs[matches[0]].hashpart == self then [] else [cs[matches[0]].hashpart]) + RefsOf(cs, matches[1..], self)
  {
  }

  // ---- resolve ----

  /** The hashpart `h` can be reached from some input. */
  ghost predicate NeededBy(inputs: seq<Option<FileName>>, g: Graph, h: Bytes) {
    exists i :: 0 <= i < |inputs| && inputs[i].Some? && Reaches(g, HashPart(inputs[i].value), h)
  }

  lemma NeededIsReached(inputs: seq<Option<FileName>>, g: Graph, h: Bytes)
    requires None !in inputs
    ensures NeededBy(inputs, g, h) <==> ReachedFrom(g, InputHashparts(inputs), h)
  {
    hide HashPart, Reaches;
    var roots := InputHashparts(inputs);
    if i :| 0 <= i < |inputs| && inputs[i].Some? && Reaches(g, HashPart(inputs[i].value), h) {
      assert roots[i] in roots;
    }
    if r :| r in roots && Reaches(g, r, h) {
      var i :| 0 <= i < |roots| && roots[i] == r;
      assert inputs[i] in inputs;
      assert inputs[i].Some? && Reaches(g, HashPart(inputs[i].value), h);
    }
  }

  /** `resolve` succeeds exactly when there is nothing to do, or the store can be listed, the
      pattern built, every input is in the store, and every path any of them needs scans. */
  lemma ResolvableExactly(inputs: seq<Option<FileName>>, store: Store)
    requires ScannerInRange(CandidatesOf(store.listing), store.scan)
    ensures
      var cs := CandidatesOf(store.listing);
      Resolvable(inputs, store) <==>
        || inputs == []
        || (&& None !in store.listing && store.patternOk
            && (forall i :: 0 <= i < |inputs| ==> inputs[i].Some? && HashPart(inputs[i].value) in IndexOf(cs))
            && (forall h :: h in IndexOf(cs) && NeededBy(inputs, StoreGraph(cs, store.scan), h) ==>
                  store.scan(cs[IndexOf(cs)[h]].path).Scan?))
  {
    var cs := CandidatesOf(store.listing);
    var g := StoreGraph(cs, store.scan);
    StoreGraphClosed(cs, store.scan);
    if None !in inputs {
      RootsAre(inputs, cs);
      hide HashPart, CandidatesOf, IndexOf, ScannerInRange, StoreGraph, ReachedFrom, NeededBy, InputHashparts;
      forall h
        ensures NeededBy(inputs, g, h) <==> ReachedFrom(g, InputHashparts(inputs), h)
      {
        NeededIsReached(inputs, g, h);
      }
    } else {
      var i :| 0 <= i < |inputs| && inputs[i] == None;
    }
  }

  lemma RootsAre(inputs: seq<Option<FileName>>, cs: seq<Candidate>)
    requires None !in inputs
    ensures (forall h :: h in InputHashparts(inputs) ==> h in IndexOf(cs)) <==>
      forall i :: 0 <= i < |inputs| ==> inputs[i].Some? && HashPart(inputs[i].value) in IndexOf(cs)
  {
    hide HashPart, IndexOf;
    var roots := InputHashparts(inputs);
    if forall h :: h in roots ==> h in IndexOf(cs) {
      forall i | 0 <= i < |inputs|
        ensures inputs[i].Some? && HashPart(inputs[i].value) in IndexOf(cs)
      {
        assert inputs[i] in inputs && roots[i] in roots;
      }
    }
  }

  /** Every input is in the list, and the list has just what the inputs need. */
  lemma ListedExactly(inputs: seq<Option<FileName>>, store: Store, list: seq<ClosureEntry>, h: Bytes)
    requires ScannerInRange(CandidatesOf(store.listing), store.scan) && None !in inputs
    requires Resolved(inputs, store, list)
    ensures (exists j :: 0 <= j < |list| && HashPart(list[j].path) == h) <==>
      && h in IndexOf(CandidatesOf(store.listing))
      && NeededBy(inputs, StoreGraph(CandidatesOf(store.listing), store.scan), h)
  {
    var g, order := StoreGraph(CandidatesOf(store.listing), store.scan), OrderOf(list);
    NeededIsReached(inputs, g, h);
    StoreGraphClosed(CandidatesOf(store.listing), store.scan);
    hide HashPart, CandidatesOf, IndexOf, ScannerInRange, StoreGraph, NeededBy, InputHashparts, ReachedFrom, PostOrder;
    assert h in order <==> h in Reachable(g, InputHashparts(inputs));
    if h in order {
      var j :| 0 <= j < |order| && order[j] == h;
      assert HashPart(list[j].path) == h;
    }
    if j :| 0 <= j < |list| && HashPart(list[j].path) == h {
      assert order[j] == h;
    }
  }

  lemma EveryInputListed(inputs: seq<Option<FileName>>, store: Store, list: seq<ClosureEntry>, i: nat) returns (j: nat)
    requires ScannerInRange(CandidatesOf(store.listing), store.scan) && None !in inputs && i < |inputs|
    requires Resolvable(inputs, store) && Resolved(inputs, store, list)
    ensures j < |list| && HashPart(list[j].path) == HashPart(inputs[i].value)
  {
    var g := StoreGraph(CandidatesOf(store.listing), store.scan);
    var h := HashPart(inputs[i].value);
    ResolvableExactly(inputs, store);
    hide HashPart, CandidatesOf, IndexOf, ScannerInRange, StoreGraph, Resolved, Resolvable, Reaches;
    assert inputs[i] in inputs;
    ReachesSelf(g, h);
    ListedExactly(inputs, store, list, h);
    j :| 0 <= j < |list| && HashPart(list[j].path) == h;
  }

  /** Inputs are taken in order: the first inputs alone resolve to the start of the list. */
  lemma InputOrder(inputs: seq<Option<FileName>>, store: Store, list: seq<ClosureEntry>, k: nat,
                   front: seq<ClosureEntry>)
    requires ScannerInRange(CandidatesOf(store.listing), store.scan) && None !in inputs && k <= |inputs|
    requires Resolved(inputs, store, list) && Resolved(inputs[..k], store, front)
    ensures front <= list
  {
    var g := StoreGraph(CandidatesOf(store.listing), store.scan);
    var a, b := InputHashparts(inputs[..k]), InputHashparts(inputs[k..]);
    assert InputHashparts(inputs) == a + b;
    hide HashPart, CandidatesOf, IndexOf, ScannerInRange, StoreGraph, InputHashparts, PostOrder, DependencyOrder;
    PostOrderPrefix(g, a, b);
    assert OrderOf(front) <= OrderOf(list);
    assert |front| == |OrderOf(front)| && |list| == |OrderOf(list)|;
    forall i | 0 <= i < |front|
      ensures front[i] == list[i]
    {
      assert OrderOf(front)[i] == OrderOf(list)[i];
    }
  }

  /** Each entry is a listed store path with its own scan's hash and size, and its references
      are the hashparts its scan matched, without its own, in order. */
  lemma ListedIsScanned(inputs: seq<Option<FileName>>, store: Store, list: seq<ClosureEntry>, j: nat)
    requires ScannerInRange(CandidatesOf(store.listing), store.scan) && None !in inputs
    requires Resolved(inputs, store, list) && j < |list|
    ensures Some(list[j].path) in store.listing
    ensures
      var s := store.scan(list[j].path);
      && s.Scan? && list[j].narHash == s.narHash && list[j].narSize == s.narSize
      && MatchesInRange(s, |CandidatesOf(store.listing)|)
      && list[j].references == RefsOf(CandidatesOf(store.listing), s.matches, HashPart(list[j].path))
  {
    var cs := CandidatesOf(store.listing);
    var hp := OrderOf(list)[j];
    MatchesAt(cs, store.scan, list[j].path);
    hide HashPart, CandidatesOf, DependencyOrder, PostOrder, InputHashparts;
    assert list[j] == EntryOf(cs, store.scan, hp);
    var c := cs[IndexOf(cs)[hp]];
    assert c.hashpart == hp && Some(c.path) in store.listing;
  }
}
