/** Why the documented order needs a store without reference cycles: two store paths that
    refer to each other. */
module CyclicStore {
  import opened Base
  import opened Graphs
  import opened Closure

  /** Hashparts of two store paths, `a-` and `b-`. */
  datatype Pair = Pair(a: Bytes, b: Bytes) {
    predicate Valid() {
      |a| == 32 && |b| == 32 && DASH !in a && DASH !in b && a != b
    }

    function PathA(): FileName
      requires Valid()
    {
      a + [DASH]
    }

    function PathB(): FileName
      requires Valid()
    {
      b + [DASH]
    }

    function Candidates(): seq<Candidate>
      requires Valid()
    {
      [Candidate(a, PathA()), Candidate(b, PathB())]
    }

    /** Each path's contents mention the other. */
    function Scanner(): Bytes -> Scan {
      (p: Bytes) => Scan.Scan(seq(32, _ => 0), 0, if p == a + [DASH] then [1] else [0])
    }

    function Contents(): Store
      requires Valid()
    {
      Store([Some(PathA()), Some(PathB())], true, Scanner())
    }
  }

  lemma PathHashParts(x: Pair)
    requires x.Valid()
    ensures HashPart(x.PathA()) == x.a && IsCandidateName(x.PathA())
    ensures HashPart(x.PathB()) == x.b && IsCandidateName(x.PathB())
  {
    HashPartOf(x.a, []);
    HashPartOf(x.b, []);
    assert x.PathA() == x.a + [DASH] + [] && x.PathB() == x.b + [DASH] + [];
  }

  lemma CandidatesPush(listing: seq<Option<FileName>>, n: FileName)
    requires IsCandidateName(n)
    ensures CandidatesOf(listing + [Some(n)]) == CandidatesOf(listing) + [Candidate(HashPart(n), n)]
  {
    hide HashPart, IsCandidateName;
    assert (listing + [Some(n)])[..|listing|] == listing;
  }

  lemma TwoCandidates(x: Pair)
    requires x.Valid()
    ensures CandidatesOf(x.Contents().listing) == x.Candidates()
  {
    PathHashParts(x);
    CandidatesPush([], x.PathA());
    CandidatesPush([Some(x.PathA())], x.PathB());
    NoCandidates();
    hide HashPart, IsCandidateName, CandidatesOf;
    assert [] + [Some(x.PathA())] == [Some(x.PathA())];
    assert [Some(x.PathA())] + [Some(x.PathB())] == x.Contents().listing;
  }

  lemma NoCandidates()
    ensures CandidatesOf([]) == []
  {
  }

  lemma TwoIndexed(x: Pair)
    requires x.Valid()
    ensures IndexOf(x.Candidates()) == map[x.a := 0, x.b := 1]
  {
    var cs := x.Candidates();
    assert cs[..1] == [cs[0]] && cs[..1][..0] == [];
  }

  lemma MutualRefs(x: Pair)
    requires x.Valid()
    ensures RefsOf(x.Candidates(), [1], x.a) == [x.b] && RefsOf(x.Candidates(), [0], x.b) == [x.a]
  {
    assert [1][1..] == [] && [0][1..] == [];
  }

  /** Each of the two paths scans, and refers to the other. */
  lemma MutualScans(x: Pair)
    requires x.Valid()
    ensures ScannerInRange(x.Candidates(), x.Scanner())
    ensures x.a in IndexOf(x.Candidates()) && ScanOf(x.Candidates(), x.Scanner(), x.a).Scan?
    ensures x.b in IndexOf(x.Candidates()) && ScanOf(x.Candidates(), x.Scanner(), x.b).Scan?
    ensures EntryOf(x.Candidates(), x.Scanner(), x.a).references == [x.b]
    ensures EntryOf(x.Candidates(), x.Scanner(), x.b).references == [x.a]
  {
    TwoIndexed(x);
    MutualRefs(x);
    assert x.PathA()[..32] == x.a && x.PathB()[..32] == x.b;
    hide IndexOf, RefsOf;
  }

  /** The store's reference graph is the two-path cycle, and every scan succeeds. */
  lemma MutualGraph(x: Pair)
    requires x.Valid()
    ensures ScannerInRange(x.Candidates(), x.Scanner())
    ensures StoreGraph(x.Candidates(), x.Scanner()) == map[x.a := [x.b], x.b := [x.a]]
    ensures AllScansSucceed(x.Candidates(), x.Scanner(), [x.a])
  {
    MutualScans(x);
    TwoIndexed(x);
    hide IndexOf, ReachedFrom, ScannerInRange, ScanOf, EntryOf, Pair.Scanner, Pair.Candidates;
  }

  lemma TwoCycle(a: Bytes, b: Bytes)
    requires a != b
    ensures !AcyclicFrom(map[a := [b], b := [a]], [a])
  {
    var g: Graph := map[a := [b], b := [a]];
    RootReached(g, [a], a);
    assert a in Reachable(g, [a]) && Edge(g, a, b) && Edge(g, b, a);
    ReachesSelf(g, b);
    ReachesStep(g, b, b, a);
  }

  lemma OneInput(p: FileName, store: Store, cs: seq<Candidate>)
    requires cs == CandidatesOf(store.listing) && ScannerInRange(cs, store.scan)
    requires None !in store.listing && store.patternOk && HashPart(p) in IndexOf(cs)
    requires AllScansSucceed(cs, store.scan, [HashPart(p)])
    ensures Resolvable([Some(p)], store)
    ensures StoreAcyclic([Some(p)], store) <==> AcyclicFrom(StoreGraph(cs, store.scan), [HashPart(p)])
  {
    hide HashPart, CandidatesOf, IndexOf, StoreGraph, AllScansSucceed, AcyclicFrom, ScannerInRange;
    assert InputHashparts([Some(p)]) == [HashPart(p)];
  }

  lemma MutualContents(x: Pair)
    requires x.Valid()
    ensures x.Contents().patternOk && None !in x.Contents().listing && x.Contents().scan == x.Scanner()
  {
  }

  lemma MutualResolvable(x: Pair)
    requires x.Valid()
    ensures ScannerInRange(CandidatesOf(x.Contents().listing), x.Contents().scan)
    ensures Resolvable([Some(x.PathA())], x.Contents())
    ensures !StoreAcyclic([Some(x.PathA())], x.Contents())
  {
    assert x.a != x.b;
    hide *;
    TwoCycle(x.a, x.b);
    TwoCandidates(x);
    TwoIndexed(x);
    MutualGraph(x);
    PathHashParts(x);
    MutualContents(x);
    OneInput(x.PathA(), x.Contents(), x.Candidates());
  }

  /** `resolve` succeeds on the first path of such a store, and nothing it can return is in
      the documented order. */
  lemma CycleHasNoOrder(x: Pair)
    requires x.Valid()
    ensures ScannerInRange(CandidatesOf(x.Contents().listing), x.Contents().scan)
    ensures Resolvable([Some(x.PathA())], x.Contents())
    ensures forall list :: Resolved([Some(x.PathA())], x.Contents(), list) ==> !DocumentedOrder(list)
  {
    MutualResolvable(x);
    hide CandidatesOf, Resolvable, Resolved, DocumentedOrder, ScannerInRange, StoreAcyclic, Pair.Contents, Pair.PathA;
    forall list | Resolved([Some(x.PathA())], x.Contents(), list)
      ensures !DocumentedOrder(list)
    {
      ResolvedOrderExactly([Some(x.PathA())], x.Contents(), list);
    }
  }
}
