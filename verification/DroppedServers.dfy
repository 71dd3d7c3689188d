/** Why availability needs the advertised servers to be kept: one path published to one
    server, then published again to another alone. */
module DroppedServers {
  import opened Base
  import opened Graphs
  import opened PostOrders
  import opened Sorting
  import opened HashTree
  import opened TreeReader
  import opened Blossom
  import opened PublishSpec
  import opened PublishLaws
  import opened PublishUploads
  import opened PublishRuns
  import Nhash
  import Closure

  /** A store with the single path `hp-`, which refers to nothing, published to server
      `a` and then to server `b`. */
  datatype Example = Example(env: Env, bech32: Nhash.Bech32, hp: Bytes, a: Server, b: Server,
                             narHash: Hash, narinfo: Bytes, nar: Bytes)
  {
    predicate Valid() {
      |hp| == 32 && Closure.DASH !in hp && a != b
    }

    function Path(): FileName
      requires Valid()
    {
      hp + [Closure.DASH]
    }

    function Name(): Text
      requires Valid()
    {
      NarinfoName(Path())
    }

    function Candidates(): seq<Closure.Candidate>
      requires Valid()
    {
      [Closure.Candidate(hp, Path())]
    }

    function Scanner(): Bytes -> Closure.Scan {
      (p: Bytes) => Closure.Scan(narHash, 0, [])
    }

    function Store(): Closure.Store
      requires Valid()
    {
      Closure.Store([Some(Path())], true, Scanner())
    }

    function Entry(): Closure.ClosureEntry
      requires Valid()
    {
      Closure.ClosureEntry(Path(), narHash, 0, [])
    }

    function Library(): Lib {
      Lib(env, bech32, (p: Bytes) => Some(Nar([], narHash)), (p: Bytes) => true,
          (info: NarInfo) => Some(Rendered(narinfo, [])))
    }

    function PublishTo(s: Server): Config
      requires Valid()
    {
      Config([Some(Path())], Store(), [s], (bytes: Bytes) => Some(nar), None, false)
    }

    function Built(): Item
      requires Valid()
    {
      Fresh(UnsignedInfo(Library(), [Entry()], Entry(), nar), narinfo, nar)
    }

    function BuiltEntry(): DirEntry
      requires Valid()
    {
      DirEntry(Name(), env.sha(narinfo), |narinfo| % U64_MOD)
    }

    function CacheInfo(): DirEntry {
      CacheInfoEntry(env.sha)
    }

    function SecondListing(): seq<DirEntry>
      requires Valid()
    {
      [BuiltEntry(), CacheInfo()]
    }

    ghost function FirstLog(): RunLog
      requires Valid()
    {
      LogTo(Library(), Entry(), Built(), [BuiltEntry()])
    }

    ghost function SecondLog(): RunLog
      requires Valid()
    {
      LogTo(Library(), Entry(), Carried, SecondListing())
    }

    ghost function FirstView(): View
      requires Valid()
    {
      ViewAfter(Library(), a, START, FirstLog())
    }

    ghost function SecondView(): View
      requires Valid()
    {
      ViewAfter(Library(), b, FirstView(), SecondLog())
    }
  }

  /** A run over one path in which every upload succeeds. */
  ghost function LogTo(lib: Lib, e: Closure.ClosureEntry, item: Item, listing: seq<DirEntry>): RunLog {
    RunLog([e], [item], listing, Uploads(lib, [item], listing))
  }

  /** The world after a run that stored all it offered on server `s` and was announced. */
  ghost function ViewAfter(lib: Lib, s: Server, v: View, log: RunLog): View {
    var manifest := Manifest(lib.env.sha, log.listing);
    View(v.held[s := Elements(log.uploads)],
         v.events + [RootEvent(Nhash.UriOf(lib.bech32, HashOf(lib.env, TreeOf(manifest))), [s])],
         v.manifests + [manifest], InfosOf(v.infos, log.items))
  }

  // ---- the closure ----

  lemma PathHashPart(x: Example)
    requires x.Valid()
    ensures Closure.HashPart(x.Path()) == x.hp && Closure.IsCandidateName(x.Path())
  {
    Closure.HashPartOf(x.hp, []);
    assert x.Path() == x.hp + [Closure.DASH] + [];
  }

  lemma OnlyCandidate(hp: Bytes, path: FileName)
    requires Closure.HashPart(path) == hp && Closure.IsCandidateName(path)
    ensures Closure.CandidatesOf([Some(path)]) == [Closure.Candidate(hp, path)]
  {
    hide Closure.HashPart, Closure.IsCandidateName;
    assert [Some(path)][..0] == [];
  }

  lemma OnlyIndex(c: Closure.Candidate)
    ensures Closure.IndexOf([c]) == map[c.hashpart := 0]
  {
    assert [c][..0] == [];
  }

  lemma ExampleCandidates(x: Example)
    requires x.Valid()
    ensures Closure.CandidatesOf(x.Store().listing) == x.Candidates()
    ensures Closure.IndexOf(x.Candidates()) == map[x.hp := 0]
    ensures Closure.ScannerInRange(x.Candidates(), x.Scanner())
  {
    hide Closure.HashPart, Closure.IsCandidateName, Closure.CandidatesOf, Closure.IndexOf;
    PathHashPart(x);
    OnlyCandidate(x.hp, x.Path());
    OnlyIndex(Closure.Candidate(x.hp, x.Path()));
  }

  lemma ExampleGraph(x: Example)
    requires x.Valid()
    ensures Closure.ScannerInRange(x.Candidates(), x.Scanner())
    ensures Closure.StoreGraph(x.Candidates(), x.Scanner()) == map[x.hp := []]
    ensures x.hp in Closure.IndexOf(x.Candidates()) && Closure.ScanOf(x.Candidates(), x.Scanner(), x.hp).Scan?
    ensures Closure.EntryOf(x.Candidates(), x.Scanner(), x.hp) == x.Entry()
  {
    ExampleCandidates(x);
    hide Closure.IndexOf, Closure.CandidatesOf;
  }

  lemma SingletonPostOrder(hp: Bytes)
    ensures PostOrder(map[hp := []], [hp]) == [hp]
  {
    var g: Graph := map[hp := []];
    assert UNVISITED.visited + {hp} == {hp};
    assert VisitAll(g, g[hp], Search({hp}, [])) == Search({hp}, []);
    assert [] + [hp] == [hp];
    var t := Search({hp}, [hp]);
    assert Visit(g, hp, UNVISITED) == t;
    assert [hp][1..] == [] && VisitAll(g, [], t) == t;
  }

  lemma SingletonOrder(hp: Bytes)
    ensures Closure.DependencyOrder(map[hp := []], [hp], [hp]) && PostOrder(map[hp := []], [hp]) == [hp]
  {
    SingletonPostOrder(hp);
    RootReached(map[hp := []], [hp], hp);
    hide ReachedFrom, Reaches, PostOrder;
    assert Reachable(map[hp := []], [hp]) == {hp};
  }

  lemma ExampleClosure(x: Example, s: Server)
    requires x.Valid()
    ensures ClosureOf(x.PublishTo(s), [x.Entry()])
  {
    ExampleCandidates(x);
    ExampleGraph(x);
    PathHashPart(x);
    SingletonOrder(x.hp);
    hide Closure.CandidatesOf, Closure.IndexOf, Closure.StoreGraph, Closure.HashPart, Closure.DependencyOrder,
      PostOrder,
      Closure.ScannerInRange, Closure.EntryOf, Closure.ScanOf;
    var list := [x.Entry()];
    assert Closure.InputHashparts(x.PublishTo(s).inputs) == [x.hp];
    assert seq(|list|, i requires 0 <= i < |list| => Closure.HashPart(list[i].path)) == [x.hp];
  }

  // ---- the two runs ----

  lemma StoredEverywhere(sha: Bytes -> Hash, held: Held, s: Server, blobs: set<Bytes>)
    requires s !in held
    ensures Gains(held, held[s := blobs], [s], blobs) && AllHave(sha, held[s := blobs], [s], blobs)
  {
    assert s in [s];
  }

  lemma RunTo(lib: Lib, cfg: Config, s: Server, v: View, prev: map<Text, DirEntry>, e: Closure.ClosureEntry, item: Item,
              listing: seq<DirEntry>)
    requires cfg.servers == [s] && s !in v.held && ClosureOf(cfg, [e]) && prev == Previous(v)
    requires PlanOf(lib, cfg, prev, [e], [item], listing)
    ensures
      var log := LogTo(lib, e, item, listing);
      Announces(lib, cfg, v, ViewAfter(lib, s, v, log), log)
  {
    StoredEverywhere(lib.env.sha, v.held, s, Elements(LogTo(lib, e, item, listing).uploads));
    hide ClosureOf, PlanOf, InfosOf, Uploads, Manifest, AllHave, HashOf, TreeOf, Gains, Previous, Elements;
  }

  lemma FirstMerge(x: Example)
    requires x.Valid()
    ensures ItemsOf(x.Library(), x.PublishTo(x.a), map[], [x.Entry()], [x.Built()])
    ensures EntriesFor(x.Library(), map[], [x.Entry()], [x.Built()]) == [x.BuiltEntry()]
    ensures Enumerates(InsertAll(map[], [x.BuiltEntry()]), [x.BuiltEntry()])
    ensures InfosOf(map[], [x.Built()]) == map[x.Name() := x.Built().info]
  {
    hide NarinfoName;
    assert [x.BuiltEntry()][..0] == [];
    assert [x.Built()][..0] == [];
  }

  lemma FirstRun(x: Example)
    requires x.Valid()
    ensures Announces(x.Library(), x.PublishTo(x.a), START, x.FirstView(), x.FirstLog())
  {
    ExampleClosure(x, x.a);
    FirstMerge(x);
    hide ClosureOf, ItemsOf, EntriesFor, Enumerates, InsertAll, NarinfoName, UnsignedInfo, Announces, LogTo, ViewAfter;
    RunTo(x.Library(), x.PublishTo(x.a), x.a, START, map[], x.Entry(), x.Built(),
      [x.BuiltEntry()]);
  }

  lemma NamedOfTwo(a: DirEntry, b: DirEntry, n: Bytes)
    requires a.name != b.name
    ensures Named([a, b], n) == if n == a.name then [a] else if n == b.name then [b] else []
  {
    assert Named([b], n) == (if n == b.name then [b] else []) by {
      assert [b][1..] == [];
    }
    assert [a, b][1..] == [b];
  }

  lemma SortedPairMap(a: DirEntry, b: DirEntry)
    requires a.name != b.name
    ensures ByName(SortByName([a, b])) == map[a.name := a, b.name := b]
  {
    var sorted := SortByName([a, b]);
    StableSort([a, b]);
    hide SortByName, ByName, Named;
    forall n: Text
      ensures n in ByName(sorted) <==> n == a.name || n == b.name
      ensures n == a.name ==> ByName(sorted)[n] == a
      ensures n == b.name ==> ByName(sorted)[n] == b
    {
      ByNameNamed(sorted, n);
      NamedOfTwo(a, b, n);
    }
  }

  lemma FirstMap(x: Example)
    requires x.Valid()
    ensures ByName(Manifest(x.env.sha, [x.BuiltEntry()])) == map[x.Name() := x.BuiltEntry(),
      CACHE_INFO_NAME := x.CacheInfo()]
  {
    NarinfoNameIsNotCacheInfo(x.Path());
    hide NarinfoName, SortByName, ByName;
    assert [x.BuiltEntry()] + [x.CacheInfo()] == [x.BuiltEntry(), x.CacheInfo()];
    SortedPairMap(x.BuiltEntry(), x.CacheInfo());
  }

  lemma SecondMerge(x: Example)
    requires x.Valid()
    ensures
      var prev := map[x.Name() := x.BuiltEntry(), CACHE_INFO_NAME := x.CacheInfo()];
      && ItemsOf(x.Library(), x.PublishTo(x.b), prev, [x.Entry()], [Carried])
      && EntriesFor(x.Library(), prev, [x.Entry()], [Carried]) == [x.BuiltEntry()]
      && InsertAll(prev, [x.BuiltEntry()]) == prev
      && Enumerates(prev, x.SecondListing())
    ensures InfosOf(map[x.Name() := x.Built().info], [Carried]) == map[x.Name() := x.Built().info]
  {
    NarinfoNameIsNotCacheInfo(x.Path());
    hide NarinfoName;
    assert [x.BuiltEntry()][..0] == [];
  }

  lemma SecondRun(x: Example)
    requires x.Valid()
    ensures Announces(x.Library(), x.PublishTo(x.b), x.FirstView(), x.SecondView(), x.SecondLog())
  {
    ExampleClosure(x, x.b);
    SecondMerge(x);
    FirstMap(x);
    FirstPrevious(x);
    hide ClosureOf, ItemsOf, EntriesFor, Enumerates, InsertAll, NarinfoName, Announces, LogTo, ViewAfter, ByName,
      Previous;
    RunTo(x.Library(), x.PublishTo(x.b), x.b, x.FirstView(), Previous(x.FirstView()), x.Entry(), Carried,
      x.SecondListing());
  }

  lemma FirstPrevious(x: Example)
    requires x.Valid()
    ensures Previous(x.FirstView()) == ByName(Manifest(x.env.sha, [x.BuiltEntry()]))
    ensures x.b !in x.FirstView().held && x.FirstView().infos == map[x.Name() := x.Built().info]
  {
    FirstMerge(x);
    hide Manifest, ByName, NarinfoName, InfosOf;
  }

  /** No blob of the second run has the narinfo's hash. */
  ghost predicate NoCoincidence(x: Example)
    requires x.Valid()
  {
    forall blob :: blob in x.SecondLog().uploads ==> x.env.sha(blob) != x.env.sha(x.narinfo)
  }

  lemma NotServed(x: Example)
    requires x.Valid() && NoCoincidence(x)
    ensures !CarriedServed(x.Library(), x.PublishTo(x.b), x.FirstView())
  {
    var v, n, h := x.FirstView(), x.Name(), x.env.sha(x.narinfo);
    FirstMap(x);
    FirstPrevious(x);
    NarinfoNameIsNotCacheInfo(x.Path());
    hide NarinfoName, ByName, Manifest, Previous, Makes, Uploads, Announces;
    assert n in Previous(v) && Previous(v)[n].hash == h && n in v.infos;
    assert !Has(x.env.sha, v.held, [x.b], h);
    SecondRun(x);
    AnnouncedUploads(x.Library(), x.PublishTo(x.b), v, x.SecondView(), x.SecondLog());
    assert !ServedAnyway(x.Library(), x.PublishTo(x.b), v, h);
  }

  lemma TwoSteps(lib: Lib, a: Step, b: Step, v: View, v': View)
    requires StepTo(lib, a, START, v) && StepTo(lib, b, v, v')
    ensures History(lib, [a, b], [START, v, v'])
  {
    hide StepTo;
  }

  /** Two announcing runs, the first with everything served and the second without. */
  lemma TwoRuns(lib: Lib, cfg: Config, cfg': Config, v: View, v': View, log: RunLog, log': RunLog,
                net: Net)
    requires Announces(lib, cfg, START, v, log) && Announces(lib, cfg', v, v', log')
    requires CarriedServed(lib, cfg, START) && !CarriedServed(lib, cfg', v)
    ensures History(lib, [Publishing(cfg, net, log), Publishing(cfg', net, log')], [START, v, v'])
    ensures AllAvailable(lib, v) && !AllAvailable(lib, v')
  {
    hide Announces, Aborts, Inv, CarriedServed, Available, Unannounced;
    TwoSteps(lib, Publishing(cfg, net, log), Publishing(cfg', net, log'), v, v');
    hide History, Run;
    StartInv(lib, START) by {
      StartUnannounced();
    }
    RunKeepsInv(lib, cfg, START, v, log) by {
      assert Run(lib, cfg, START, v, log);
    }
    AvailableExactly(lib, cfg, START, v, log);
    AvailableExactly(lib, cfg', v, v', log');
    LastShaped(lib, v);
  }

  lemma StartUnannounced()
    ensures Unannounced(START)
  {
  }

  /** The second root is announced, yet it cannot be read in full from the server its event
      advertises: the entry carried over has no blob there. Both runs succeed. */
  lemma DroppingServersLosesEntries(x: Example, net: Net)
    requires x.Valid() && NoCoincidence(x)
    ensures
      var steps := [Publishing(x.PublishTo(x.a), net, x.FirstLog()), Publishing(x.PublishTo(x.b), net, x.SecondLog())];
      History(x.Library(), steps, [START, x.FirstView(), x.SecondView()])
    ensures Announces(x.Library(), x.PublishTo(x.b), x.FirstView(), x.SecondView(), x.SecondLog())
    ensures AllAvailable(x.Library(), x.FirstView()) && !AllAvailable(x.Library(), x.SecondView())
  {
    FirstRun(x);
    SecondRun(x);
    NotServed(x);
    NothingCarried(x);
    hide Announces, History, CarriedServed, AllAvailable;
    TwoRuns(x.Library(), x.PublishTo(x.a), x.PublishTo(x.b), x.FirstView(), x.SecondView(), x.FirstLog(),
      x.SecondLog(), net);
  }

  lemma NothingCarried(x: Example)
    requires x.Valid()
    ensures CarriedServed(x.Library(), x.PublishTo(x.a), START)
  {
  }
}
