/** The theorems about every sequence of publish runs of a cache, from before its first root. */
module PublishRuns {
  import opened Base
  import opened Graphs
  import opened Sorting
  import opened HashTree
  import opened TreeLaws
  import opened TreeReader
  import opened Blossom
  import opened PublishSpec
  import opened PublishLaws
  import opened PublishUploads
  import Publish
  import Nhash
  import Closure

  // ---- histories ----

  /** Nothing has been announced yet. The servers may hold anything. */
  ghost predicate Unannounced(v: View) {
    v.events == [] && v.manifests == [] && v.infos == map[]
  }

  /** A run, with the answers its reads got, or a time in which others use the servers. */
  datatype Step = Publishing(cfg: Config, net: Net, log: RunLog) | Outside

  /** Others add blobs to any servers; the cache is left alone. */
  ghost predicate OthersUpload(v: View, v': View) {
    Grows(v.held, v'.held) && v' == v.(held := v'.held)
  }

  ghost predicate StepTo(lib: Lib, step: Step, v: View, v': View) {
    match step
    case Publishing(cfg, _, log) => Run(lib, cfg, v, v', log)
    case Outside => OthersUpload(v, v')
  }

  /** `views` are the states around the steps. */
  ghost predicate History(lib: Lib, steps: seq<Step>, views: seq<View>) {
    && |views| == |steps| + 1 && Unannounced(views[0])
    && forall i, j :: 0 <= i && j == i + 1 < |views| ==> StepTo(lib, steps[i], views[i], views[j])
  }

  lemma StartInv(lib: Lib, v: View)
    requires Unannounced(v)
    ensures Inv(lib, v)
  {
  }

  lemma OthersKeepInv(lib: Lib, v: View, v': View)
    requires OthersUpload(v, v') && Inv(lib, v)
    ensures Inv(lib, v')
  {
    hide Shaped, RefClosed, Growing, HashOf, TreeOf, Grows;
    assert v'.manifests == v.manifests && v'.events == v.events && v'.infos == v.infos;
  }

  lemma StepKeepsInv(lib: Lib, step: Step, v: View, v': View)
    requires StepTo(lib, step, v, v') && Inv(lib, v)
    ensures Inv(lib, v')
  {
    hide Inv, Run, OthersUpload;
    match step
    case Publishing(cfg, _, log) => RunKeepsInv(lib, cfg, v, v', log);
    case Outside => OthersKeepInv(lib, v, v');
  }

  /** In every state of every history: each announced URI is that of its manifest, each
      manifest is reference-closed, has each narinfo name once and `nix-cache-info` once
      (at first) or twice, and keeps every earlier narinfo entry unchanged. */
  lemma {:induction false} EveryStateKeepsInv(lib: Lib, steps: seq<Step>, views: seq<View>, i: nat)
    requires History(lib, steps, views) && i < |views|
    ensures Inv(lib, views[i])
  {
    hide Inv, StepTo, Unannounced;
    if i == 0 {
      StartInv(lib, views[0]);
    } else {
      EveryStateKeepsInv(lib, steps, views, i - 1);
      assert StepTo(lib, steps[i - 1], views[i - 1], views[i]);
      StepKeepsInv(lib, steps[i - 1], views[i - 1], views[i]);
    }
  }

  /** The invariant, with lossless codecs and no forged node, is all the next run's
      reading step asks for. */
  lemma NextRunCanRead(lib: Lib, net: Net, v: View)
    requires Inv(lib, v) && Lossless(lib.env) && Nhash.LosslessBech32(lib.bech32)
    requires v.events != [] ==> NoForgery(lib.env, net, TreeOf(v.manifests[|v.manifests| - 1]))
    ensures Publish.Readable(lib, net, v)
  {
    hide AllShaped, AllClosed, Growing, InfosKnown, HashOf, TreeOf, NoForgery, Lossless;
  }

  // ---- availability ----

  /** The k-th announced root resolves completely from the servers its event advertises. */
  ghost predicate Available(lib: Lib, v: View, k: nat)
    requires k < |v.events| && k < |v.manifests|
  {
    var servers, manifest := v.events[k].servers, v.manifests[k];
    && (forall x :: Within(x, TreeOf(manifest)) ==> Has(lib.env.sha, v.held, servers, HashOf(lib.env, x)))
    && Has(lib.env.sha, v.held, servers, lib.env.sha(CACHE_INFO))
    && forall n: Text :: n != CACHE_INFO_NAME && Named(manifest, n) != [] ==> Served(lib, v, servers, manifest, n)
  }

  /** The narinfo called `n` and the NAR it describes. */
  ghost predicate Served(lib: Lib, v: View, servers: seq<Server>, manifest: seq<DirEntry>, n: Text)
    requires Named(manifest, n) != []
  {
    && n in v.infos
    && Has(lib.env.sha, v.held, servers, Named(manifest, n)[0].hash)
    && Has(lib.env.sha, v.held, servers, v.infos[n].fileHash)
  }

  /** A hash that the configured servers can serve before the run, or that a blob the run
      makes has. Both are known before the run. */
  ghost predicate ServedAnyway(lib: Lib, cfg: Config, v: View, h: Hash) {
    || Has(lib.env.sha, v.held, cfg.servers, h)
    || exists b :: Makes(lib, cfg, Previous(v), b) && lib.env.sha(b) == h
  }

  /** Every entry already in the tree: its narinfo and NAR are on the configured servers
      before the run, or the run makes them again. */
  ghost predicate CarriedServed(lib: Lib, cfg: Config, v: View) {
    forall n :: n in Previous(v) && n in v.infos ==>
      ServedAnyway(lib, cfg, v, Previous(v)[n].hash) && ServedAnyway(lib, cfg, v, v.infos[n].fileHash)
  }

  lemma HasAfter(lib: Lib, cfg: Config, v: View, v': View, log: RunLog, h: Hash)
    requires Announces(lib, cfg, v, v', log)
    ensures Has(lib.env.sha, v'.held, cfg.servers, h) <==> ServedAnyway(lib, cfg, v, h)
  {
    HasAfterGains(lib.env.sha, v.held, v'.held, cfg.servers, Elements(log.uploads), h);
    hide Announces, Makes, Has, Previous;
    AnnouncedUploads(lib, cfg, v, v', log);
    if b :| b in Elements(log.uploads) && lib.env.sha(b) == h {
      assert Makes(lib, cfg, Previous(v), b);
    }
    if b :| Makes(lib, cfg, Previous(v), b) && lib.env.sha(b) == h {
      assert b in Elements(log.uploads);
    }
  }

  lemma HasAfterGains(sha: Bytes -> Hash, held: Held, held': Held, servers: seq<Server>, offered: set<Bytes>, h: Hash)
    requires Gains(held, held', servers, offered) && AllHave(sha, held', servers, offered)
    ensures Has(sha, held', servers, h) <==> Has(sha, held, servers, h) || exists b :: b in offered && sha(b) == h
  {
    if Has(sha, held', servers, h) {
      var s, b :| s in servers && b in HeldBy(held', s) && sha(b) == h;
      assert b in HeldBy(held, s) || b in offered;
    }
    if Has(sha, held, servers, h) {
      HasKept(sha, held, held', servers, offered, servers, h);
    }
  }

  lemma NodesServed(lib: Lib, cfg: Config, v: View, v': View, log: RunLog)
    requires Announces(lib, cfg, v, v', log)
    ensures forall x :: Within(x, TreeOf(Manifest(lib.env.sha, log.listing))) ==>
      Has(lib.env.sha, v'.held, cfg.servers, HashOf(lib.env, x))
    ensures Has(lib.env.sha, v'.held, cfg.servers, lib.env.sha(CACHE_INFO))
  {
    var manifest := Manifest(lib.env.sha, log.listing);
    hide Announces, Manifest, NodeList, Has, Within, TreeOf, HashOf, BytesOf, NodeUploads, ItemUploads;
    forall x | Within(x, TreeOf(manifest))
      ensures Has(lib.env.sha, v'.held, cfg.servers, HashOf(lib.env, x))
    {
      NodeListComplete(manifest, x);
      NodeUploaded(lib.env, manifest, x);
      UploadedIsServed(lib, cfg, v, v', log, BytesOf(lib.env, x));
      HashIsOfBytes(lib.env, x);
    }
    UploadedIsServed(lib, cfg, v, v', log, CACHE_INFO);
  }

  lemma FreshEntryNamed(lib: Lib, cfg: Config, v: View, v': View, log: RunLog, i: nat)
    requires Announces(lib, cfg, v, v', log) && i < |log.items| && i < |log.closure| && log.items[i].Fresh?
    ensures
      var n := NameAt(log.closure, i);
      && Named(Manifest(lib.env.sha, log.listing), n) == [EntryFor(lib, Previous(v), log.closure[i], log.items[i])]
      && n in v'.infos && v'.infos[n] == log.items[i].info
  {
    ItemCount(lib, cfg, Previous(v), log.closure, log.items);
    var n := NameAt(log.closure, i);
    hide ClosureOf, ItemsOf, Gains, AllHave, EntriesFor, EntryFor, InsertAll, Manifest, Enumerates, InfosOf,
      NarinfoName, Previous, Named;
    CacheInfoNotInClosure(log.closure);
    PublishLaws.PreviousKeyed(v);
    MergedMap(lib, cfg, Previous(v), log);
    NewManifestNamed(lib, cfg, v, v', log, n);
    ClosureNamesDistinct(cfg, log.closure);
    FreshPaths(lib, cfg, Previous(v), log.closure, log.items);
    InfosAt(v.infos, log.closure, log.items, n);
  }

  lemma FreshServed(lib: Lib, cfg: Config, v: View, v': View, log: RunLog, i: nat)
    requires Announces(lib, cfg, v, v', log) && i < |log.items| && i < |log.closure| && log.items[i].Fresh?
    ensures Named(Manifest(lib.env.sha, log.listing), NameAt(log.closure, i)) != []
    ensures Served(lib, v', cfg.servers, Manifest(lib.env.sha, log.listing), NameAt(log.closure, i))
  {
    var item := log.items[i];
    assert ItemOf(lib, cfg, Previous(v), log.closure, log.closure[i], item);
    FreshHashes(lib, cfg, Previous(v), log.closure, log.closure[i], item);
    ItemUploaded(log.items, i);
    UploadedIsServed(lib, cfg, v, v', log, item.narinfo);
    UploadedIsServed(lib, cfg, v, v', log, item.nar);
    hide Announces, ItemOf, EntryFor, Manifest, NarinfoName, Previous, Named, Has;
    FreshEntryNamed(lib, cfg, v, v', log, i);
  }

  /** A narinfo in the new manifest was in the old one or was built by the run. */
  lemma NewNameBuilt(lib: Lib, cfg: Config, v: View, v': View, log: RunLog, n: Text) returns (i: nat)
    requires Announces(lib, cfg, v, v', log) && n != CACHE_INFO_NAME && n !in Previous(v)
    requires Named(Manifest(lib.env.sha, log.listing), n) != []
    ensures i < |log.closure| && i < |log.items| && NameAt(log.closure, i) == n && log.items[i].Fresh?
  {
    ItemCount(lib, cfg, Previous(v), log.closure, log.items);
    hide ClosureOf, ItemsOf, Gains, AllHave, EntriesFor, InsertAll, Manifest, Enumerates, InfosOf,
      NarinfoName, Previous, Named;
    PublishLaws.PreviousKeyed(v);
    MergedMap(lib, cfg, Previous(v), log);
    NewManifestNamed(lib, cfg, v, v', log, n);
    i :| 0 <= i < |log.closure| && NameAt(log.closure, i) == n && log.items[i].Fresh?;
  }

  lemma FreshHashes(lib: Lib, cfg: Config, prev: map<Text, DirEntry>, closure: seq<Closure.ClosureEntry>,
                    e: Closure.ClosureEntry, item: Item)
    requires ItemOf(lib, cfg, prev, closure, e, item) && item.Fresh?
    ensures item.info.fileHash == lib.env.sha(item.nar)
    ensures EntryFor(lib, prev, e, item).hash == lib.env.sha(item.narinfo)
  {
  }

  /** A name already in the tree is served after the run iff it was, or is uploaded. */
  lemma CarriedIsServed(lib: Lib, cfg: Config, v: View, v': View, log: RunLog, n: Text)
    requires Announces(lib, cfg, v, v', log) && Inv(lib, v) && n in Previous(v) && n != CACHE_INFO_NAME
    ensures n in v.infos && Named(Manifest(lib.env.sha, log.listing), n) != []
    ensures Served(lib, v', cfg.servers, Manifest(lib.env.sha, log.listing), n) <==>
      ServedAnyway(lib, cfg, v, Previous(v)[n].hash)
      && ServedAnyway(lib, cfg, v, v.infos[n].fileHash)
  {
    hide Announces, Named, RootsAnnounced, Describes, NarinfoName, Manifest, Growing, Has, ServedAnyway;
    var last := v.manifests[|v.manifests| - 1];
    ByNameNamed(last, n);
    assert RefsPresent(lib, v.infos, last, n);
    EntriesCarriedOver(lib, cfg, v, v', log, n);
    InfosCarriedOver(lib, cfg, v, v', log, n);
    HasAfter(lib, cfg, v, v', log, Previous(v)[n].hash);
    HasAfter(lib, cfg, v, v', log, v.infos[n].fileHash);
  }

  lemma AnnouncedAt(lib: Lib, cfg: Config, v: View, v': View, log: RunLog)
    requires Announces(lib, cfg, v, v', log) && Inv(lib, v)
    ensures |v'.events| == |v.events| + 1 == |v'.manifests|
    ensures v'.manifests[|v.events|] == Manifest(lib.env.sha, log.listing)
    ensures v'.events[|v.events|].servers == cfg.servers
  {
  }

  lemma RecordedNames(lib: Lib, v: View)
    requires Inv(lib, v)
    ensures forall n :: n in v.infos ==> n in Previous(v) && n != CACHE_INFO_NAME
  {
  }

  /** When an announced root is complete: exactly when every entry carried over is on the
      configured servers already or is made again. What the run makes itself is. */
  lemma AvailableExactly(lib: Lib, cfg: Config, v: View, v': View, log: RunLog)
    requires Announces(lib, cfg, v, v', log) && Inv(lib, v)
    ensures |v'.events| == |v.events| + 1 == |v'.manifests|
    ensures Available(lib, v', |v.events|) <==> CarriedServed(lib, cfg, v)
  {
    var manifest, k := Manifest(lib.env.sha, log.listing), |v.events|;
    hide Announces, Manifest, Named, Inv, Previous, Served, ServedAnyway, Within, TreeOf, HashOf, Has;
    AnnouncedAt(lib, cfg, v, v', log);
    RecordedNames(lib, v);
    NodesServed(lib, cfg, v, v', log);
    forall n: Text | n != CACHE_INFO_NAME && n !in Previous(v) && Named(manifest, n) != []
      ensures Served(lib, v', cfg.servers, manifest, n)
    {
      var i := NewNameBuilt(lib, cfg, v, v', log, n);
      FreshServed(lib, cfg, v, v', log, i);
    }
    forall n: Text | n in Previous(v) && n != CACHE_INFO_NAME
      ensures n in v.infos && Named(manifest, n) != []
      ensures Served(lib, v', cfg.servers, manifest, n) <==>
        ServedAnyway(lib, cfg, v, Previous(v)[n].hash)
        && ServedAnyway(lib, cfg, v, v.infos[n].fileHash)
    {
      CarriedIsServed(lib, cfg, v, v', log, n);
    }
  }

  /** Every entry already in the tree has its narinfo and NAR on the configured servers. */
  ghost predicate CarriedOnServers(lib: Lib, cfg: Config, v: View) {
    forall n :: n in Previous(v) && n in v.infos ==>
      && Has(lib.env.sha, v.held, cfg.servers, Previous(v)[n].hash)
      && Has(lib.env.sha, v.held, cfg.servers, v.infos[n].fileHash)
  }

  /** No blob the run makes has the hash of a carried narinfo or NAR. */
  ghost predicate MakesNoneAgain(lib: Lib, cfg: Config, v: View) {
    forall b, n :: Makes(lib, cfg, Previous(v), b) && n in Previous(v) && n in v.infos ==>
      lib.env.sha(b) != Previous(v)[n].hash && lib.env.sha(b) != v.infos[n].fileHash
  }

  /** A check before the run: as the blobs of carried entries are not uploaded again, the
      new root will be complete exactly when they are on the configured servers. */
  lemma AvailableIffOnServers(lib: Lib, cfg: Config, v: View, v': View, log: RunLog)
    requires Announces(lib, cfg, v, v', log) && Inv(lib, v) && MakesNoneAgain(lib, cfg, v)
    ensures |v'.events| == |v.events| + 1 == |v'.manifests|
    ensures Available(lib, v', |v.events|) <==> CarriedOnServers(lib, cfg, v)
  {
    hide Announces, Inv, Available, Has, Makes, Previous;
    AvailableExactly(lib, cfg, v, v', log);
    forall n | n in Previous(v) && n in v.infos
      ensures ServedAnyway(lib, cfg, v, Previous(v)[n].hash) <==>
        Has(lib.env.sha, v.held, cfg.servers, Previous(v)[n].hash)
      ensures ServedAnyway(lib, cfg, v, v.infos[n].fileHash) <==>
        Has(lib.env.sha, v.held, cfg.servers, v.infos[n].fileHash)
    {
    }
  }

  /** That they are is enough whatever the run makes. */
  lemma OnServersSuffices(lib: Lib, cfg: Config, v: View, v': View, log: RunLog)
    requires Announces(lib, cfg, v, v', log) && Inv(lib, v) && CarriedOnServers(lib, cfg, v)
    ensures |v'.events| == |v.events| + 1 == |v'.manifests|
    ensures Available(lib, v', |v.events|)
  {
    hide Announces, Inv, Available, Has, Makes, Previous;
    AvailableExactly(lib, cfg, v, v', log);
  }

  function LastServers(v: View): seq<Server> {
    if v.events == [] then [] else v.events[|v.events| - 1].servers
  }

  /** The run's servers include all those the latest event advertises. */
  ghost predicate ServersKept(cfg: Config, v: View) {
    forall s :: s in LastServers(v) ==> s in cfg.servers
  }

  lemma HasWidened(sha: Bytes -> Hash, held: Held, servers: seq<Server>, more: seq<Server>, h: Hash)
    requires Has(sha, held, servers, h) && forall s :: s in servers ==> s in more
    ensures Has(sha, held, more, h)
  {
  }

  lemma LastShaped(lib: Lib, v: View)
    requires Inv(lib, v)
    ensures |v.events| == |v.manifests|
    ensures v.manifests != [] ==> Shaped(lib.env.sha, v.manifests[|v.manifests| - 1], |v.manifests| - 1)
  {
  }

  lemma KeptNameServed(lib: Lib, cfg: Config, v: View, n: Text)
    requires |v.events| == |v.manifests| > 0 && ServersKept(cfg, v)
    requires Shaped(lib.env.sha, v.manifests[|v.manifests| - 1], |v.manifests| - 1)
    requires Available(lib, v, |v.events| - 1)
    requires n in Previous(v) && n in v.infos && n != CACHE_INFO_NAME
    ensures Has(lib.env.sha, v.held, cfg.servers, Previous(v)[n].hash)
    ensures Has(lib.env.sha, v.held, cfg.servers, v.infos[n].fileHash)
  {
    var last := v.manifests[|v.manifests| - 1];
    ByNameNamed(last, n);
    assert |Named(last, n)| == 1;
    assert Served(lib, v, LastServers(v), last, n);
    hide Available, Shaped, Named, Has, ByName;
    HasWidened(lib.env.sha, v.held, LastServers(v), cfg.servers, Previous(v)[n].hash);
    HasWidened(lib.env.sha, v.held, LastServers(v), cfg.servers, v.infos[n].fileHash);
  }

  /** Keeping the servers is enough for everything carried over to be served. */
  lemma KeptIsServed(lib: Lib, cfg: Config, v: View)
    requires Inv(lib, v) && AllAvailable(lib, v) && ServersKept(cfg, v)
    ensures CarriedOnServers(lib, cfg, v) && CarriedServed(lib, cfg, v)
  {
    hide Inv, Has, Shaped, ServersKept;
    RecordedNames(lib, v);
    LastShaped(lib, v);
    forall n | n in Previous(v) && n in v.infos
      ensures Has(lib.env.sha, v.held, cfg.servers, Previous(v)[n].hash)
      ensures Has(lib.env.sha, v.held, cfg.servers, v.infos[n].fileHash)
    {
      assert Available(lib, v, |v.events| - 1);
      hide Available, AllAvailable;
      KeptNameServed(lib, cfg, v, n);
    }
  }

  ghost predicate AllAvailable(lib: Lib, v: View) {
    |v.events| == |v.manifests| && forall k :: 0 <= k < |v.events| ==> Available(lib, v, k)
  }

  /** What no step undoes: blobs, announcements and recorded narinfos. */
  ghost predicate Extends(v: View, v': View) {
    && Grows(v.held, v'.held) && v.events <= v'.events && v.manifests <= v'.manifests
    && forall n :: n in v.infos ==> n in v'.infos && v'.infos[n] == v.infos[n]
  }

  lemma RunGrows(lib: Lib, cfg: Config, v: View, v': View, log: RunLog)
    requires Run(lib, cfg, v, v', log)
    ensures Grows(v.held, v'.held) && v.events <= v'.events && v.manifests <= v'.manifests
    ensures Announces(lib, cfg, v, v', log) ==> |v'.events| == |v.events| + 1
    ensures !Announces(lib, cfg, v, v', log) ==> v'.events == v.events && v'.infos == v.infos
  {
    hide ClosureOf, PlanOf, Uploads, Underway, Manifest, InfosOf, AllHave;
  }

  lemma RunExtends(lib: Lib, cfg: Config, v: View, v': View, log: RunLog)
    requires Run(lib, cfg, v, v', log) && Inv(lib, v)
    ensures Extends(v, v')
  {
    hide Run, Announces, Inv, Previous, Grows;
    RunGrows(lib, cfg, v, v', log);
    RecordedNames(lib, v);
    if Announces(lib, cfg, v, v', log) {
      forall n | n in v.infos
        ensures n in v'.infos && v'.infos[n] == v.infos[n]
      {
        InfosCarriedOver(lib, cfg, v, v', log, n);
      }
    }
  }

  lemma StepGrows(lib: Lib, step: Step, v: View, v': View)
    requires StepTo(lib, step, v, v')
    ensures Grows(v.held, v'.held)
  {
    hide Run, Grows;
    if step.Publishing? {
      RunGrows(lib, step.cfg, v, v', step.log);
    }
  }

  /** No root ever becomes unavailable. */
  lemma OldRootStaysAvailable(lib: Lib, v: View, v': View, k: nat)
    requires Extends(v, v') && k < |v.events| && k < |v.manifests| && Available(lib, v, k)
    ensures k < |v'.events| && k < |v'.manifests| && Available(lib, v', k)
  {
    var servers, manifest := v.events[k].servers, v.manifests[k];
    var sha := lib.env.sha;
    hide Grows, Has, Named, TreeOf, Within, HashOf;
    forall x | Within(x, TreeOf(manifest))
      ensures Has(sha, v'.held, servers, HashOf(lib.env, x))
    {
      HasGrows(sha, v.held, v'.held, servers, HashOf(lib.env, x));
    }
    HasGrows(sha, v.held, v'.held, servers, sha(CACHE_INFO));
    forall n: Text | n != CACHE_INFO_NAME && Named(manifest, n) != []
      ensures Served(lib, v', servers, manifest, n)
    {
      assert Served(lib, v, servers, manifest, n);
      HasGrows(sha, v.held, v'.held, servers, Named(manifest, n)[0].hash);
      HasGrows(sha, v.held, v'.held, servers, v.infos[n].fileHash);
    }
  }

  lemma RunKeepsAvailable(lib: Lib, cfg: Config, v: View, v': View, log: RunLog)
    requires Run(lib, cfg, v, v', log) && Inv(lib, v) && Inv(lib, v')
    requires AllAvailable(lib, v) && ServersKept(cfg, v)
    ensures AllAvailable(lib, v')
  {
    hide Run, Announces, Inv, Available, ServersKept, CarriedServed, Extends;
    LastShaped(lib, v');
    RunGrows(lib, cfg, v, v', log);
    RunExtends(lib, cfg, v, v', log);
    forall k | 0 <= k < |v.events|
      ensures Available(lib, v', k)
    {
      OldRootStaysAvailable(lib, v, v', k);
    }
    if Announces(lib, cfg, v, v', log) {
      KeptIsServed(lib, cfg, v);
      AvailableExactly(lib, cfg, v, v', log);
    }
  }

  lemma OthersKeepAvailable(lib: Lib, v: View, v': View)
    requires OthersUpload(v, v') && AllAvailable(lib, v)
    ensures AllAvailable(lib, v')
  {
    assert Extends(v, v');
    hide Extends, Available, Grows;
    forall k | 0 <= k < |v.events|
      ensures Available(lib, v', k)
    {
      OldRootStaysAvailable(lib, v, v', k);
    }
  }

  /** Every run of the history kept the servers advertised before it. */
  ghost predicate ServersKeptAlong(steps: seq<Step>, views: seq<View>) {
    |views| > |steps| && forall i :: 0 <= i < |steps| && steps[i].Publishing? ==> ServersKept(steps[i].cfg, views[i])
  }

  /** Announce-last safety: in every state of every history whose runs keep the advertised
      servers, every announced root resolves completely from the servers it advertises. */
  lemma {:induction false} EveryRootAvailable(lib: Lib, steps: seq<Step>, views: seq<View>, i: nat)
    requires History(lib, steps, views) && i < |views|
    requires ServersKeptAlong(steps, views)
    ensures AllAvailable(lib, views[i])
  {
    hide Inv, Run, ServersKept, OthersUpload;
    if i > 0 {
      hide AllAvailable;
      EveryRootAvailable(lib, steps, views, i - 1);
      EveryStateKeepsInv(lib, steps, views, i - 1);
      EveryStateKeepsInv(lib, steps, views, i);
      assert StepTo(lib, steps[i - 1], views[i - 1], views[i]);
      match steps[i - 1]
      case Publishing(cfg, _, log) => RunKeepsAvailable(lib, cfg, views[i - 1], views[i], log);
      case Outside => OthersKeepAvailable(lib, views[i - 1], views[i]);
    }
  }

  // ---- what is on the servers ----

  /** The blob was on the server before the first step, or others put it there. */
  ghost predicate FromOutside(steps: seq<Step>, views: seq<View>, j: int, s: Server, b: Bytes) {
    exists i :: 0 <= i <= j && i < |views| && i <= |steps| && b in HeldBy(views[i].held, s) &&
      (i == 0 || (steps[i - 1].Outside? && b !in HeldBy(views[i - 1].held, s)))
  }

  /** The i-th step is a run that uploaded the blob to the server, among others. */
  ghost predicate UploadedBy(steps: seq<Step>, i: int, s: Server, b: Bytes) {
    && 0 <= i < |steps| && steps[i].Publishing?
    && s in steps[i].cfg.servers && b in steps[i].log.uploads
  }

  /** The blob is explained by the i-th step, a run, as of the j-th state. */
  ghost predicate ExplainedBy(lib: Lib, steps: seq<Step>, views: seq<View>, i: int, j: nat, b: Bytes)
    requires 0 <= i < |steps| && steps[i].Publishing? && i < |views| && j < |views|
  {
    Explained(lib, views[j].held, steps[i].cfg.servers, Previous(views[i]), steps[i].log, b)
  }

  /** In every state of every history, aborted runs included, every blob on every server came
      from outside, or a run put it there and it is the cache info, a NAR, a narinfo whose
      NAR is on that run's servers, or a node of that run's tree with everything below
      it, down to the entries' blobs, on that run's servers or carried over. */
  lemma {:induction false} EveryBlobExplained(lib: Lib, steps: seq<Step>, views: seq<View>, j: nat, s: Server, b: Bytes)
    requires History(lib, steps, views) && j < |views| && b in HeldBy(views[j].held, s)
    ensures FromOutside(steps, views, j, s, b) ||
      exists i :: UploadedBy(steps, i, s, b) && i < j && ExplainedBy(lib, steps, views, i, j, b)
    decreases j
  {
    hide Run, OthersUpload, Explained, Previous;
    if j > 0 {
      assert StepTo(lib, steps[j - 1], views[j - 1], views[j]);
      if b in HeldBy(views[j - 1].held, s) {
        EveryBlobExplained(lib, steps, views, j - 1, s, b);
        StepGrows(lib, steps[j - 1], views[j - 1], views[j]);
        if i :| UploadedBy(steps, i, s, b) && i < j - 1 && ExplainedBy(lib, steps, views, i, j - 1, b) {
          StaysExplained(lib, views[j - 1].held, views[j].held, steps[i].cfg.servers, Previous(views[i]), steps[i].log,
            b);
          assert ExplainedBy(lib, steps, views, i, j, b);
        }
      } else if steps[j - 1].Publishing? {
        NewBlobExplained(lib, steps[j - 1].cfg, views[j - 1], views[j], steps[j - 1].log, s, b);
        assert UploadedBy(steps, j - 1, s, b) && ExplainedBy(lib, steps, views, j - 1, j, b);
      }
    }
  }

  /** No run of the history uploads `b` other than as a tree node. */
  ghost predicate OnlyAsNode(steps: seq<Step>, b: Bytes) {
    forall i :: 0 <= i < |steps| && steps[i].Publishing? ==> !OtherUpload(steps[i].log, b)
  }

  /** A tree node, leaf or not, that is on some server and did not come from outside: a run
      put it there as a node `y` of its own tree, everything below `y` is on that run's
      servers or carried over, and so is all that `x` links to. Unless nodes collide,
      `x` is `y`. (A NAR or narinfo with the same bytes as a node is not one.) */
  lemma NoDanglingLinks(lib: Lib, steps: seq<Step>, views: seq<View>, j: nat, s: Server, x: Tree)
    returns (i: nat, y: Tree)
    requires History(lib, steps, views) && j < |views| && Lossless(lib.env) && Proper(x)
    requires BytesOf(lib.env, x) in HeldBy(views[j].held, s)
    requires !FromOutside(steps, views, j, s, BytesOf(lib.env, x)) && OnlyAsNode(steps, BytesOf(lib.env, x))
    ensures UploadedBy(steps, i, s, BytesOf(lib.env, x)) && i < j
    ensures
      var Publishing(cfg, _, log) := steps[i];
      && y in NodeList(Manifest(lib.env.sha, log.listing)) && BytesOf(lib.env, y) == BytesOf(lib.env, x)
      && NodeReady(lib, views[j].held, cfg.servers, Previous(views[i]), log, y)
      && LinksReady(lib, views[j].held, cfg.servers, Previous(views[i]), log, x)
    ensures NoCollision(lib.env, x, y) ==> x == y
  {
    var b := BytesOf(lib.env, x);
    hide History, FromOutside, Lossless, BytesOf, NodeReady, LinksReady, Previous, NodeList, Manifest, Proper,
      NoCollision;
    EveryBlobExplained(lib, steps, views, j, s, b);
    assert |views| == |steps| + 1 by {
      HistoryLength(lib, steps, views);
    }
    var k :| UploadedBy(steps, k, s, b) && k < j && ExplainedBy(lib, steps, views, k, j, b);
    i := k;
    var Publishing(cfg, _, log) := steps[i];
    y :| y in NodeList(Manifest(lib.env.sha, log.listing)) && b == BytesOf(lib.env, y) &&
      NodeReady(lib, views[j].held, cfg.servers, Previous(views[i]), log, y);
    TreeProper(Manifest(lib.env.sha, log.listing));
    SameBytesReady(lib, views[j].held, cfg.servers, Previous(views[i]), log, x, y);
  }

  lemma HistoryLength(lib: Lib, steps: seq<Step>, views: seq<View>)
    requires History(lib, steps, views)
    ensures |views| == |steps| + 1
  {
  }

  // ---- reading an announced root ----

  /** Whatever some advertised server holds can be fetched. */
  ghost predicate Fetchable(env: Env, net: Net, held: Held, servers: seq<Server>) {
    forall h: Hash, k: nat :: Has(env.sha, held, servers, h) ==> Fetched(env, h, net(k, h)).Ok?
  }

  /** An available root reads back as its manifest, for any reader deep enough. */
  lemma AvailableReadsBack(lib: Lib, v: View, k: nat, net: Net, fuel: nat)
    requires Inv(lib, v) && k < |v.events| && k < |v.manifests| && Available(lib, v, k)
    requires Lossless(lib.env) && Nhash.LosslessBech32(lib.bech32) && NoForgery(lib.env, net, TreeOf(v.manifests[k]))
    requires Fetchable(lib.env, net, v.held, v.events[k].servers) && fuel >= Height(TreeOf(v.manifests[k]))
    ensures
      var root := Nhash.ParsedUri(lib.bech32, v.events[k].uri);
      root.Ok? && Flattened(lib.env, net, fuel, root.value, 0).0 == Ok(v.manifests[k])
  {
    var t := TreeOf(v.manifests[k]);
    assert v.events[k].uri == Nhash.UriOf(lib.bech32, HashOf(lib.env, t));
    assert forall x :: Within(x, t) ==> Has(lib.env.sha, v.held, v.events[k].servers, HashOf(lib.env, x));
    hide Inv, Available, Has, Within, TreeOf, Lossless, HashOf, Height;
    Nhash.UriRoundTrip(lib.bech32, HashOf(lib.env, t));
    ServesAll(lib.env, net, t);
    TreeProper(v.manifests[k]);
    TreeHoldsEntries(v.manifests[k]);
    FlattenServed(lib.env, net, fuel, t, 0);
  }

  lemma ServesAll(env: Env, net: Net, t: Tree)
    requires NoForgery(env, net, t)
    requires forall x, k :: Within(x, t) ==> Fetched(env, HashOf(env, x), net(k, HashOf(env, x))).Ok?
    ensures Serves(env, net, t)
  {
    hide Within, HashOf;
    forall x, k | Within(x, t)
      ensures Fetched(env, HashOf(env, x), net(k, HashOf(env, x))) == Ok(BytesOf(env, x))
    {
      FetchExact(env, HashOf(env, x), net(k, HashOf(env, x)));
    }
  }

  // ---- republishing ----

  /** The names of a closure depend on the inputs and the store alone. */
  lemma SameInputsSameNames(cfg: Config, cfg': Config, closure: seq<Closure.ClosureEntry>,
                            closure': seq<Closure.ClosureEntry>, i: nat)
    requires ClosureOf(cfg, closure) && ClosureOf(cfg', closure')
    requires cfg.inputs == cfg'.inputs && cfg.store == cfg'.store && i < |closure|
    ensures exists j :: 0 <= j < |closure'| && NameAt(closure', j) == NameAt(closure, i)
  {
    hide Closure.CandidatesOf, Closure.ScannerInRange, Closure.StoreGraph, Reachable, Closure.HashPart, Closure.EntryOf,
      Closure.ScanOf, Closure.IndexOf;
    var order := seq(|closure|, k requires 0 <= k < |closure| => Closure.HashPart(closure[k].path));
    var order' := seq(|closure'|, k requires 0 <= k < |closure'| => Closure.HashPart(closure'[k].path));
    assert order[i] in order;
    assert order[i] in order';
    var j :| 0 <= j < |order'| && order'[j] == order[i];
    assert NameAt(closure', j) == NameAt(closure, i);
  }

  lemma LastNamed(lib: Lib, v: View, n: Text)
    requires |v.manifests| >= 1 && n != CACHE_INFO_NAME
    requires Shaped(lib.env.sha, v.manifests[|v.manifests| - 1], |v.manifests| - 1)
    ensures |Named(v.manifests[|v.manifests| - 1], n)| <= 1
    ensures n in Previous(v) <==> Named(v.manifests[|v.manifests| - 1], n) != []
  {
    hide ByName, Named;
    ByNameNamed(v.manifests[|v.manifests| - 1], n);
  }

  lemma RepublishNamed(lib: Lib, cfg: Config, v: View, v': View, log: RunLog, n: Text)
    requires Announces(lib, cfg, v, v', log) && |v.manifests| >= 1 && n != CACHE_INFO_NAME
    requires Shaped(lib.env.sha, v.manifests[|v.manifests| - 1], |v.manifests| - 1)
    requires forall i :: 0 <= i < |log.closure| ==> NameAt(log.closure, i) in Previous(v)
    ensures Named(Manifest(lib.env.sha, log.listing), n) == Named(v.manifests[|v.manifests| - 1], n)
  {
    hide Announces, Shaped, Named, NarinfoName, Manifest, Previous, NameAt;
    LastNamed(lib, v, n);
    if n in Previous(v) {
      EntriesCarriedOver(lib, cfg, v, v', log, n);
    } else {
      NothingBuilt(lib, cfg, v, v', log, n);
    }
  }

  lemma NothingBuilt(lib: Lib, cfg: Config, v: View, v': View, log: RunLog, n: Text)
    requires Announces(lib, cfg, v, v', log) && n != CACHE_INFO_NAME && n !in Previous(v)
    requires forall i :: 0 <= i < |log.closure| ==> NameAt(log.closure, i) in Previous(v)
    ensures Named(Manifest(lib.env.sha, log.listing), n) == []
  {
    hide Announces, Named, Manifest, Previous, NarinfoName;
    if Named(Manifest(lib.env.sha, log.listing), n) != [] {
      var i := NewNameBuilt(lib, cfg, v, v', log, n);
      assert false;
    }
  }

  /** A run whose paths are all in the tree already, from the second publish on, announces
      the manifest it found. */
  lemma RepublishIsFixed(lib: Lib, cfg: Config, v: View, v': View, log: RunLog)
    requires Announces(lib, cfg, v, v', log) && Inv(lib, v) && |v.manifests| >= 2
    requires forall i :: 0 <= i < |log.closure| ==> NameAt(log.closure, i) in Previous(v)
    ensures Manifest(lib.env.sha, log.listing) == v.manifests[|v.manifests| - 1]
  {
    var last, manifest := v.manifests[|v.manifests| - 1], Manifest(lib.env.sha, log.listing);
    LastShaped(lib, v);
    NewManifestShaped(lib, cfg, v, v', log);
    hide Inv, Announces, Manifest, Previous, Named, SortedByName;
    forall n: Bytes
      ensures Named(manifest, n) == Named(last, n)
    {
      if n == CACHE_INFO_NAME {
      } else if |n| < LEN32 {
        RepublishNamed(lib, cfg, v, v', log, n);
      } else {
        LongNamesAbsent(manifest, n);
        LongNamesAbsent(last, n);
      }
    }
    SortUnique(manifest, last);
  }

  lemma LongNamesAbsent(es: seq<DirEntry>, n: Bytes)
    requires |n| >= LEN32
    ensures Named(es, n) == []
  {
    NamedSound(es, n);
    if Named(es, n) != [] {
      assert Named(es, n)[0] in Named(es, n);
    }
  }

  lemma PreviousAfter(lib: Lib, cfg: Config, v: View, v': View, log: RunLog)
    requires Announces(lib, cfg, v, v', log)
    ensures Previous(v') == ByName(Manifest(lib.env.sha, log.listing))
    ensures ClosureOf(cfg, log.closure) && ItemsOf(lib, cfg, Previous(v), log.closure, log.items)
  {
    hide ClosureOf, ItemsOf, Gains, AllHave, EntriesFor, InsertAll, Manifest, Enumerates, InfosOf, ByName;
  }

  /** Every path of an announcing run is in the next run's tree. */
  lemma PublishedNames(lib: Lib, cfg: Config, v: View, v': View, log: RunLog, i: nat)
    requires Announces(lib, cfg, v, v', log) && i < |log.closure|
    ensures NameAt(log.closure, i) in Previous(v')
  {
    hide Announces, ClosureOf, ItemsOf, EntriesFor, InsertAll, Manifest, NarinfoName, Previous, Named, ByName;
    PreviousAfter(lib, cfg, v, v', log);
    PublishLaws.PreviousKeyed(v);
    MergedMap(lib, cfg, Previous(v), log);
    NewManifestNamed(lib, cfg, v, v', log, NameAt(log.closure, i));
    ByNameNamed(Manifest(lib.env.sha, log.listing), NameAt(log.closure, i));
  }

  /** Publishing the same inputs from the same store again, from the second publish on,
      announces the same root. */
  lemma SameInputsSameRoot(lib: Lib, cfg: Config, cfg': Config, v: View, v': View, v'': View, log: RunLog, log': RunLog)
    requires Inv(lib, v) && Announces(lib, cfg, v, v', log) && Announces(lib, cfg', v', v'', log')
    requires cfg.inputs == cfg'.inputs && cfg.store == cfg'.store && |v.manifests| >= 1
    ensures |v'.events| >= 1 && |v''.events| == |v'.events| + 1
    ensures v''.manifests[|v''.manifests| - 1] == v'.manifests[|v'.manifests| - 1]
    ensures v''.events[|v''.events| - 1].uri == v'.events[|v'.events| - 1].uri
  {
    hide Named, Manifest, EntriesFor, InsertAll, Previous, HashOf, TreeOf, ItemsOf, Enumerates, AllHave, Gains, InfosOf;
    RunKeepsInv(lib, cfg, v, v', log);
    assert RootsAnnounced(lib, v) && RootsAnnounced(lib, v');
    hide Inv, ClosureOf;
    forall i | 0 <= i < |log'.closure|
      ensures NameAt(log'.closure, i) in Previous(v')
    {
      SameInputsSameNames(cfg', cfg, log'.closure, log.closure, i);
      var j :| 0 <= j < |log.closure| && NameAt(log.closure, j) == NameAt(log'.closure, i);
      PublishedNames(lib, cfg, v, v', log, j);
    }
    RepublishIsFixed(lib, cfg', v', v'', log');
  }

  // ---- recorded references ----

  ghost predicate InClosure(closure: seq<Closure.ClosureEntry>, hp: Bytes) {
    exists i :: 0 <= i < |closure| && Closure.HashPart(closure[i].path) == hp
  }

  /** Recording a narinfo's references drops none of them. */
  lemma {:induction false} RefPathsExact(lib: Lib, closure: seq<Closure.ClosureEntry>, refs: seq<Bytes>)
    requires forall i :: 0 <= i < |closure| ==> lib.parses(closure[i].path)
    requires forall r :: r in refs ==> InClosure(closure, r)
    ensures |RefPaths(lib, closure, refs)| == |refs|
    ensures forall k :: 0 <= k < |refs| ==> Closure.HashPart(RefPaths(lib, closure, refs)[k]) == refs[k]
  {
    hide Closure.HashPart;
    if refs != [] {
      RefPathsExact(lib, closure, refs[1..]);
      assert refs[0] in refs;
    }
  }

  /** In a run over store paths that parse, a built narinfo records exactly the references
      its scan found, in the same order. */
  lemma RecordedRefsAreScanned(lib: Lib, cfg: Config, v: View, v': View, log: RunLog, i: nat)
    requires Announces(lib, cfg, v, v', log) && i < |log.items| && i < |log.closure| && log.items[i].Fresh?
    requires forall k :: 0 <= k < |log.closure| ==> lib.parses(log.closure[k].path)
    ensures
      var recorded, scanned := log.items[i].info.references, log.closure[i].references;
      |recorded| == |scanned| && forall k :: 0 <= k < |scanned| ==> Closure.HashPart(recorded[k]) == scanned[k]
  {
    assert ItemOf(lib, cfg, Previous(v), log.closure, log.closure[i], log.items[i]);
    assert ClosureOf(cfg, log.closure);
    hide Announces, ItemOf, ClosureOf, Describes, EntryFor, Previous;
    FreshDescribed(lib, cfg, Previous(v), log.closure, log.closure[i], log.items[i]);
    ReferencesInClosure(cfg, log.closure, i);
    RefPathsExact(lib, log.closure, log.closure[i].references);
  }

  /** The closure is closed: what a path refers to is in it. */
  lemma ReferencesInClosure(cfg: Config, closure: seq<Closure.ClosureEntry>, i: nat)
    requires ClosureOf(cfg, closure) && i < |closure|
    ensures forall r :: r in closure[i].references ==> InClosure(closure, r)
  {
    hide Closure.Resolvable;
    var cs := Closure.CandidatesOf(cfg.store.listing);
    var g := Closure.StoreGraph(cs, cfg.store.scan);
    var roots := Closure.InputHashparts(cfg.inputs);
    var order := seq(|closure|, k requires 0 <= k < |closure| => Closure.HashPart(closure[k].path));
    assert order[i] in order;
    Closure.GraphRow(cs, cfg.store.scan, order[i]);
    Closure.StoreGraphClosed(cs, cfg.store.scan);
    hide Closure.CandidatesOf, Closure.ScannerInRange, Closure.StoreGraph, Reachable, Closure.HashPart,
      Closure.ScanOf, Closure.IndexOf;
    ReachableClosed(g, roots);
    forall r | r in closure[i].references
      ensures InClosure(closure, r)
    {
      assert Edge(g, order[i], r);
      assert r in order;
      var j :| 0 <= j < |order| && order[j] == r;
      assert Closure.HashPart(closure[j].path) == r;
    }
  }
}
