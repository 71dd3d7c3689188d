/** The publish pipeline (src/lib.rs:83-373), run against servers, relays and library
    code that may fail at any point. */
module Publish {
  import opened Base
  import opened Sorting
  import opened HashTree
  import opened TreeLaws
  import opened TreeReader
  import opened Blossom
  import opened PublishSpec
  import Nhash
  import Closure

  datatype PublishError =
    | NoStorePaths | RelayQuery | BadRootUri | FlattenFailed(error: ReadError)
    | ClosureFailed(cause: Closure.ResolveError)
    | NarEncoding | NarHashMismatch | Compression | BadBasename | NarInfoBuild | UploadFailed | EventNotAccepted

  class World {
    const cluster: Cluster
    var events: seq<RootEvent>
    ghost var manifests: seq<seq<DirEntry>>
    ghost var infos: map<Text, NarInfo>

    constructor (cluster: Cluster)
      ensures this.cluster == cluster && events == [] && manifests == [] && infos == map[]
    {
      this.cluster := cluster;
      events, manifests, infos := [], [], map[];
    }

    ghost function View(): View
      reads this, cluster
    {
      PublishSpec.View(cluster.held, events, manifests, infos)
    }
  }

  /** What a run assumes: the codecs are lossless, the last announced URI is that of the
      last manifest, and no server forges one of that manifest's nodes. */
  ghost predicate Readable(lib: Lib, net: Net, v: View) {
    && Lossless(lib.env) && Nhash.LosslessBech32(lib.bech32)
    && |v.events| == |v.manifests|
    && (v.events != [] ==>
          var manifest := v.manifests[|v.manifests| - 1];
          && v.events[|v.events| - 1].uri == Nhash.UriOf(lib.bech32, HashOf(lib.env, TreeOf(manifest)))
          && NoForgery(lib.env, net, TreeOf(manifest)))
  }

  /** Steps 1 and 2: find the latest root and flatten its tree into a map. */
  method FetchExisting(world: World, lib: Lib, net: Net, fuel: nat)
    returns (r: Result<map<Text, DirEntry>, PublishError>)
    ensures r.Ok? ==> KeyedByName(r.value)
    ensures r.Ok? && Readable(lib, net, world.View()) ==> r.value == Previous(world.View())
    ensures r.Err? ==>
      || r.error == RelayQuery
      || (world.events != [] && r.error.FlattenFailed?)
      || (world.events != [] && r.error == BadRootUri && !Readable(lib, net, world.View()))
  {
    hide HashOf, TreeOf, Flattened, Nhash.ParsedUri, ByName, Readable, Previous;
    if * {
      return Err(RelayQuery);
    }
    var existing: map<Text, DirEntry> := map[];
    if world.events == [] {
      NothingBefore(lib, net, world.View());
      return Ok(existing);
    }
    var root := Nhash.ParseNhashUri(lib.bech32, world.events[|world.events| - 1].uri);
    if root.Err? {
      if Readable(lib, net, world.View()) {
        ReadBack(lib, net, world.View(), fuel);
      }
      return Err(BadRootUri);
    }
    var entries, _ := FlattenNode(lib.env, net, fuel, root.value, 0);
    if entries.Err? {
      return Err(FlattenFailed(entries.error));
    }
    if Readable(lib, net, world.View()) {
      ReadBack(lib, net, world.View(), fuel);
    }
    existing := MapByName(entries.value);
    r := Ok(existing);
  }

  lemma NothingBefore(lib: Lib, net: Net, v: View)
    requires v.events == []
    ensures Readable(lib, net, v) ==> Previous(v) == map[]
  {
  }

  method MapByName(entries: seq<DirEntry>) returns (m: map<Text, DirEntry>)
    ensures m == ByName(entries) && KeyedByName(m)
  {
    m := map[];
    for i := 0 to |entries|
      invariant m == ByName(entries[..i])
    {
      m := m[entries[i].name := entries[i]];
      assert entries[..i + 1][..i] == entries[..i];
    }
    assert entries[..|entries|] == entries;
  }

  /** The latest event's URI parses to the last manifest's root, and a successful
      flatten of that root gives the manifest. */
  lemma ReadBack(lib: Lib, net: Net, v: View, fuel: nat)
    requires Readable(lib, net, v) && v.events != []
    ensures
      var manifest := v.manifests[|v.manifests| - 1];
      var root := HashOf(lib.env, TreeOf(manifest));
      && Nhash.ParsedUri(lib.bech32, v.events[|v.events| - 1].uri) == Ok(root)
      && (Flattened(lib.env, net, fuel, root, 0).0.Ok? ==> Flattened(lib.env, net, fuel, root, 0).0.value == manifest)
      && Previous(v) == ByName(manifest)
  {
    hide HashOf, NoForgery, Lossless, TreeOf, Flattened, Entries, Proper, ByName, Nhash.ParsedUri, Nhash.UriOf,
      Nhash.LosslessBech32;
    var manifest := v.manifests[|v.manifests| - 1];
    var root := HashOf(lib.env, TreeOf(manifest));
    Nhash.UriRoundTrip(lib.bech32, root);
    TreeProper(manifest);
    TreeHoldsEntries(manifest);
    if Flattened(lib.env, net, fuel, root, 0).0.Ok? {
      FlattenIntegrity(lib.env, net, fuel, TreeOf(manifest), 0);
    }
  }

  // ---- uploads ----

  /** What the run has offered so far is all that has appeared, and all of it is there. */
  ghost predicate Sent(sha: Bytes -> Hash, start: Held, held: Held, servers: seq<Server>, offered: seq<Bytes>) {
    Gains(start, held, servers, Elements(offered)) && AllHave(sha, held, servers, Elements(offered))
  }

  lemma SentIsStored(sha: Bytes -> Hash, start: Held, held: Held, servers: seq<Server>, offered: seq<Bytes>)
    requires Sent(sha, start, held, servers, offered)
    ensures Stored(sha, start, held, servers, offered)
  {
    hide Has, Gains;
  }

  lemma SentNothing(sha: Bytes -> Hash, start: Held, servers: seq<Server>)
    ensures Sent(sha, start, start, servers, [])
  {
  }

  lemma SentMore(sha: Bytes -> Hash, start: Held, before: Held, held: Held, servers: seq<Server>, offered: seq<Bytes>,
                 blob: Bytes)
    requires Sent(sha, start, before, servers, offered) && Gains(before, held, servers, {blob})
    ensures Stored(sha, start, held, servers, offered + [blob])
    ensures Has(sha, held, servers, sha(blob)) ==> Sent(sha, start, held, servers, offered + [blob])
  {
    assert Elements(offered + [blob]) == Elements(offered) + {blob};
    assert AllButLast(offered + [blob]) == offered;
    forall b | b in offered
      ensures Has(sha, held, servers, sha(b))
    {
      HasKept(sha, before, held, servers, {blob}, servers, sha(b));
    }
  }

  /** The uploader belongs to this run and has lost at most one token per blob and server.
      A dry run has none and offers nothing. */
  ghost predicate Ready(uploader: BlossomUploader?, lib: Lib, cfg: Config, offered: seq<Bytes>)
    reads uploader
  {
    if uploader == null then offered == [] else
      && uploader.Valid() && uploader.sha == lib.env.sha && uploader.servers == cfg.servers
      && DropCount(uploader.log) <= |offered| * |cfg.servers|
  }

  /** Offer one blob to the servers; a dry run has no uploader and offers nothing. */
  method Send(uploader: BlossomUploader?, cluster: Cluster, lib: Lib, cfg: Config, blob: Bytes,
              ghost start: Held, ghost offered: seq<Bytes>)
    returns (ok: bool, ghost offered': seq<Bytes>)
    requires Ready(uploader, lib, cfg, offered)
    requires Sent(lib.env.sha, start, cluster.held, cfg.servers, offered)
    modifies cluster, uploader
    ensures Ready(uploader, lib, cfg, offered')
    ensures uploader == null ==> ok && offered' == offered && cluster.held == old(cluster.held)
    ensures uploader != null ==> offered' == offered + [blob]
    ensures Stored(lib.env.sha, start, cluster.held, cfg.servers, offered')
    ensures ok ==> Sent(lib.env.sha, start, cluster.held, cfg.servers, offered')
  {
    hide Sent, Stored, Gains, DropCount, Has, AllHave;
    if uploader == null {
      SentIsStored(lib.env.sha, start, cluster.held, cfg.servers, offered);
      return true, offered;
    }
    offered' := offered + [blob];
    assert |offered'| * |cfg.servers| == |offered| * |cfg.servers| + |cfg.servers|;
    ghost var before := cluster.held;
    var result, _, _, _ := uploader.Upload(cluster, blob);
    ok := result.Ok?;
    SentMore(lib.env.sha, start, before, cluster.held, cfg.servers, offered, blob);
  }

  // ---- steps 4 to 7 ----

  /** Why a path that is not in the tree yet cannot be built. */
  ghost predicate CannotBuild(lib: Lib, cfg: Config, existing: map<Text, DirEntry>,
                              closure: seq<Closure.ClosureEntry>, e: Closure.ClosureEntry, error: PublishError) {
    && NarinfoName(e.path) !in existing
    && var encoded := lib.encodeNar(e.path);
    match error
    case NarEncoding => encoded.None?
    case NarHashMismatch => encoded.Some? && encoded.value.hash != e.narHash
    case Compression => encoded.Some? && cfg.compress(encoded.value.bytes).None?
    case BadBasename => !lib.parses(e.path)
    case NarInfoBuild => exists info :: Renders(lib, cfg, closure, e, info) && lib.render(info).None?
    case _ => false
  }

  /** Something becomes of a path exactly when nothing is wrong with it. */
  lemma BuildsOrNot(lib: Lib, cfg: Config, existing: map<Text, DirEntry>, closure: seq<Closure.ClosureEntry>,
                    e: Closure.ClosureEntry)
    ensures (exists item :: ItemOf(lib, cfg, existing, closure, e, item)) <==>
      forall error :: !CannotBuild(lib, cfg, existing, closure, e, error)
  {
    hide NarinfoName, RefPaths;
    if forall error :: !CannotBuild(lib, cfg, existing, closure, e, error) {
      var item := TheItem(lib, cfg, existing, closure, e);
    }
  }

  lemma TheItem(lib: Lib, cfg: Config, existing: map<Text, DirEntry>, closure: seq<Closure.ClosureEntry>,
                e: Closure.ClosureEntry) returns (item: Item)
    requires forall error :: !CannotBuild(lib, cfg, existing, closure, e, error)
    ensures ItemOf(lib, cfg, existing, closure, e, item)
  {
    hide NarinfoName, RefPaths;
    item := Carried;
    if NarinfoName(e.path) !in existing {
      assert !CannotBuild(lib, cfg, existing, closure, e, NarEncoding);
      assert !CannotBuild(lib, cfg, existing, closure, e, NarHashMismatch);
      assert !CannotBuild(lib, cfg, existing, closure, e, Compression);
      assert !CannotBuild(lib, cfg, existing, closure, e, BadBasename);
      assert !CannotBuild(lib, cfg, existing, closure, e, NarInfoBuild);
      var nar := cfg.compress(lib.encodeNar(e.path).value.bytes).value;
      var unsigned := UnsignedInfo(lib, closure, e, nar);
      assert Renders(lib, cfg, closure, e, unsigned);
      var info := if cfg.sign.Some? then SignedInfo(lib, cfg.sign.value, unsigned).value else unsigned;
      assert Renders(lib, cfg, closure, e, info);
      item := Fresh(info, lib.render(info).value.bytes, nar);
    }
  }

  /** Step 4 for one path. `made` is what became of it, or nothing when the run fails
      before it has anything to upload. */
  method ProcessEntry(uploader: BlossomUploader?, cluster: Cluster, lib: Lib, cfg: Config,
                      existing: map<Text, DirEntry>, closure: seq<Closure.ClosureEntry>, entry: Closure.ClosureEntry,
                      ghost start: Held, ghost offered: seq<Bytes>)
    returns (r: Result<DirEntry, PublishError>, ghost made: Option<Item>, ghost offered': seq<Bytes>)
    requires Ready(uploader, lib, cfg, offered)
    requires Sent(lib.env.sha, start, cluster.held, cfg.servers, offered)
    modifies cluster, uploader
    ensures Ready(uploader, lib, cfg, offered')
    ensures uploader == null ==> cluster.held == old(cluster.held)
    ensures Stored(lib.env.sha, start, cluster.held, cfg.servers, offered')
    ensures made.Some? ==> ItemOf(lib, cfg, existing, closure, entry, made.value)
    ensures made.Some? && made.value.Fresh? ==>
      && BuiltFor(lib, cfg, entry.path, made.value) && SignedBy(lib, cfg, made.value.info)
      && made.value.info.narHash == entry.narHash && made.value.info.narSize == entry.narSize
    ensures offered' <= offered + UploadsOf(made)
    ensures r.Ok? ==> Sent(lib.env.sha, start, cluster.held, cfg.servers, offered')
    ensures r.Ok? ==> made.Some? && r.value == EntryFor(lib, existing, entry, made.value)
    ensures r.Ok? && uploader != null ==> offered' == offered + UploadsOf(made)
    ensures r.Err? ==>
      || (r.error == UploadFailed && uploader != null && made.Some?)
      || CannotBuild(lib, cfg, existing, closure, entry, r.error)
  {
    hide Sent, Stored, Gains, AllHave, NarinfoName, RefPaths, Ready;
    made, offered' := None, offered;
    SentIsStored(lib.env.sha, start, cluster.held, cfg.servers, offered);
    var name := NarinfoName(entry.path);
    if name in existing {
      return Ok(existing[name]), Some(Carried), offered;
    }
    var nar := lib.encodeNar(entry.path);
    if nar.None? {
      return Err(NarEncoding), made, offered';
    }
    if nar.value.hash != entry.narHash {
      return Err(NarHashMismatch), made, offered';
    }
    var compressed := cfg.compress(nar.value.bytes);
    if compressed.None? {
      return Err(Compression), made, offered';
    }
    if !lib.parses(entry.path) {
      return Err(BadBasename), made, offered';
    }
    var refs := RefPaths(lib, closure, entry.references);
    var info := NarInfo(entry.path, entry.narHash, entry.narSize, lib.env.sha(compressed.value), |compressed.value|,
                        refs, []);
    assert Renders(lib, cfg, closure, entry, info);
    if cfg.sign.Some? {
      var unsigned := lib.render(info);
      if unsigned.None? {
        return Err(NarInfoBuild), made, offered';
      }
      info := info.(signatures := [cfg.sign.value(unsigned.value.fingerprint)]);
    }
    assert Renders(lib, cfg, closure, entry, info);
    var rendered := lib.render(info);
    if rendered.None? {
      return Err(NarInfoBuild), made, offered';
    }
    made := Some(Fresh(info, rendered.value.bytes, compressed.value));
    BuiltItem(lib, cfg, existing, closure, entry, made.value);
    assert offered + [compressed.value] + [rendered.value.bytes] == offered + UploadsOf(made);
    var ok;
    ok, offered' := Send(uploader, cluster, lib, cfg, compressed.value, start, offered');
    if !ok {
      return Err(UploadFailed), made, offered';
    }
    ok, offered' := Send(uploader, cluster, lib, cfg, rendered.value.bytes, start, offered');
    if !ok {
      return Err(UploadFailed), made, offered';
    }
    r := Ok(DirEntry(name, lib.env.sha(rendered.value.bytes), |rendered.value.bytes| % U64_MOD));
  }

  function UploadsOf(made: Option<Item>): seq<Bytes> {
    if made.Some? && made.value.Fresh? then [made.value.nar, made.value.narinfo] else []
  }

  lemma ItemUploadsPush(items: seq<Item>, item: Item)
    ensures ItemUploads(items + [item]) == ItemUploads(items) + UploadsOf(Some(item))
  {
    assert (items + [item])[..|items|] == items;
  }

  lemma OneMoreItem(lib: Lib, cfg: Config, prev: map<Text, DirEntry>, closure: seq<Closure.ClosureEntry>,
                    items: seq<Item>,
                    item: Item)
    requires ItemsSoFar(lib, cfg, prev, closure, items) && |items| < |closure|
    requires ItemOf(lib, cfg, prev, closure, closure[|items|], item)
    ensures ItemsSoFar(lib, cfg, prev, closure, items + [item])
  {
    hide ItemOf;
  }

  ghost predicate SomeCannotBuild(lib: Lib, cfg: Config, existing: map<Text, DirEntry>,
                                  closure: seq<Closure.ClosureEntry>, error: PublishError) {
    exists i :: 0 <= i < |closure| && CannotBuild(lib, cfg, existing, closure, closure[i], error)
  }

  /** Step 4: every path of the closure, in order. */
  method ProcessAll(uploader: BlossomUploader?, cluster: Cluster, lib: Lib, cfg: Config,
                    existing: map<Text, DirEntry>, closure: seq<Closure.ClosureEntry>, ghost start: Held)
    returns (r: Result<seq<DirEntry>, PublishError>, ghost items: seq<Item>, ghost offered: seq<Bytes>)
    requires Ready(uploader, lib, cfg, []) && start == cluster.held
    modifies cluster, uploader
    ensures Ready(uploader, lib, cfg, offered)
    ensures uploader == null ==> cluster.held == old(cluster.held)
    ensures Stored(lib.env.sha, start, cluster.held, cfg.servers, offered)
    ensures ItemsSoFar(lib, cfg, existing, closure, items) && offered <= ItemUploads(items)
    ensures r.Ok? ==> Sent(lib.env.sha, start, cluster.held, cfg.servers, offered)
    ensures r.Ok? ==> |items| == |closure| && r.value == EntriesFor(lib, existing, closure, items)
    ensures r.Ok? && uploader != null ==> offered == ItemUploads(items)
    ensures r.Err? ==>
      (r.error == UploadFailed && uploader != null) || SomeCannotBuild(lib, cfg, existing, closure, r.error)
  {
    hide Sent, Stored, Gains, AllHave, ItemOf, EntryFor, Ready, ItemUploads, CannotBuild, BuiltFor, SignedBy;
    var newEntries: seq<DirEntry> := [];
    items, offered := [], [];
    NoItems();
    SentNothing(lib.env.sha, start, cfg.servers);
    for i := 0 to |closure|
      invariant Ready(uploader, lib, cfg, offered)
      invariant uploader == null ==> cluster.held == old(cluster.held)
      invariant Sent(lib.env.sha, start, cluster.held, cfg.servers, offered)
      invariant |items| == i && |newEntries| == i && ItemsSoFar(lib, cfg, existing, closure, items)
      invariant forall k :: 0 <= k < i ==> newEntries[k] == EntryFor(lib, existing, closure[k], items[k])
      invariant offered == if uploader == null then [] else ItemUploads(items)
    {
      var done;
      ghost var made, more;
      done, made, more := ProcessEntry(uploader, cluster, lib, cfg, existing, closure, closure[i], start, offered);
      DryRunOffersNothing(uploader, lib, cfg, more);
      offered := more;
      if made.Some? {
        ItemUploadsPush(items, made.value);
        OneMoreItem(lib, cfg, existing, closure, items, made.value);
        items := items + [made.value];
      }
      if done.Err? {
        return Err(done.error), items, offered;
      }
      newEntries := newEntries + [done.value];
    }
    SentIsStored(lib.env.sha, start, cluster.held, cfg.servers, offered);
    r := Ok(newEntries);
  }

  lemma NoItems()
    ensures ItemUploads([]) == []
  {
  }

  lemma DryRunOffersNothing(uploader: BlossomUploader?, lib: Lib, cfg: Config, offered: seq<Bytes>)
    requires Ready(uploader, lib, cfg, offered)
    ensures uploader == null ==> offered == []
  {
  }

  /** Step 5: later entries replace earlier ones of their name. */
  method Merge(existing: map<Text, DirEntry>, newEntries: seq<DirEntry>) returns (merged: map<Text, DirEntry>)
    ensures merged == InsertAll(existing, newEntries)
  {
    merged := existing;
    for i := 0 to |newEntries|
      invariant merged == InsertAll(existing, newEntries[..i])
    {
      merged := merged[newEntries[i].name := newEntries[i]];
      assert newEntries[..i + 1][..i] == newEntries[..i];
    }
    assert newEntries[..|newEntries|] == newEntries;
  }

  ghost predicate KeyedByName(m: map<Text, DirEntry>) {
    forall n :: n in m ==> m[n].name == n
  }

  /** `into_values().collect()`: the values in the hash map's own order, whatever it is. */
  method CollectValues(m: map<Text, DirEntry>) returns (es: seq<DirEntry>)
    requires KeyedByName(m)
    ensures Enumerates(m, es)
  {
    es := [];
    var left := m.Keys;
    while left != {}
      invariant left <= m.Keys
      invariant DistinctNames(es)
      invariant forall e :: e in es <==> e.name in m && e.name !in left && m[e.name] == e
      decreases left
    {
      var n :| n in left;
      es := es + [m[n]];
      left := left - {n};
    }
  }

  lemma {:induction false} InsertAllKeyed(m: map<Text, DirEntry>, es: seq<DirEntry>)
    requires KeyedByName(m)
    ensures KeyedByName(InsertAll(m, es))
  {
    if es != [] {
      InsertAllKeyed(m, es[..|es| - 1]);
    }
  }

  /** The bytes of a list of built nodes. */
  function NodeBytes(nodes: seq<(Bytes, Hash)>): seq<Bytes> {
    seq(|nodes|, i requires 0 <= i < |nodes| => nodes[i].0)
  }

  lemma BuiltNodeBytes(env: Env, manifest: seq<DirEntry>)
    ensures NodeBytes(Blobs(BuiltLevel(env, NodeList(manifest)))) == NodeUploads(env, manifest)
  {
    hide NodeList, NodeOf;
  }

  /** Upload the nodes in list order, up to the first that fails. */
  method SendNodes(uploader: BlossomUploader?, cluster: Cluster, lib: Lib, cfg: Config,
                   nodes: seq<(Bytes, Hash)>, ghost start: Held, ghost offered: seq<Bytes>)
    returns (ok: bool, ghost offered': seq<Bytes>)
    requires Ready(uploader, lib, cfg, offered)
    requires Sent(lib.env.sha, start, cluster.held, cfg.servers, offered)
    modifies cluster, uploader
    ensures Ready(uploader, lib, cfg, offered')
    ensures uploader == null ==> ok && cluster.held == old(cluster.held)
    ensures Stored(lib.env.sha, start, cluster.held, cfg.servers, offered')
    ensures offered <= offered' <= offered + NodeBytes(nodes)
    ensures ok ==> Sent(lib.env.sha, start, cluster.held, cfg.servers, offered')
    ensures ok && uploader != null ==> offered' == offered + NodeBytes(nodes)
  {
    hide Sent, Stored, Gains, AllHave, Ready;
    ghost var bytes := NodeBytes(nodes);
    offered' := offered;
    for i := 0 to |nodes|
      invariant Ready(uploader, lib, cfg, offered')
      invariant uploader == null ==> cluster.held == old(cluster.held)
      invariant offered' == if uploader == null then offered else offered + bytes[..i]
      invariant Sent(lib.env.sha, start, cluster.held, cfg.servers, offered')
    {
      ok, offered' := Send(uploader, cluster, lib, cfg, nodes[i].0, start, offered');
      assert bytes[..i + 1] == bytes[..i] + [nodes[i].0];
      if !ok {
        return;
      }
    }
    SentIsStored(lib.env.sha, start, cluster.held, cfg.servers, offered');
    ok := true;
  }

  lemma ManifestIs(sha: Bytes -> Hash, listing: seq<DirEntry>)
    ensures Manifest(sha, listing) ==
      SortByName(listing + [DirEntry(CACHE_INFO_NAME, sha(CACHE_INFO), |CACHE_INFO| % U64_MOD)])
  {
  }

  lemma ResolvedIsClosure(cfg: Config, closure: seq<Closure.ClosureEntry>)
    requires Closure.ScannerInRange(Closure.CandidatesOf(cfg.store.listing), cfg.store.scan)
    requires cfg.inputs != [] && Closure.Resolvable(cfg.inputs, cfg.store)
    requires Closure.Resolved(cfg.inputs, cfg.store, closure)
    ensures ClosureOf(cfg, closure)
  {
  }

  /** Everything an announcement needs, short of announcing it. */
  ghost predicate Assembled(lib: Lib, cfg: Config, existing: map<Text, DirEntry>, start: Held, held: Held,
                            log: RunLog) {
    && PlanOf(lib, cfg, existing, log.closure, log.items, log.listing)
    && log.uploads == Uploads(lib, log.items, log.listing)
    && Sent(lib.env.sha, start, held, cfg.servers, log.uploads)
  }

  /** The uploads after the paths': nix-cache-info and then the nodes, or some of them. */
  lemma TailUnderway(lib: Lib, cfg: Config, prev: map<Text, DirEntry>, log: RunLog)
    requires PlanOf(lib, cfg, prev, log.closure, log.items, log.listing)
    requires log.uploads <= Uploads(lib, log.items, log.listing)
    ensures Underway(lib, cfg, prev, log)
  {
    hide PlanOf, Uploads, ItemsSoFar;
    PlanItems(lib, cfg, prev, log.closure, log.items, log.listing);
  }

  lemma PlanItems(lib: Lib, cfg: Config, prev: map<Text, DirEntry>, closure: seq<Closure.ClosureEntry>,
                  items: seq<Item>,
                  listing: seq<DirEntry>)
    requires PlanOf(lib, cfg, prev, closure, items, listing)
    ensures ItemsSoFar(lib, cfg, prev, closure, items)
  {
    hide ItemsSoFar, Enumerates;
  }

  lemma ItemsUnderway(lib: Lib, cfg: Config, prev: map<Text, DirEntry>, log: RunLog)
    requires ItemsSoFar(lib, cfg, prev, log.closure, log.items) && log.uploads <= ItemUploads(log.items)
    ensures Underway(lib, cfg, prev, log)
  {
    hide ItemsSoFar, ItemUploads;
  }

  /** Steps 4 to 7: process the closure, merge, build the tree and upload its nodes. */
  method Assemble(uploader: BlossomUploader?, cluster: Cluster, lib: Lib, cfg: Config,
                  existing: map<Text, DirEntry>, closure: seq<Closure.ClosureEntry>)
    returns (r: Result<Hash, PublishError>, ghost log: RunLog)
    requires Ready(uploader, lib, cfg, []) && KeyedByName(existing)
    modifies cluster, uploader
    ensures Ready(uploader, lib, cfg, log.uploads)
    ensures uploader == null ==> cluster.held == old(cluster.held)
    ensures log.closure == closure && Underway(lib, cfg, existing, log)
    ensures Stored(lib.env.sha, old(cluster.held), cluster.held, cfg.servers, log.uploads)
    ensures r.Ok? ==> PlanOf(lib, cfg, existing, closure, log.items, log.listing)
    ensures r.Ok? ==> r.value == HashOf(lib.env, TreeOf(Manifest(lib.env.sha, log.listing)))
    ensures r.Err? ==>
      (r.error == UploadFailed && uploader != null) || SomeCannotBuild(lib, cfg, existing, closure, r.error)
    ensures r.Ok? && uploader != null ==> Assembled(lib, cfg, existing, old(cluster.held), cluster.held, log)
  {
    hide Gains, AllHave, ItemsSoFar, EntriesFor, Enumerates, HashOf, NodeList, TreeOf, Manifest, InsertAll, SortByName,
      BuiltLevel, Blobs, Sent, Stored, KeyedByName, Ready, Underway, ItemUploads, NodeUploads, NodeBytes,
      SomeCannotBuild;
    ghost var start := cluster.held;
    var processed;
    ghost var items, offered;
    processed, items, offered := ProcessAll(uploader, cluster, lib, cfg, existing, closure, start);
    log := RunLog(closure, items, [], offered);
    ItemsUnderway(lib, cfg, existing, log);
    if processed.Err? {
      return Err(processed.error), log;
    }
    var merged := Merge(existing, processed.value);
    InsertAllKeyed(existing, processed.value);
    var allEntries := CollectValues(merged);
    assert PlanOf(lib, cfg, existing, closure, items, allEntries);
    DryRunOffersNothing(uploader, lib, cfg, offered);
    var ok;
    ok, offered := Send(uploader, cluster, lib, cfg, CACHE_INFO, start, offered);
    log := RunLog(closure, items, allEntries, offered);
    TailUnderway(lib, cfg, existing, log);
    if !ok {
      return Err(UploadFailed), log;
    }
    var cacheInfo := DirEntry(CACHE_INFO_NAME, lib.env.sha(CACHE_INFO), |CACHE_INFO| % U64_MOD);
    var finalEntries := allEntries + [cacheInfo];
    ManifestIs(lib.env.sha, allEntries);
    var nodes, root := BuildDirectoryTree(lib.env, finalEntries);
    BuiltNodeBytes(lib.env, Manifest(lib.env.sha, allEntries));
    ghost var sofar := offered;
    ok, offered := SendNodes(uploader, cluster, lib, cfg, nodes, start, offered);
    DryRunOffersNothing(uploader, lib, cfg, offered);
    log := RunLog(closure, items, allEntries, offered);
    TailUnderway(lib, cfg, existing, log);
    if !ok {
      return Err(UploadFailed), log;
    }
    r := Ok(root);
  }

  lemma AnnounceStep(lib: Lib, cfg: Config, v: View, v': View, log: RunLog)
    requires ClosureOf(cfg, log.closure)
    requires Assembled(lib, cfg, Previous(v), v.held, v'.held, log)
    requires v'.manifests == v.manifests + [Manifest(lib.env.sha, log.listing)]
    requires v'.events == v.events +
      [RootEvent(Nhash.UriOf(lib.bech32, HashOf(lib.env, TreeOf(Manifest(lib.env.sha, log.listing)))), cfg.servers)]
    requires v'.infos == InfosOf(v.infos, log.items)
    ensures Announces(lib, cfg, v, v', log)
  {
  }

  /** What each way of failing says of a run that starts in `v`. */
  ghost predicate FailsFor(lib: Lib, cfg: Config, v: View, error: PublishError)
    requires Closure.ScannerInRange(Closure.CandidatesOf(cfg.store.listing), cfg.store.scan)
  {
    match error
    case NoStorePaths => cfg.inputs == []
    case RelayQuery => cfg.inputs != []
    case BadRootUri => false
    case FlattenFailed(_) => cfg.inputs != [] && v.events != []
    case ClosureFailed(cause) =>
      !Closure.Resolvable(cfg.inputs, cfg.store) && Closure.FailsWith(cfg.inputs, cfg.store, cause)
    case UploadFailed => !cfg.dryRun
    case EventNotAccepted => !cfg.dryRun
    case _ => exists closure :: ClosureOf(cfg, closure) && SomeCannotBuild(lib, cfg, Previous(v), closure, error)
  }

  lemma OtherFailure(lib: Lib, cfg: Config, v: View, error: PublishError)
    requires Closure.ScannerInRange(Closure.CandidatesOf(cfg.store.listing), cfg.store.scan)
    requires
      || (error == NoStorePaths && cfg.inputs == [])
      || ((error == RelayQuery || (error.FlattenFailed? && v.events != [])) && cfg.inputs != [])
      || (error.ClosureFailed? && !Closure.Resolvable(cfg.inputs, cfg.store)
          && Closure.FailsWith(cfg.inputs, cfg.store, error.cause))
      || (error == EventNotAccepted && !cfg.dryRun)
    ensures FailsFor(lib, cfg, v, error)
  {
    hide Closure.Resolvable, Closure.FailsWith, Closure.ScannerInRange, Closure.CandidatesOf;
  }

  lemma BuildFailure(lib: Lib, cfg: Config, v: View, closure: seq<Closure.ClosureEntry>, error: PublishError)
    requires ClosureOf(cfg, closure)
    requires (error == UploadFailed && !cfg.dryRun) || SomeCannotBuild(lib, cfg, Previous(v), closure, error)
    ensures FailsFor(lib, cfg, v, error)
  {
    hide ClosureOf, Previous, NarinfoName, Renders;
  }

  /** Send the root event. It may reach a relay whether or not the publisher hears of it. */
  method PublishCache(world: World, event: RootEvent, ghost manifest: seq<DirEntry>, ghost infos: map<Text, NarInfo>)
    returns (acknowledged: bool)
    modifies world
    ensures
      var v, v' := old(world.View()), world.View();
      if v'.events == v.events then v' == v && !acknowledged
      else v' == v.(events := v.events + [event], manifests := v.manifests + [manifest], infos := infos)
  {
    var delivered: bool := *;
    acknowledged := *;
    if delivered || acknowledged {
      world.events := world.events + [event];
      world.manifests := world.manifests + [manifest];
      world.infos := infos;
    }
  }

  /** One run. `tokens` is the history of its session token. */
  method Publish(world: World, lib: Lib, cfg: Config, net: Net, fuel: nat)
    returns (r: Result<(), PublishError>, ghost log: RunLog, ghost tokens: seq<TokenEvent>)
    requires Closure.ScannerInRange(Closure.CandidatesOf(cfg.store.listing), cfg.store.scan)
    modifies world, world.cluster
    ensures Readable(lib, net, old(world.View())) ==> Run(lib, cfg, old(world.View()), world.View(), log)
    ensures Readable(lib, net, old(world.View())) && r.Ok? && !cfg.dryRun ==>
      Announces(lib, cfg, old(world.View()), world.View(), log)
    ensures r.Ok? ==> ClosureOf(cfg, log.closure)
    ensures r.Ok? && Readable(lib, net, old(world.View())) ==>
      PlanOf(lib, cfg, Previous(old(world.View())), log.closure, log.items, log.listing)
    ensures r.Err? && Readable(lib, net, old(world.View())) ==> FailsFor(lib, cfg, old(world.View()), r.error)
    ensures r.Err? && r.error != EventNotAccepted ==> world.events == old(world.events)
    ensures cfg.dryRun ==> world.View() == old(world.View()) && log.uploads == [] && tokens == []
    ensures MintCount(tokens) <= 1 + MintSpan(tokens) / 61 + DropCount(tokens)
    ensures DropCount(tokens) <= |log.uploads| * |cfg.servers|
  {
    hide Gains, Readable, HashOf, TreeOf, Previous, Manifest, InfosOf, Closure.Resolved, Closure.ScannerInRange,
      Closure.CandidatesOf, ClosureOf, Announces, Assembled, KeyedByName, Underway, Stored, Ready, MintSpan,
      SomeCannotBuild, Closure.FailsWith, Closure.Resolvable, PlanOf, MintCount, DropCount, FailsFor;
    ghost var v := world.View();
    log, tokens := RunLog([], [], [], []), [];
    NothingMinted();
    StoredNothing(lib.env.sha, v.held, cfg.servers);
    if cfg.inputs == [] {
      OtherFailure(lib, cfg, v, NoStorePaths);
      return Err(NoStorePaths), log, tokens;
    }
    var fetched := FetchExisting(world, lib, net, fuel);
    if fetched.Err? {
      if Readable(lib, net, v) {
        OtherFailure(lib, cfg, v, fetched.error);
      }
      return Err(fetched.error), log, tokens;
    }
    var existing := fetched.value;
    var resolved, _ := Closure.Resolve(cfg.inputs, cfg.store);
    if resolved.Err? {
      OtherFailure(lib, cfg, v, ClosureFailed(resolved.error));
      return Err(ClosureFailed(resolved.error)), log, tokens;
    }
    ResolvedIsClosure(cfg, resolved.value);
    var uploader: BlossomUploader? := null;
    if !cfg.dryRun {
      uploader := new BlossomUploader(lib.env.sha, cfg.servers);
    }
    FreshUploaderReady(uploader, lib, cfg);
    var root;
    root, log := Assemble(uploader, world.cluster, lib, cfg, existing, resolved.value);
    DryRunOffersNothing(uploader, lib, cfg, log.uploads);
    if uploader != null {
      tokens := uploader.log;
      TokensOf(uploader, lib, cfg, log.uploads);
    }
    if root.Err? {
      if Readable(lib, net, v) {
        BuildFailure(lib, cfg, v, resolved.value, root.error);
      }
      return Err(root.error), log, tokens;
    }
    var nhash := Nhash.NhashEncode(lib.bech32, root.value);
    var uri := Nhash.HTREE + nhash;
    if cfg.dryRun {
      return Ok(()), log, tokens;
    }
    var acknowledged := PublishCache(world, RootEvent(uri, cfg.servers), Manifest(lib.env.sha, log.listing),
                                     InfosOf(world.infos, log.items));
    if Readable(lib, net, v) && world.events != v.events {
      AnnounceStep(lib, cfg, v, world.View(), log);
    }
    if !acknowledged {
      OtherFailure(lib, cfg, v, EventNotAccepted);
      return Err(EventNotAccepted), log, tokens;
    }
    r := Ok(());
  }

  lemma NothingMinted()
    ensures MintCount([]) == 0 && MintSpan([]) == 0 && DropCount([]) == 0
  {
  }

  lemma StoredNothing(sha: Bytes -> Hash, held: Held, servers: seq<Server>)
    ensures Stored(sha, held, held, servers, [])
  {
  }

  lemma FreshUploaderReady(uploader: BlossomUploader?, lib: Lib, cfg: Config)
    requires uploader != null ==> uploader.Valid() && uploader.log == [] && uploader.sha == lib.env.sha
    requires uploader != null ==> uploader.servers == cfg.servers
    ensures Ready(uploader, lib, cfg, [])
  {
  }

  lemma TokensOf(uploader: BlossomUploader, lib: Lib, cfg: Config, offered: seq<Bytes>)
    requires Ready(uploader, lib, cfg, offered)
    ensures MintCount(uploader.log) <= 1 + MintSpan(uploader.log) / 61 + DropCount(uploader.log)
    ensures DropCount(uploader.log) <= |offered| * |cfg.servers|
  {
    hide MintSpan, DropCount, MintCount;
    SpanAmortised(uploader.log);
  }
}
