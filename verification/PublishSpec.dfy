/** What one publish run does to the world, as a relation (src/lib.rs:83-373). */
module PublishSpec {
  import opened Base
  import opened Sorting
  import opened HashTree
  import opened Blossom
  import Nhash
  import Closure

  // ---- library functions and configuration ----

  datatype Nar = Nar(bytes: Bytes, hash: Hash)

  datatype NarInfo = NarInfo(storePath: FileName, narHash: Hash, narSize: U64, fileHash: Hash, fileSize: int,
                             references: seq<FileName>, signatures: seq<Bytes>)

  datatype Rendered = Rendered(bytes: Bytes, fingerprint: Bytes)

  /** Library code: hashing and the node codec, bech32, NAR encoding, store path
      parsing and narinfo rendering. None is a failure. */
  datatype Lib = Lib(
    env: Env,
    bech32: Nhash.Bech32,
    encodeNar: Bytes -> Option<Nar>,
    parses: Bytes -> bool,
    render: NarInfo -> Option<Rendered>)

  /** One publish invocation; inputs are given by their file names. */
  datatype Config = Config(
    inputs: seq<Option<FileName>>,
    store: Closure.Store,
    servers: seq<Server>,
    compress: Bytes -> Option<Bytes>,
    sign: Option<Bytes -> Bytes>,
    dryRun: bool)

  /** An announced root: the htree URI and the servers the event advertises. */
  datatype RootEvent = RootEvent(uri: Bytes, servers: seq<Server>)

  // ---- names ----

  const NARINFO: Bytes := Ascii(".narinfo")
  const CACHE_INFO_NAME: Text := Ascii("nix-cache-info")
  const CACHE_INFO: Bytes := Ascii("StoreDir: /nix/store\nWantMassQuery: 1\nPriority: 30\n")

  function NarinfoName(basename: FileName): Text {
    Closure.HashPart(basename) + NARINFO
  }

  lemma NarinfoNameIsNotCacheInfo(basename: FileName)
    ensures NarinfoName(basename) != CACHE_INFO_NAME
  {
    var name := NarinfoName(basename);
    assert |NARINFO| == 8 && |CACHE_INFO_NAME| == 14;
    assert name[|name| - 5] == NARINFO[3] == 'r' as int;
    assert CACHE_INFO_NAME[9] == '-' as int;
  }

  function CacheInfoEntry(sha: Bytes -> Hash): DirEntry {
    DirEntry(CACHE_INFO_NAME, sha(CACHE_INFO), |CACHE_INFO| % U64_MOD)
  }

  // ---- entry maps ----

  /** The hash map of a flattened list: a later entry replaces an earlier one of its name. */
  function ByName(es: seq<DirEntry>): (m: map<Text, DirEntry>)
    ensures forall n :: n in m ==> m[n].name == n
  {
    if es == [] then map[] else ByName(es[..|es| - 1])[es[|es| - 1].name := es[|es| - 1]]
  }

  function InsertAll(m: map<Text, DirEntry>, es: seq<DirEntry>): map<Text, DirEntry> {
    if es == [] then m else InsertAll(m, es[..|es| - 1])[es[|es| - 1].name := es[|es| - 1]]
  }

  /** `es` lists the values of `m`, each once, in some order. */
  ghost predicate Enumerates(m: map<Text, DirEntry>, es: seq<DirEntry>) {
    && DistinctNames(es)
    && forall e :: e in es <==> e.name in m && m[e.name] == e
  }

  // ---- one path ----

  /** The store path in the closure with this hashpart, if any. */
  function FindByHashpart(closure: seq<Closure.ClosureEntry>, hp: Bytes): (r: Option<FileName>)
    ensures r.Some? ==> Closure.HashPart(r.value) == hp && exists i :: 0 <= i < |closure| && closure[i].path == r.value
    ensures r.None? ==> forall i :: 0 <= i < |closure| ==> Closure.HashPart(closure[i].path) != hp
  {
    if closure == [] then None
    else if Closure.HashPart(closure[0].path) == hp then Some(closure[0].path)
    else
      var rest := FindByHashpart(closure[1..], hp);
      assert rest.Some? ==> exists i :: 0 <= i < |closure| && closure[i].path == rest.value by {
        if rest.Some? {
          var i :| 0 <= i < |closure[1..]| && closure[1..][i].path == rest.value;
          assert closure[i + 1].path == rest.value;
        }
      }
      rest
  }

  /** The references recorded in a narinfo: those found in the closure that parse. */
  function RefPaths(lib: Lib, closure: seq<Closure.ClosureEntry>, refs: seq<Bytes>): seq<FileName> {
    if refs == [] then [] else
      var found := FindByHashpart(closure, refs[0]);
      var rest := RefPaths(lib, closure, refs[1..]);
      if found.Some? && lib.parses(found.value) then [found.value] + rest else rest
  }

  /** What happened to one path: its entry was carried over, or it was built. */
  datatype Item = Carried | Fresh(info: NarInfo, narinfo: Bytes, nar: Bytes)

  function UnsignedInfo(lib: Lib, closure: seq<Closure.ClosureEntry>, e: Closure.ClosureEntry, nar: Bytes): NarInfo {
    NarInfo(e.path, e.narHash, e.narSize, lib.env.sha(nar), |nar|, RefPaths(lib, closure, e.references), [])
  }

  /** The narinfo signed over the fingerprint of its unsigned form. */
  function SignedInfo(lib: Lib, sign: Bytes -> Bytes, unsigned: NarInfo): Option<NarInfo> {
    var rendered :- lib.render(unsigned);
    Some(unsigned.(signatures := [sign(rendered.fingerprint)]))
  }

  /** `item` is what the run makes of `e` when the tree already has `prev`. */
  ghost predicate ItemOf(lib: Lib, cfg: Config, prev: map<Text, DirEntry>, closure: seq<Closure.ClosureEntry>,
                         e: Closure.ClosureEntry, item: Item) {
    match item
    case Carried => NarinfoName(e.path) in prev
    case Fresh(info, narinfo, nar) =>
      var unsigned := UnsignedInfo(lib, closure, e, nar);
      && NarinfoName(e.path) !in prev
      && lib.encodeNar(e.path).Some? && lib.encodeNar(e.path).value.hash == e.narHash
      && cfg.compress(lib.encodeNar(e.path).value.bytes) == Some(nar)
      && lib.parses(e.path)
      && (cfg.sign.None? ==> info == unsigned)
      && (cfg.sign.Some? ==> SignedInfo(lib, cfg.sign.value, unsigned) == Some(info))
      && lib.render(info).Some? && lib.render(info).value.bytes == narinfo
  }

  /** What the run built for the path `p`: the narinfo is about this path, its NAR and the
      file that is uploaded for it. */
  ghost predicate BuiltFor(lib: Lib, cfg: Config, p: FileName, item: Item)
    requires item.Fresh?
  {
    var Fresh(info, narinfo, nar) := item;
    var encoded := lib.encodeNar(p);
    && lib.parses(p) && info.storePath == p
    && encoded.Some? && encoded.value.hash == info.narHash
    && cfg.compress(encoded.value.bytes) == Some(nar)
    && info.fileHash == lib.env.sha(nar) && info.fileSize == |nar|
    && lib.render(info).Some? && lib.render(info).value.bytes == narinfo
  }

  /** Signed with the configured key, if any, over the fingerprint of the same narinfo
      without signatures. */
  ghost predicate SignedBy(lib: Lib, cfg: Config, info: NarInfo) {
    match cfg.sign
    case None => info.signatures == []
    case Some(sign) =>
      var unsigned := lib.render(info.(signatures := []));
      unsigned.Some? && info.signatures == [sign(unsigned.value.fingerprint)]
  }

  lemma BuiltItem(lib: Lib, cfg: Config, prev: map<Text, DirEntry>, closure: seq<Closure.ClosureEntry>,
                  e: Closure.ClosureEntry, item: Item)
    requires ItemOf(lib, cfg, prev, closure, e, item) && item.Fresh?
    ensures BuiltFor(lib, cfg, e.path, item) && SignedBy(lib, cfg, item.info)
    ensures item.info.narHash == e.narHash && item.info.narSize == e.narSize
  {
    hide NarinfoName, RefPaths;
  }

  /** A narinfo the run renders for `e`: first without signatures, then signed. */
  ghost predicate Renders(lib: Lib, cfg: Config, closure: seq<Closure.ClosureEntry>, e: Closure.ClosureEntry,
                          info: NarInfo) {
    && lib.encodeNar(e.path).Some?
    && var nar := cfg.compress(lib.encodeNar(e.path).value.bytes);
    && nar.Some?
    && var unsigned := UnsignedInfo(lib, closure, e, nar.value);
    info == unsigned || (cfg.sign.Some? && SignedInfo(lib, cfg.sign.value, unsigned) == Some(info))
  }

  function EntryFor(lib: Lib, prev: map<Text, DirEntry>, e: Closure.ClosureEntry, item: Item): DirEntry {
    var name := NarinfoName(e.path);
    match item
    case Carried => if name in prev then prev[name] else DirEntry(name, lib.env.sha([]), 0)
    case Fresh(_, narinfo, _) => DirEntry(name, lib.env.sha(narinfo), |narinfo| % U64_MOD)
  }

  function EntriesFor(lib: Lib, prev: map<Text, DirEntry>, closure: seq<Closure.ClosureEntry>,
                      items: seq<Item>): (es: seq<DirEntry>)
    requires |items| == |closure|
    ensures |es| == |items|
  {
    seq(|items|, i requires 0 <= i < |items| => EntryFor(lib, prev, closure[i], items[i]))
  }

  // ---- the world ----

  /** What servers hold and what has been announced; `manifests` and `infos` are history:
      the sorted entries behind each announced root, and the narinfo behind each name. */
  datatype View = View(held: Held, events: seq<RootEvent>, manifests: seq<seq<DirEntry>>, infos: map<Text, NarInfo>)

  const START: View := View(map[], [], [], map[])

  function Previous(v: View): map<Text, DirEntry> {
    if v.manifests == [] then map[] else ByName(v.manifests[|v.manifests| - 1])
  }

  /** A run's history: the closure, what became of each path so far, the hash map's
      iteration order after the merge, and the blobs offered to the servers, in order. */
  datatype RunLog = RunLog(closure: seq<Closure.ClosureEntry>, items: seq<Item>, listing: seq<DirEntry>,
                           uploads: seq<Bytes>)

  function Manifest(sha: Bytes -> Hash, listing: seq<DirEntry>): seq<DirEntry> {
    SortByName(listing + [CacheInfoEntry(sha)])
  }

  ghost predicate AllHave(sha: Bytes -> Hash, held: Held, servers: seq<Server>, blobs: set<Bytes>) {
    forall b :: b in blobs ==> Has(sha, held, servers, sha(b))
  }

  // ---- what a run uploads ----

  /** The blobs of the paths that were built: each NAR, then its narinfo. */
  function ItemUploads(items: seq<Item>): seq<Bytes> {
    if items == [] then [] else
      var last := items[|items| - 1];
      ItemUploads(items[..|items| - 1]) + if last.Fresh? then [last.nar, last.narinfo] else []
  }

  /** The tree's nodes, children first. */
  function NodeUploads(env: Env, manifest: seq<DirEntry>): (blobs: seq<Bytes>)
    ensures |blobs| == |NodeList(manifest)|
  {
    var nodes := NodeList(manifest);
    seq(|nodes|, i requires 0 <= i < |nodes| => BytesOf(env, nodes[i]))
  }

  /** Everything a run uploads when nothing fails, in order. */
  function Uploads(lib: Lib, items: seq<Item>, listing: seq<DirEntry>): seq<Bytes> {
    ItemUploads(items) + [CACHE_INFO] + NodeUploads(lib.env, Manifest(lib.env.sha, listing))
  }

  function AllButLast<T>(s: seq<T>): seq<T> {
    if s == [] then [] else s[..|s| - 1]
  }

  /** Only `uploads` have appeared, and all of them but perhaps the last are there. */
  ghost predicate Stored(sha: Bytes -> Hash, start: Held, held: Held, servers: seq<Server>, uploads: seq<Bytes>) {
    && Gains(start, held, servers, Elements(uploads))
    && AllHave(sha, held, servers, Elements(AllButLast(uploads)))
  }

  /** `items` are what becomes of the first paths of the closure. */
  ghost predicate ItemsSoFar(lib: Lib, cfg: Config, prev: map<Text, DirEntry>, closure: seq<Closure.ClosureEntry>,
                             items: seq<Item>) {
    && |items| <= |closure|
    && forall i :: 0 <= i < |items| ==> ItemOf(lib, cfg, prev, closure, closure[i], items[i])
  }

  ghost predicate ItemsOf(lib: Lib, cfg: Config, prev: map<Text, DirEntry>, closure: seq<Closure.ClosureEntry>,
                          items: seq<Item>) {
    |items| == |closure| && ItemsSoFar(lib, cfg, prev, closure, items)
  }

  /** What becomes of every path, and an order in which the merged map may be listed. */
  ghost predicate PlanOf(lib: Lib, cfg: Config, prev: map<Text, DirEntry>, closure: seq<Closure.ClosureEntry>,
                         items: seq<Item>, listing: seq<DirEntry>) {
    && ItemsOf(lib, cfg, prev, closure, items)
    && Enumerates(InsertAll(prev, EntriesFor(lib, prev, closure, items)), listing)
  }

  /** The uploads of a run that stops somewhere: a prefix of those of the paths it got to,
      or of the whole run's. */
  ghost predicate Underway(lib: Lib, cfg: Config, prev: map<Text, DirEntry>, log: RunLog) {
    && ItemsSoFar(lib, cfg, prev, log.closure, log.items)
    && (|| log.uploads <= ItemUploads(log.items)
        || (&& PlanOf(lib, cfg, prev, log.closure, log.items, log.listing)
            && log.uploads <= Uploads(lib, log.items, log.listing)))
  }

  /** The narinfos recorded by a run. */
  function InfosOf(infos: map<Text, NarInfo>, items: seq<Item>): map<Text, NarInfo> {
    if items == [] then infos else
      var last := items[|items| - 1];
      var front := InfosOf(infos, items[..|items| - 1]);
      if last.Fresh? then front[NarinfoName(last.info.storePath) := last.info] else front
  }

  ghost predicate ClosureOf(cfg: Config, closure: seq<Closure.ClosureEntry>) {
    && Closure.ScannerInRange(Closure.CandidatesOf(cfg.store.listing), cfg.store.scan)
    && None !in cfg.inputs
    && cfg.inputs != []
    && Closure.Resolvable(cfg.inputs, cfg.store)
    && Closure.Resolved(cfg.inputs, cfg.store, closure)
  }

  /** A run that announces a new root: all its uploads have succeeded. */
  ghost predicate Announces(lib: Lib, cfg: Config, v: View, v': View, log: RunLog) {
    var sha := lib.env.sha;
    && ClosureOf(cfg, log.closure)
    && PlanOf(lib, cfg, Previous(v), log.closure, log.items, log.listing)
    && log.uploads == Uploads(lib, log.items, log.listing)
    && Gains(v.held, v'.held, cfg.servers, Elements(log.uploads))
    && AllHave(sha, v'.held, cfg.servers, Elements(log.uploads))
    && var manifest := Manifest(sha, log.listing);
    && v'.manifests == v.manifests + [manifest]
    && v'.events == v.events + [RootEvent(Nhash.UriOf(lib.bech32, HashOf(lib.env, TreeOf(manifest))), cfg.servers)]
    && v'.infos == InfosOf(v.infos, log.items)
  }

  /** A run that announces nothing: all it can have done is some of its uploads, in order. */
  ghost predicate Aborts(lib: Lib, cfg: Config, v: View, v': View, log: RunLog) {
    && (log.uploads == [] || (ClosureOf(cfg, log.closure) && Underway(lib, cfg, Previous(v), log)))
    && Stored(lib.env.sha, v.held, v'.held, cfg.servers, log.uploads)
    && v'.events == v.events && v'.manifests == v.manifests && v'.infos == v.infos
  }

  /** One run, whatever failed. */
  ghost predicate Run(lib: Lib, cfg: Config, v: View, v': View, log: RunLog) {
    Announces(lib, cfg, v, v', log) || Aborts(lib, cfg, v, v', log)
  }
}
