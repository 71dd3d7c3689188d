/** What a run uploads, in which order, and what that leaves on the servers. */
module PublishUploads {
  import opened Base
  import opened Sorting
  import opened HashTree
  import opened TreeLaws
  import opened Blossom
  import opened PublishSpec
  import opened PublishLaws
  import Closure

  // ---- what is uploaded ----

  lemma {:induction false} ItemUploaded(items: seq<Item>, i: nat)
    requires i < |items| && items[i].Fresh?
    ensures items[i].nar in ItemUploads(items) && items[i].narinfo in ItemUploads(items)
  {
    if i < |items| - 1 {
      ItemUploaded(items[..|items| - 1], i);
    }
  }

  lemma NodeUploaded(env: Env, manifest: seq<DirEntry>, x: Tree)
    requires x in NodeList(manifest)
    ensures BytesOf(env, x) in NodeUploads(env, manifest)
  {
    hide NodeList, NodeOf;
    var i :| 0 <= i < |NodeList(manifest)| && NodeList(manifest)[i] == x;
    assert NodeUploads(env, manifest)[i] == BytesOf(env, x);
  }

  lemma UploadedIsServed(lib: Lib, cfg: Config, v: View, v': View, log: RunLog, b: Bytes)
    requires Announces(lib, cfg, v, v', log) && b in Uploads(lib, log.items, log.listing)
    ensures Has(lib.env.sha, v'.held, cfg.servers, lib.env.sha(b))
  {
    hide ClosureOf, PlanOf, Has, Gains, Uploads, Manifest;
    assert b in Elements(log.uploads);
  }

  // ---- a run's uploads are determined before it starts ----

  /** What becomes of a path is determined by the library, the configuration, the tree
      there was and the closure. */
  lemma ItemUnique(lib: Lib, cfg: Config, prev: map<Text, DirEntry>, closure: seq<Closure.ClosureEntry>,
                   e: Closure.ClosureEntry, a: Item, b: Item)
    requires ItemOf(lib, cfg, prev, closure, e, a) && ItemOf(lib, cfg, prev, closure, e, b)
    ensures a == b
  {
    hide NarinfoName, RefPaths;
  }

  lemma ItemsUnique(lib: Lib, cfg: Config, prev: map<Text, DirEntry>, closure: seq<Closure.ClosureEntry>,
                    a: seq<Item>, b: seq<Item>)
    requires ItemsOf(lib, cfg, prev, closure, a) && ItemsOf(lib, cfg, prev, closure, b)
    ensures a == b
  {
    hide ItemOf;
    forall i | 0 <= i < |closure|
      ensures a[i] == b[i]
    {
      ItemUnique(lib, cfg, prev, closure, closure[i], a[i], b[i]);
    }
  }

  /** So are its uploads, whatever order the hash map is listed in. */
  lemma PlanUnique(lib: Lib, cfg: Config, prev: map<Text, DirEntry>, closure: seq<Closure.ClosureEntry>,
                   items: seq<Item>, listing: seq<DirEntry>, items': seq<Item>, listing': seq<DirEntry>)
    requires PlanOf(lib, cfg, prev, closure, items, listing) && PlanOf(lib, cfg, prev, closure, items', listing')
    ensures items == items' && Manifest(lib.env.sha, listing) == Manifest(lib.env.sha, listing')
    ensures Uploads(lib, items, listing) == Uploads(lib, items', listing')
  {
    ItemsUnique(lib, cfg, prev, closure, items, items');
    hide ItemsOf, EntriesFor, InsertAll, ItemUploads, NodeUploads, SortByName, NodeList, TreeOf;
    CanonicalTree(listing, listing', [CacheInfoEntry(lib.env.sha)]);
  }

  /** There is only one closure a configuration can have. */
  lemma ClosureUnique(cfg: Config, a: seq<Closure.ClosureEntry>, b: seq<Closure.ClosureEntry>)
    requires ClosureOf(cfg, a) && ClosureOf(cfg, b)
    ensures a == b
  {
    hide Closure.Resolved, Closure.ScannerInRange, Closure.CandidatesOf;
    Closure.ResolvedUnique(cfg.inputs, cfg.store, a, b);
  }

  /** Everything a run over its closure uploads when nothing fails, in order. */
  ghost predicate RunUploads(lib: Lib, cfg: Config, prev: map<Text, DirEntry>, closure: seq<Closure.ClosureEntry>,
                             items: seq<Item>, listing: seq<DirEntry>, uploads: seq<Bytes>) {
    && ClosureOf(cfg, closure) && PlanOf(lib, cfg, prev, closure, items, listing)
    && uploads == Uploads(lib, items, listing)
  }

  /** The sequence of a run's uploads is a function of the library, the configuration and
      the tree there was. */
  lemma UploadsUnique(lib: Lib, cfg: Config, prev: map<Text, DirEntry>,
                      closure: seq<Closure.ClosureEntry>, items: seq<Item>, listing: seq<DirEntry>, uploads: seq<Bytes>,
                      closure': seq<Closure.ClosureEntry>, items': seq<Item>, listing': seq<DirEntry>,
                      uploads': seq<Bytes>)
    requires RunUploads(lib, cfg, prev, closure, items, listing, uploads)
    requires RunUploads(lib, cfg, prev, closure', items', listing', uploads')
    ensures closure == closure' && items == items' && uploads == uploads'
  {
    hide ClosureOf, PlanOf, Uploads;
    ClosureUnique(cfg, closure, closure');
    PlanUnique(lib, cfg, prev, closure, items, listing, items', listing');
  }

  /** A run with this configuration, in a world with these previous entries, uploads `b`
      unless it fails. All of it is known before the run. */
  ghost predicate Makes(lib: Lib, cfg: Config, prev: map<Text, DirEntry>, b: Bytes) {
    exists closure, items, listing, uploads ::
      RunUploads(lib, cfg, prev, closure, items, listing, uploads) && b in uploads
  }

  lemma MakesExactly(lib: Lib, cfg: Config, prev: map<Text, DirEntry>, closure: seq<Closure.ClosureEntry>,
                     items: seq<Item>, listing: seq<DirEntry>, uploads: seq<Bytes>, b: Bytes)
    requires RunUploads(lib, cfg, prev, closure, items, listing, uploads)
    ensures Makes(lib, cfg, prev, b) <==> b in uploads
  {
    hide RunUploads;
    if Makes(lib, cfg, prev, b) {
      var closure', items', listing', uploads' :|
        RunUploads(lib, cfg, prev, closure', items', listing', uploads') && b in uploads';
      UploadsUnique(lib, cfg, prev, closure, items, listing, uploads, closure', items', listing', uploads');
    }
  }

  /** An announcing run has uploaded exactly what it makes. */
  lemma AnnouncedUploads(lib: Lib, cfg: Config, v: View, v': View, log: RunLog)
    requires Announces(lib, cfg, v, v', log)
    ensures forall b :: b in log.uploads <==> Makes(lib, cfg, Previous(v), b)
  {
    hide ClosureOf, PlanOf, Uploads, Gains, AllHave, Manifest, Previous, Makes;
    forall b: Bytes
      ensures b in log.uploads <==> Makes(lib, cfg, Previous(v), b)
    {
      MakesExactly(lib, cfg, Previous(v), log.closure, log.items, log.listing, log.uploads, b);
    }
  }

  // ---- what every uploaded blob leads to ----

  /** What the k-th path's item made the entry `e` of. */
  ghost predicate BuiltAs(lib: Lib, prev: map<Text, DirEntry>, log: RunLog, k: nat, e: DirEntry) {
    && k < |log.items| && k < |log.closure| && log.items[k].Fresh?
    && e == EntryFor(lib, prev, log.closure[k], log.items[k])
  }

  /** The narinfo that `e` names and the NAR of its item are on the servers. */
  ghost predicate BlobsServed(lib: Lib, held: Held, servers: seq<Server>, e: DirEntry, item: Item)
    requires item.Fresh?
  {
    Has(lib.env.sha, held, servers, e.hash) && Has(lib.env.sha, held, servers, item.info.fileHash)
  }

  /** An entry of a run's tree: it was carried over from the tree before, or it is the cache
      info or a narinfo built by the run, which is on the servers, as is the narinfo's NAR. */
  ghost predicate EntryReady(lib: Lib, held: Held, servers: seq<Server>, prev: map<Text, DirEntry>, log: RunLog,
                             e: DirEntry) {
    || (e.name in prev && prev[e.name] == e)
    || (e == CacheInfoEntry(lib.env.sha) && Has(lib.env.sha, held, servers, e.hash))
    || (exists k: nat :: BuiltAs(lib, prev, log, k, e) && BlobsServed(lib, held, servers, e, log.items[k]))
  }

  /** Everything below the node `x` is on the servers, down to the entries' blobs. */
  ghost predicate NodeReady(lib: Lib, held: Held, servers: seq<Server>, prev: map<Text, DirEntry>, log: RunLog,
                            x: Tree) {
    && (forall t :: Within(t, x) && t != x ==> Has(lib.env.sha, held, servers, HashOf(lib.env, t)))
    && (forall e :: e in Entries(x) ==> EntryReady(lib, held, servers, prev, log, e))
  }

  ghost predicate IsNar(log: RunLog, b: Bytes) {
    exists k :: 0 <= k < |log.items| && log.items[k].Fresh? && b == log.items[k].nar
  }

  /** A narinfo whose NAR is on the servers. */
  ghost predicate IsNarinfo(lib: Lib, held: Held, servers: seq<Server>, log: RunLog, b: Bytes) {
    exists k :: 0 <= k < |log.items| && log.items[k].Fresh? && b == log.items[k].narinfo &&
      Has(lib.env.sha, held, servers, lib.env.sha(log.items[k].nar))
  }

  /** A node of the run's tree with everything below it on the servers. */
  ghost predicate IsNode(lib: Lib, held: Held, servers: seq<Server>, prev: map<Text, DirEntry>, log: RunLog, b: Bytes) {
    exists x :: x in NodeList(Manifest(lib.env.sha, log.listing)) && b == BytesOf(lib.env, x) &&
      NodeReady(lib, held, servers, prev, log, x)
  }

  /** What a blob that a run has uploaded is, and that all it leads to is on the servers. */
  ghost predicate Explained(lib: Lib, held: Held, servers: seq<Server>, prev: map<Text, DirEntry>, log: RunLog,
                            b: Bytes) {
    || b == CACHE_INFO || IsNar(log, b) || IsNarinfo(lib, held, servers, log, b)
    || IsNode(lib, held, servers, prev, log, b)
  }

  /** Where the tree's nodes start among the uploads. */
  function NodesFromUpload(items: seq<Item>): nat {
    |ItemUploads(items)| + 1
  }

  /** Every blob offered before the last is on the servers. */
  lemma EarlierIsServed(sha: Bytes -> Hash, held: Held, servers: seq<Server>, uploads: seq<Bytes>, q: nat, p: nat)
    requires AllHave(sha, held, servers, Elements(AllButLast(uploads))) && q < p < |uploads|
    ensures Has(sha, held, servers, sha(uploads[q]))
  {
    hide Has;
    assert AllButLast(uploads)[q] == uploads[q];
  }

  lemma NodeUploadAt(lib: Lib, items: seq<Item>, listing: seq<DirEntry>, i: nat)
    requires i < |NodeList(Manifest(lib.env.sha, listing))|
    ensures NodesFromUpload(items) + i < |Uploads(lib, items, listing)|
    ensures Uploads(lib, items, listing)[NodesFromUpload(items) + i] ==
      BytesOf(lib.env, NodeList(Manifest(lib.env.sha, listing))[i])
  {
    hide ItemUploads, NodeList, Manifest, BytesOf;
  }

  lemma UploadCount(lib: Lib, items: seq<Item>, listing: seq<DirEntry>)
    ensures |Uploads(lib, items, listing)| == NodesFromUpload(items) + |NodeList(Manifest(lib.env.sha, listing))|
    ensures Uploads(lib, items, listing)[|ItemUploads(items)|] == CACHE_INFO
    ensures ItemUploads(items) <= Uploads(lib, items, listing)
  {
    hide ItemUploads, NodeList, Manifest;
  }

  /** Among the paths' uploads, each is a NAR, or a narinfo right after its NAR. */
  lemma {:induction false} ItemUploadAt(items: seq<Item>, p: nat) returns (k: nat)
    requires p < |ItemUploads(items)|
    ensures k < |items| && items[k].Fresh?
    ensures || ItemUploads(items)[p] == items[k].nar
            || (p > 0 && ItemUploads(items)[p] == items[k].narinfo && ItemUploads(items)[p - 1] == items[k].nar)
  {
    var front := items[..|items| - 1];
    if p < |ItemUploads(front)| {
      k := ItemUploadAt(front, p);
    } else {
      k := |items| - 1;
    }
  }

  lemma ItemUploadExplained(lib: Lib, held: Held, servers: seq<Server>, prev: map<Text, DirEntry>, log: RunLog, p: nat)
    requires AllHave(lib.env.sha, held, servers, Elements(AllButLast(log.uploads)))
    requires p < |log.uploads| && p < |ItemUploads(log.items)|
    requires forall q :: 0 <= q <= p ==> log.uploads[q] == ItemUploads(log.items)[q]
    ensures Explained(lib, held, servers, prev, log, log.uploads[p])
  {
    hide AllHave, Has, ItemUploads, IsNode;
    var k := ItemUploadAt(log.items, p);
    if log.uploads[p] != log.items[k].nar {
      assert log.uploads[p - 1] == ItemUploads(log.items)[p - 1];
      EarlierIsServed(lib.env.sha, held, servers, log.uploads, p - 1, p);
    }
  }

  /** A blob of a built path is on the servers once the paths' uploads are over. */
  lemma ItemIsServed(lib: Lib, held: Held, servers: seq<Server>, log: RunLog, b: Bytes)
    requires AllHave(lib.env.sha, held, servers, Elements(AllButLast(log.uploads)))
    requires ItemUploads(log.items) < log.uploads && b in ItemUploads(log.items)
    ensures Has(lib.env.sha, held, servers, lib.env.sha(b))
  {
    hide AllHave, Has, ItemUploads;
    var q :| 0 <= q < |ItemUploads(log.items)| && ItemUploads(log.items)[q] == b;
    EarlierIsServed(lib.env.sha, held, servers, log.uploads, q, |ItemUploads(log.items)|);
  }

  lemma BuiltHashes(lib: Lib, cfg: Config, prev: map<Text, DirEntry>, log: RunLog, k: nat)
    requires ItemsSoFar(lib, cfg, prev, log.closure, log.items) && k < |log.items| && log.items[k].Fresh?
    ensures log.items[k].info.fileHash == lib.env.sha(log.items[k].nar)
    ensures EntryFor(lib, prev, log.closure[k], log.items[k]).hash == lib.env.sha(log.items[k].narinfo)
  {
    hide NarinfoName, RefPaths;
    assert ItemOf(lib, cfg, prev, log.closure, log.closure[k], log.items[k]);
  }

  /** Where an entry of the new manifest comes from. */
  lemma EntryOrigin(lib: Lib, cfg: Config, prev: map<Text, DirEntry>, log: RunLog, e: DirEntry)
    requires ClosureOf(cfg, log.closure) && PlanOf(lib, cfg, prev, log.closure, log.items, log.listing)
    requires forall n :: n in prev ==> prev[n].name == n
    requires e in Manifest(lib.env.sha, log.listing)
    ensures || (e.name in prev && prev[e.name] == e) || e == CacheInfoEntry(lib.env.sha)
            || exists k: nat :: BuiltAs(lib, prev, log, k, e)
  {
    var merged := InsertAll(prev, EntriesFor(lib, prev, log.closure, log.items));
    var all := log.listing + [CacheInfoEntry(lib.env.sha)];
    hide ClosureOf, ItemsOf, EntriesFor, InsertAll, SortByName, EntryFor, NarinfoName;
    StableSort(all);
    assert e in multiset(SortByName(all)) && e in all;
    MergedMap(lib, cfg, prev, log);
    if e in log.listing && e.name !in prev {
      var k :| 0 <= k < |log.closure| && NameAt(log.closure, k) == e.name && log.items[k].Fresh?;
      assert BuiltAs(lib, prev, log, k, e);
    }
  }

  lemma BuiltIsReady(lib: Lib, cfg: Config, prev: map<Text, DirEntry>, held: Held, log: RunLog, e: DirEntry, k: nat)
    requires ItemsSoFar(lib, cfg, prev, log.closure, log.items) && BuiltAs(lib, prev, log, k, e)
    requires AllHave(lib.env.sha, held, cfg.servers, Elements(AllButLast(log.uploads)))
    requires ItemUploads(log.items) < log.uploads
    ensures EntryReady(lib, held, cfg.servers, prev, log, e)
  {
    hide AllHave, Has, ItemUploads, EntryFor, ItemsSoFar;
    ItemUploaded(log.items, k);
    BuiltHashes(lib, cfg, prev, log, k);
    ItemIsServed(lib, held, cfg.servers, log, log.items[k].nar);
    ItemIsServed(lib, held, cfg.servers, log, log.items[k].narinfo);
    assert BlobsServed(lib, held, cfg.servers, e, log.items[k]);
  }

  /** So when the first tree node is offered, all its entries need is on the servers. */
  lemma EntryIsReady(lib: Lib, cfg: Config, prev: map<Text, DirEntry>, held: Held, log: RunLog, e: DirEntry)
    requires ClosureOf(cfg, log.closure) && PlanOf(lib, cfg, prev, log.closure, log.items, log.listing)
    requires forall n :: n in prev ==> prev[n].name == n
    requires e in Manifest(lib.env.sha, log.listing)
    requires log.uploads <= Uploads(lib, log.items, log.listing) && NodesFromUpload(log.items) < |log.uploads|
    requires AllHave(lib.env.sha, held, cfg.servers, Elements(AllButLast(log.uploads)))
    ensures EntryReady(lib, held, cfg.servers, prev, log, e)
  {
    EntryOrigin(lib, cfg, prev, log, e);
    UploadCount(lib, log.items, log.listing);
    hide ClosureOf, Enumerates, AllHave, Has, Manifest, ItemUploads, Uploads, BuiltAs, ItemsSoFar;
    EarlierIsServed(lib.env.sha, held, cfg.servers, log.uploads, |ItemUploads(log.items)|, NodesFromUpload(log.items));
    if k: nat :| BuiltAs(lib, prev, log, k, e) {
      BuiltIsReady(lib, cfg, prev, held, log, e, k);
    }
  }

  /** Wherever a run stops: each tree node it has offered is one of its tree's, in list order,
      and everything below it, down to the entries' blobs, is on the run's servers. */
  lemma SentNodeReady(lib: Lib, cfg: Config, prev: map<Text, DirEntry>, held: Held, log: RunLog, i: nat)
    requires ClosureOf(cfg, log.closure) && PlanOf(lib, cfg, prev, log.closure, log.items, log.listing)
    requires forall n :: n in prev ==> prev[n].name == n
    requires log.uploads <= Uploads(lib, log.items, log.listing) && NodesFromUpload(log.items) + i < |log.uploads|
    requires AllHave(lib.env.sha, held, cfg.servers, Elements(AllButLast(log.uploads)))
    ensures i < |NodeList(Manifest(lib.env.sha, log.listing))|
    ensures
      var x := NodeList(Manifest(lib.env.sha, log.listing))[i];
      && log.uploads[NodesFromUpload(log.items) + i] == BytesOf(lib.env, x)
      && NodeReady(lib, held, cfg.servers, prev, log, x)
  {
    var manifest := Manifest(lib.env.sha, log.listing);
    var nodes, base := NodeList(manifest), NodesFromUpload(log.items);
    UploadCount(lib, log.items, log.listing);
    hide ClosureOf, PlanOf, NodeList, Manifest, Has, HashOf, BytesOf, Uploads, NodesFromUpload, AllHave, EntryReady,
      Within;
    NodeUploadAt(lib, log.items, log.listing, i);
    NodeListChildrenFirst(manifest);
    forall t | Within(t, nodes[i]) && t != nodes[i]
      ensures Has(lib.env.sha, held, cfg.servers, HashOf(lib.env, t))
    {
      BelowIsEarlier(nodes, i, t);
      var j :| 0 <= j < i && nodes[j] == t;
      NodeUploadAt(lib, log.items, log.listing, j);
      EarlierIsServed(lib.env.sha, held, cfg.servers, log.uploads, base + j, base + i);
      HashIsOfBytes(lib.env, t);
    }
    ListedEntries(manifest, nodes[i]);
    forall e | e in Entries(nodes[i])
      ensures EntryReady(lib, held, cfg.servers, prev, log, e)
    {
      EntryIsReady(lib, cfg, prev, held, log, e);
    }
  }

  /** Every blob that a run has offered is explained. */
  lemma UploadExplained(lib: Lib, cfg: Config, prev: map<Text, DirEntry>, held: Held, log: RunLog, p: nat)
    requires ClosureOf(cfg, log.closure) && Underway(lib, cfg, prev, log) && p < |log.uploads|
    requires forall n :: n in prev ==> prev[n].name == n
    requires AllHave(lib.env.sha, held, cfg.servers, Elements(AllButLast(log.uploads)))
    ensures Explained(lib, held, cfg.servers, prev, log, log.uploads[p])
  {
    hide ClosureOf, PlanOf, ItemsSoFar, AllHave, Has, Manifest, ItemUploads, Uploads, NodeList, NodeReady, BytesOf,
      IsNar, IsNarinfo;
    UploadCount(lib, log.items, log.listing);
    if p < |ItemUploads(log.items)| {
      hide Explained;
      ItemUploadExplained(lib, held, cfg.servers, prev, log, p);
    } else if p > |ItemUploads(log.items)| {
      SentNodeReady(lib, cfg, prev, held, log, p - NodesFromUpload(log.items));
    }
  }

  /** What every run has done, announcing or not. */
  lemma RunStored(lib: Lib, cfg: Config, v: View, v': View, log: RunLog)
    requires Run(lib, cfg, v, v', log)
    ensures Stored(lib.env.sha, v.held, v'.held, cfg.servers, log.uploads)
    ensures log.uploads == [] || (ClosureOf(cfg, log.closure) && Underway(lib, cfg, Previous(v), log))
  {
    hide ClosureOf, Gains, Has, Uploads, Manifest, Previous, InfosOf, ItemsSoFar, Enumerates;
  }

  lemma NewIsUploaded(held: Held, held': Held, servers: seq<Server>, uploads: seq<Bytes>, s: Server, b: Bytes)
    requires Gains(held, held', servers, Elements(uploads)) && b in HeldBy(held', s) && b !in HeldBy(held, s)
    ensures s in servers && b in uploads
  {
  }

  /** Any blob that a run has put on a server is explained, whether the run announced or
      stopped half way. */
  lemma NewBlobExplained(lib: Lib, cfg: Config, v: View, v': View, log: RunLog, s: Server, b: Bytes)
    requires Run(lib, cfg, v, v', log) && b in HeldBy(v'.held, s) && b !in HeldBy(v.held, s)
    ensures s in cfg.servers && b in log.uploads && Explained(lib, v'.held, cfg.servers, Previous(v), log, b)
  {
    hide Run, ClosureOf, Underway, Explained, AllHave, Previous;
    RunStored(lib, cfg, v, v', log);
    NewIsUploaded(v.held, v'.held, cfg.servers, log.uploads, s, b);
    hide Gains;
    var p :| 0 <= p < |log.uploads| && log.uploads[p] == b;
    PreviousKeyed(v);
    UploadExplained(lib, cfg, Previous(v), v'.held, log, p);
  }

  // ---- what stays ----

  /** Nothing stored is ever lost. */
  ghost predicate Grows(held: Held, held': Held) {
    forall s :: HeldBy(held, s) <= HeldBy(held', s)
  }

  lemma HasGrows(sha: Bytes -> Hash, held: Held, held': Held, servers: seq<Server>, h: Hash)
    requires Grows(held, held') && Has(sha, held, servers, h)
    ensures Has(sha, held', servers, h)
  {
    var s, b :| s in servers && b in HeldBy(held, s) && sha(b) == h;
    assert b in HeldBy(held', s);
  }

  lemma EntryStaysReady(lib: Lib, held: Held, held': Held, servers: seq<Server>, prev: map<Text, DirEntry>, log: RunLog,
                        e: DirEntry)
    requires Grows(held, held') && EntryReady(lib, held, servers, prev, log, e)
    ensures EntryReady(lib, held', servers, prev, log, e)
  {
    hide Grows, Has, EntryFor;
    if Has(lib.env.sha, held, servers, e.hash) {
      HasGrows(lib.env.sha, held, held', servers, e.hash);
    }
    if k: nat :| BuiltAs(lib, prev, log, k, e) && BlobsServed(lib, held, servers, e, log.items[k]) {
      HasGrows(lib.env.sha, held, held', servers, log.items[k].info.fileHash);
      assert BuiltAs(lib, prev, log, k, e) && BlobsServed(lib, held', servers, e, log.items[k]);
    }
  }

  lemma NodeStaysReady(lib: Lib, held: Held, held': Held, servers: seq<Server>, prev: map<Text, DirEntry>, log: RunLog,
                       x: Tree)
    requires Grows(held, held') && NodeReady(lib, held, servers, prev, log, x)
    ensures NodeReady(lib, held', servers, prev, log, x)
  {
    hide Grows, Has, HashOf, Within, EntryReady, Entries;
    forall t | Within(t, x) && t != x
      ensures Has(lib.env.sha, held', servers, HashOf(lib.env, t))
    {
      HasGrows(lib.env.sha, held, held', servers, HashOf(lib.env, t));
    }
    forall e | e in Entries(x)
      ensures EntryReady(lib, held', servers, prev, log, e)
    {
      EntryStaysReady(lib, held, held', servers, prev, log, e);
    }
  }

  lemma StaysExplained(lib: Lib, held: Held, held': Held, servers: seq<Server>, prev: map<Text, DirEntry>, log: RunLog,
                       b: Bytes)
    requires Grows(held, held') && Explained(lib, held, servers, prev, log, b)
    ensures Explained(lib, held', servers, prev, log, b)
  {
    hide Grows, Has, NodeReady, NodeList, Manifest, BytesOf;
    if IsNarinfo(lib, held, servers, log, b) {
      var k :| 0 <= k < |log.items| && log.items[k].Fresh? && b == log.items[k].narinfo &&
        Has(lib.env.sha, held, servers, lib.env.sha(log.items[k].nar));
      HasGrows(lib.env.sha, held, held', servers, lib.env.sha(log.items[k].nar));
    }
    if IsNode(lib, held, servers, prev, log, b) {
      var x :| x in NodeList(Manifest(lib.env.sha, log.listing)) && b == BytesOf(lib.env, x) &&
        NodeReady(lib, held, servers, prev, log, x);
      NodeStaysReady(lib, held, held', servers, prev, log, x);
    }
  }

  // ---- nodes by their bytes ----

  /** The uploads of a run that are not tree nodes: NARs, narinfos and nix-cache-info. */
  ghost predicate OtherUpload(log: RunLog, b: Bytes) {
    b in log.uploads && (b == CACHE_INFO || exists k :: 0 <= k < |log.items| && log.items[k].Fresh? &&
                                                        (b == log.items[k].nar || b == log.items[k].narinfo))
  }

  /** All that `x` links to is on `servers`. */
  ghost predicate LinksReady(lib: Lib, held: Held, servers: seq<Server>, prev: map<Text, DirEntry>, log: RunLog,
                             x: Tree) {
    match x
    case Leaf(es) => forall e :: e in es ==> EntryReady(lib, held, servers, prev, log, e)
    case Dir(kids) => forall t :: t in kids ==> Has(lib.env.sha, held, servers, HashOf(lib.env, t))
  }

  /** Leaf nodes with the same bytes have the same entries. */
  lemma SameBytesSameEntries(env: Env, a: Tree, b: Tree)
    requires Lossless(env) && Proper(a) && Proper(b) && a.Leaf? && BytesOf(env, a) == BytesOf(env, b)
    ensures b == a
  {
    SameBytesSameNode(env, a, b);
    hide Lossless, HashOf, SizeOf;
    if b.Dir? {
      LeafIsNotDir(env, a, b);
    } else {
      var la, lb := NodeOf(env, a).l, NodeOf(env, b).l;
      assert |la| == |a.entries| && |lb| == |b.entries|;
      forall i | 0 <= i < |la|
        ensures a.entries[i] == b.entries[i]
      {
        assert la[i] == BlobLink(a.entries[i]) && lb[i] == BlobLink(b.entries[i]);
      }
    }
  }

  /** Nodes of nodes with the same bytes link to the same hashes. */
  lemma SameBytesSameKids(env: Env, a: Tree, b: Tree)
    requires Lossless(env) && Proper(a) && Proper(b) && a.Dir? && BytesOf(env, a) == BytesOf(env, b)
    ensures b.Dir? && |b.kids| == |a.kids|
    ensures forall m :: 0 <= m < |a.kids| ==> HashOf(env, a.kids[m]) == HashOf(env, b.kids[m])
  {
    SameBytesSameNode(env, a, b);
    hide Lossless, HashOf, SizeOf;
    if b.Leaf? {
      LeafIsNotDir(env, b, a);
    } else {
      var la, lb := NodeOf(env, a).l, NodeOf(env, b).l;
      assert |la| == |a.kids| && |lb| == |b.kids|;
      forall m | 0 <= m < |a.kids|
        ensures HashOf(env, a.kids[m]) == HashOf(env, b.kids[m])
      {
        assert la[m] == DirLink(env, a.kids[m]) && lb[m] == DirLink(env, b.kids[m]);
      }
    }
  }

  lemma KidBelow(x: Tree, m: nat)
    requires x.Dir? && m < |x.kids|
    ensures Within(x.kids[m], x) && x.kids[m] != x
  {
    assert Within(x.kids[m], x.kids[m]);
    assert x.kids[m] < x;
  }

  /** A node with the bytes of a ready one has all it links to on the servers; it is that
      very node unless two nodes in them collide. */
  lemma SameBytesReady(lib: Lib, held: Held, servers: seq<Server>, prev: map<Text, DirEntry>, log: RunLog,
                       x: Tree, y: Tree)
    requires Lossless(lib.env) && Proper(x) && Proper(y) && BytesOf(lib.env, x) == BytesOf(lib.env, y)
    requires NodeReady(lib, held, servers, prev, log, y)
    ensures LinksReady(lib, held, servers, prev, log, x)
    ensures NoCollision(lib.env, x, y) ==> x == y
  {
    hide Lossless, Proper, HashOf, BytesOf, EntryReady, Has, NoCollision, Within;
    if NoCollision(lib.env, x, y) {
      HashIsOfBytes(lib.env, x);
      HashIsOfBytes(lib.env, y);
      HashBinds(lib.env, x, y);
    }
    match x
    case Leaf(es) =>
      SameBytesSameEntries(lib.env, x, y);
    case Dir(kids) =>
      SameBytesSameKids(lib.env, x, y);
      forall t | t in kids
        ensures Has(lib.env.sha, held, servers, HashOf(lib.env, t))
      {
        var m :| 0 <= m < |kids| && kids[m] == t;
        KidBelow(y, m);
      }
  }
}
