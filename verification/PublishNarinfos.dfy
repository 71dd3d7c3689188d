/** What a run writes down about each path, and which paths (src/lib.rs:179-306). */
module PublishNarinfos {
  import opened Base
  import opened Sorting
  import opened PublishSpec
  import opened PublishLaws
  import opened PublishRuns
  import Closure
  import ClosureLaws

  /** The tree's one entry for the path `p` is that of the narinfo built for it. */
  ghost predicate EntryAnnounced(lib: Lib, v: View, manifest: seq<DirEntry>, p: FileName, item: Item)
    requires item.Fresh?
  {
    var name: Text := Closure.HashPart(p) + Ascii(".narinfo");
    && Named(manifest, name) == [DirEntry(name, lib.env.sha(item.narinfo), |item.narinfo| % 0x1_0000_0000_0000_0000)]
    && name in v.infos && v.infos[name] == item.info
  }

  /** An entry announced for a path that was not in the tree before: its name is the path's,
      its hash and size are those of the narinfo, and the narinfo carries what the path's own
      scan found, which is what its NAR still is; narinfo and NAR have both been uploaded. */
  lemma AnnouncedNarinfo(lib: Lib, cfg: Config, v: View, v': View, log: RunLog, i: nat)
    requires Announces(lib, cfg, v, v', log) && i < |log.items| && i < |log.closure| && log.items[i].Fresh?
    ensures
      var p, item := log.closure[i].path, log.items[i];
      && Some(p) in cfg.store.listing && BuiltFor(lib, cfg, p, item) && SignedBy(lib, cfg, item.info)
      && cfg.store.scan(p).Scan?
      && item.info.narHash == cfg.store.scan(p).narHash && item.info.narSize == cfg.store.scan(p).narSize
      && item.nar in log.uploads && item.narinfo in log.uploads
    ensures EntryAnnounced(lib, v', Manifest(lib.env.sha, log.listing), log.closure[i].path, log.items[i])
  {
    var e, item := log.closure[i], log.items[i];
    FreshItemOf(lib, cfg, v, v', log, i);
    ScannedPath(lib, cfg, v, v', log, i);
    BuiltUploaded(lib, cfg, v, v', log, i);
    hide Announces, ItemOf, Manifest, Previous, Named, NarinfoName, EntryFor, BuiltFor, SignedBy, Closure.HashPart;
    FreshEntryNamed(lib, cfg, v, v', log, i);
    FreshEntryIs(lib, Previous(v), e, item);
    BuiltItem(lib, cfg, Previous(v), log.closure, e, item);
  }

  lemma FreshItemOf(lib: Lib, cfg: Config, v: View, v': View, log: RunLog, i: nat)
    requires Announces(lib, cfg, v, v', log) && i < |log.items| && i < |log.closure|
    ensures ItemOf(lib, cfg, Previous(v), log.closure, log.closure[i], log.items[i])
  {
    hide ItemOf, ClosureOf, Manifest, Previous, Enumerates, Uploads;
  }

  lemma ScannedPath(lib: Lib, cfg: Config, v: View, v': View, log: RunLog, i: nat)
    requires Announces(lib, cfg, v, v', log) && i < |log.closure|
    ensures
      var e, scan := log.closure[i], cfg.store.scan(log.closure[i].path);
      Some(e.path) in cfg.store.listing && scan.Scan? && e.narHash == scan.narHash && e.narSize == scan.narSize
  {
    AnnouncedPlan(lib, cfg, v, v', log);
    hide Announces, PlanOf, Closure.HashPart, Closure.ScannerInRange, Closure.CandidatesOf, Closure.Resolved;
    ClosureLaws.ListedIsScanned(cfg.inputs, cfg.store, log.closure, i);
  }

  lemma FreshEntryIs(lib: Lib, prev: map<Text, DirEntry>, e: Closure.ClosureEntry, item: Item)
    requires item.Fresh?
    ensures
      var name := Closure.HashPart(e.path) + Ascii(".narinfo");
      NarinfoName(e.path) == name && EntryFor(lib, prev, e, item) ==
        DirEntry(name, lib.env.sha(item.narinfo), |item.narinfo| % 0x1_0000_0000_0000_0000)
  {
    hide Closure.HashPart;
  }

  lemma BuiltUploaded(lib: Lib, cfg: Config, v: View, v': View, log: RunLog, i: nat)
    requires Announces(lib, cfg, v, v', log) && i < |log.items| && log.items[i].Fresh?
    ensures log.items[i].nar in log.uploads && log.items[i].narinfo in log.uploads
  {
    hide ClosureOf, PlanOf, Manifest, ItemUploads, NodeUploads;
    PublishUploads.ItemUploaded(log.items, i);
  }

  /** Every path of the closure has exactly one entry in the announced tree. */
  lemma ClosureAnnounced(lib: Lib, cfg: Config, v: View, v': View, log: RunLog, j: nat)
    requires Announces(lib, cfg, v, v', log) && j < |log.closure|
    ensures |Named(Manifest(lib.env.sha, log.listing), NarinfoName(log.closure[j].path))| == 1
  {
    var n := NameAt(log.closure, j);
    hide Announces, Manifest, Previous, Named, NarinfoName, EntriesFor, InsertAll, ItemsOf;
    MergedHas(lib, cfg, v, v', log, n);
    NewManifestNamed(lib, cfg, v, v', log, n);
    CacheInfoNotInClosure(log.closure);
  }

  /** The narinfo of every input is in the announced tree. */
  lemma EveryInputAnnounced(lib: Lib, cfg: Config, v: View, v': View, log: RunLog, i: nat)
    requires Announces(lib, cfg, v, v', log) && i < |cfg.inputs|
    ensures cfg.inputs[i].Some?
    ensures |Named(Manifest(lib.env.sha, log.listing), Closure.HashPart(cfg.inputs[i].value) + Ascii(".narinfo"))| == 1
  {
    AnnouncedPlan(lib, cfg, v, v', log);
    hide Announces, PlanOf, Manifest, Previous, Named, Closure.HashPart, Closure.ScannerInRange,
      Closure.CandidatesOf, Closure.Resolved, Closure.Resolvable, Ascii;
    assert cfg.inputs[i] in cfg.inputs;
    var j := ClosureLaws.EveryInputListed(cfg.inputs, cfg.store, log.closure, i);
    ClosureAnnounced(lib, cfg, v, v', log, j);
  }

  /** The cache info is in every announced tree, once in the first and twice in later ones. */
  lemma CacheInfoAnnounced(lib: Lib, cfg: Config, v: View, v': View, log: RunLog)
    requires Announces(lib, cfg, v, v', log) && Inv(lib, v)
    ensures
      var text := Ascii("StoreDir: /nix/store\nWantMassQuery: 1\nPriority: 30\n");
      var name, entry := Ascii("nix-cache-info"), DirEntry(Ascii("nix-cache-info"), lib.env.sha(text), 51);
      && Named(Manifest(lib.env.sha, log.listing), name) == (if v.manifests == [] then [entry] else [entry, entry])
      && text in log.uploads
  {
    hide Announces, Manifest, Named;
    LastShaped(lib, v);
    NewManifestShaped(lib, cfg, v, v', log);
    CacheInfoUploaded(lib, cfg, v, v', log);
  }

  lemma CacheInfoUploaded(lib: Lib, cfg: Config, v: View, v': View, log: RunLog)
    requires Announces(lib, cfg, v, v', log)
    ensures CACHE_INFO in log.uploads
  {
    hide ClosureOf, PlanOf, Manifest, ItemUploads, NodeUploads;
  }

  // ---- recorded references, whether or not paths parse ----

  lemma {:induction false} RecordedInOrder(lib: Lib, closure: seq<Closure.ClosureEntry>, a: seq<Bytes>, b: seq<Bytes>)
    ensures RefPaths(lib, closure, a + b) == RefPaths(lib, closure, a) + RefPaths(lib, closure, b)
  {
    hide FindByHashpart;
    if a == [] {
      assert a + b == b;
    } else {
      assert (a + b)[1..] == a[1..] + b;
      RecordedInOrder(lib, closure, a[1..], b);
    }
  }

  /** A reference is recorded as the path of the closure it is the hashpart of, unless that
      path does not parse. */
  lemma RecordedRef(lib: Lib, closure: seq<Closure.ClosureEntry>, j: nat)
    requires j < |closure|
    requires forall i, k :: 0 <= i < k < |closure| ==>
      Closure.HashPart(closure[i].path) != Closure.HashPart(closure[k].path)
    ensures RefPaths(lib, closure, [Closure.HashPart(closure[j].path)]) ==
      if lib.parses(closure[j].path) then [closure[j].path] else []
  {
    hide Closure.HashPart;
    var refs := [Closure.HashPart(closure[j].path)];
    assert refs[1..] == [];
    var found := FindByHashpart(closure, refs[0]);
    assert found.Some? && found.value == closure[j].path;
  }
}
