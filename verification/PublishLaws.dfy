/** What every sequence of publish runs keeps, aborted runs included. */
module PublishLaws {
  import opened Base
  import opened Graphs
  import opened Sorting
  import opened HashTree
  import opened Blossom
  import opened PublishSpec
  import Nhash
  import Closure

  // ---- maps and lists of entries ----

  lemma {:induction false} ByNameNamed(es: seq<DirEntry>, n: Text)
    ensures n in ByName(es) <==> Named(es, n) != []
    ensures n in ByName(es) ==> ByName(es)[n] == Named(es, n)[|Named(es, n)| - 1]
  {
    if es != [] {
      var front, last := es[..|es| - 1], es[|es| - 1];
      ByNameNamed(front, n);
      NamedAppend(front, [last], n);
      assert es == front + [last];
    }
  }

  lemma NamedOfEnumeration(m: map<Text, DirEntry>, es: seq<DirEntry>, n: Text)
    requires Enumerates(m, es)
    requires forall k :: k in m ==> m[k].name == k
    ensures Named(es, n) == if n in m then [m[n]] else []
  {
    NamedDistinct(es, n);
    NamedSound(es, n);
    if n in m {
      assert m[n] in es;
      var i :| 0 <= i < |es| && es[i] == m[n];
      NamedMember(es, i);
    }
    assert forall e :: e in Named(es, n) ==> e in es && e.name == n;
    if Named(es, n) != [] {
      assert Named(es, n)[0] in Named(es, n);
    }
  }

  lemma {:induction false} InsertAllAt(m: map<Text, DirEntry>, es: seq<DirEntry>, n: Text)
    requires DistinctNames(es)
    ensures n in InsertAll(m, es) <==> n in m || exists i :: 0 <= i < |es| && es[i].name == n
    ensures forall i :: 0 <= i < |es| && es[i].name == n ==> InsertAll(m, es)[n] == es[i]
    ensures n in m && (forall i :: 0 <= i < |es| ==> es[i].name != n) ==> InsertAll(m, es)[n] == m[n]
  {
    if es != [] {
      var front, last := es[..|es| - 1], es[|es| - 1];
      InsertAllAt(m, front, n);
      assert last.name == n ==> es[|es| - 1].name == n;
      assert forall i :: 0 <= i < |front| ==> front[i] == es[i];
    }
  }

  // ---- one announcing run ----

  function NameAt(closure: seq<Closure.ClosureEntry>, i: nat): Text
    requires i < |closure|
  {
    NarinfoName(closure[i].path)
  }

  lemma NamesDiffer(a: FileName, b: FileName)
    requires NarinfoName(a) == NarinfoName(b)
    ensures Closure.HashPart(a) == Closure.HashPart(b)
  {
    assert NarinfoName(a)[..|Closure.HashPart(a)|] == Closure.HashPart(a);
    assert NarinfoName(b)[..|Closure.HashPart(b)|] == Closure.HashPart(b);
  }

  lemma ClosureNamesDistinct(cfg: Config, closure: seq<Closure.ClosureEntry>)
    requires ClosureOf(cfg, closure)
    ensures forall i, j :: 0 <= i < j < |closure| ==> NameAt(closure, i) != NameAt(closure, j)
  {
    hide Closure.ScannerInRange, Closure.CandidatesOf, Closure.StoreGraph, Reachable, Closure.HashPart, NarinfoName;
    var order := seq(|closure|, i requires 0 <= i < |closure| => Closure.HashPart(closure[i].path));
    assert NoDup(order);
    forall i, j | 0 <= i < j < |closure|
      ensures NameAt(closure, i) != NameAt(closure, j)
    {
      assert order[i] != order[j];
      if NameAt(closure, i) == NameAt(closure, j) {
        NamesDiffer(closure[i].path, closure[j].path);
      }
    }
  }

  /** The merged map: old entries are untouched, and every path of the closure has its own. */
  lemma MergedMap(lib: Lib, cfg: Config, prev: map<Text, DirEntry>, log: RunLog)
    requires ClosureOf(cfg, log.closure) && ItemsOf(lib, cfg, prev, log.closure, log.items)
    requires forall n :: n in prev ==> prev[n].name == n
    ensures
      var merged := InsertAll(prev, EntriesFor(lib, prev, log.closure, log.items));
      && (forall n :: n in merged ==> merged[n].name == n)
      && (forall n :: n in prev ==> n in merged && merged[n] == prev[n])
      && (forall i :: 0 <= i < |log.closure| ==>
            var n := NameAt(log.closure, i);
            n in merged && merged[n] == EntryFor(lib, prev, log.closure[i], log.items[i]))
      && (forall n :: n in merged && n !in prev ==>
            exists i :: 0 <= i < |log.closure| && NameAt(log.closure, i) == n && log.items[i].Fresh?)
  {
    hide ClosureOf, NarinfoName, UnsignedInfo, SignedInfo;
    var es := EntriesFor(lib, prev, log.closure, log.items);
    var merged := InsertAll(prev, es);
    ClosureNamesDistinct(cfg, log.closure);
    forall i | 0 <= i < |es|
      ensures es[i].name == NameAt(log.closure, i)
      ensures NameAt(log.closure, i) in prev ==> es[i] == prev[NameAt(log.closure, i)]
      ensures NameAt(log.closure, i) !in prev ==> log.items[i].Fresh?
    {
      assert ItemOf(lib, cfg, prev, log.closure, log.closure[i], log.items[i]);
    }
    assert DistinctNames(es);
    forall n: Text {
      InsertAllAt(prev, es, n);
    }
  }

  lemma PreviousKeyed(v: View)
    ensures forall n :: n in Previous(v) ==> Previous(v)[n].name == n
  {
  }

  /** How many copies of `nix-cache-info` the k-th manifest has: one at first, then two. */
  function CacheInfoCopies(sha: Bytes -> Hash, k: nat): seq<DirEntry> {
    if k == 0 then [CacheInfoEntry(sha)] else [CacheInfoEntry(sha), CacheInfoEntry(sha)]
  }

  ghost predicate Shaped(sha: Bytes -> Hash, manifest: seq<DirEntry>, k: nat) {
    && SortedByName(manifest)
    && Named(manifest, CACHE_INFO_NAME) == CacheInfoCopies(sha, k)
    && forall n: Text :: n != CACHE_INFO_NAME ==> |Named(manifest, n)| <= 1
  }

  lemma ManifestNamed(sha: Bytes -> Hash, merged: map<Text, DirEntry>, listing: seq<DirEntry>, n: Text)
    requires Enumerates(merged, listing) && forall k :: k in merged ==> merged[k].name == k
    ensures Named(Manifest(sha, listing), n) ==
      (if n in merged then [merged[n]] else []) + (if n == CACHE_INFO_NAME then [CacheInfoEntry(sha)] else [])
  {
    NamedOfEnumeration(merged, listing, n);
    hide Enumerates, SortByName;
    var ci := CacheInfoEntry(sha);
    StableSort(listing + [ci]);
    NamedAppend(listing, [ci], n);
  }

  /** The new manifest, name by name. */
  lemma NewManifestNamed(lib: Lib, cfg: Config, v: View, v': View, log: RunLog, n: Text)
    requires Announces(lib, cfg, v, v', log)
    ensures
      var merged := InsertAll(Previous(v), EntriesFor(lib, Previous(v), log.closure, log.items));
      Named(Manifest(lib.env.sha, log.listing), n) ==
        (if n in merged then [merged[n]] else []) + (if n == CACHE_INFO_NAME then [CacheInfoEntry(lib.env.sha)] else [])
  {
    var merged := InsertAll(Previous(v), EntriesFor(lib, Previous(v), log.closure, log.items));
    PreviousKeyed(v);
    hide ClosureOf, ItemsOf, Gains, AllHave, Enumerates, EntriesFor, InsertAll, Previous, Named, Manifest;
    MergedMap(lib, cfg, Previous(v), log);
    ManifestNamed(lib.env.sha, merged, log.listing, n);
  }

  lemma AnnouncedPlan(lib: Lib, cfg: Config, v: View, v': View, log: RunLog)
    requires Announces(lib, cfg, v, v', log)
    ensures ClosureOf(cfg, log.closure) && PlanOf(lib, cfg, Previous(v), log.closure, log.items, log.listing)
  {
    hide ClosureOf, PlanOf, Gains, AllHave, Uploads, Manifest, Previous;
  }

  /** An entry other than `nix-cache-info` is carried over unchanged. */
  lemma EntriesCarriedOver(lib: Lib, cfg: Config, v: View, v': View, log: RunLog, n: Text)
    requires Announces(lib, cfg, v, v', log) && v.manifests != [] && n != CACHE_INFO_NAME
    requires
      var last := v.manifests[|v.manifests| - 1];
      Named(last, n) != [] && |Named(last, n)| <= 1
    ensures Named(Manifest(lib.env.sha, log.listing), n) == Named(v.manifests[|v.manifests| - 1], n)
  {
    hide Announces, ClosureOf, EntriesFor, InsertAll, Manifest, Enumerates, Named, ByName, NarinfoName,
      ItemsSoFar, Previous;
    LastEntry(v, n);
    MergedKeeps(lib, cfg, v, v', log, n);
    NewManifestNamed(lib, cfg, v, v', log, n);
  }

  lemma LastEntry(v: View, n: Text)
    requires v.manifests != []
    ensures
      var named := Named(v.manifests[|v.manifests| - 1], n);
      named != [] ==> n in Previous(v) && Previous(v)[n] == named[|named| - 1]
  {
    ByNameNamed(v.manifests[|v.manifests| - 1], n);
    hide ByName, Named;
  }

  lemma MergedKeeps(lib: Lib, cfg: Config, v: View, v': View, log: RunLog, n: Text)
    requires Announces(lib, cfg, v, v', log) && n in Previous(v)
    ensures ItemsOf(lib, cfg, Previous(v), log.closure, log.items)
    ensures
      var merged := InsertAll(Previous(v), EntriesFor(lib, Previous(v), log.closure, log.items));
      n in merged && merged[n] == Previous(v)[n]
  {
    AnnouncedPlan(lib, cfg, v, v', log);
    PreviousKeyed(v);
    hide Announces, ClosureOf, EntriesFor, InsertAll, Enumerates, NarinfoName, ItemsSoFar, Previous;
    MergedMap(lib, cfg, Previous(v), log);
  }

  lemma NewManifestShaped(lib: Lib, cfg: Config, v: View, v': View, log: RunLog)
    requires Announces(lib, cfg, v, v', log)
    requires v.manifests != [] ==> Shaped(lib.env.sha, v.manifests[|v.manifests| - 1], |v.manifests| - 1)
    ensures Shaped(lib.env.sha, Manifest(lib.env.sha, log.listing), |v.manifests|)
  {
    hide ClosureOf, ItemsOf, Gains, AllHave, EntriesFor, InsertAll, SortByName, Enumerates;
    var manifest := Manifest(lib.env.sha, log.listing);
    StableSort(log.listing + [CacheInfoEntry(lib.env.sha)]);
    forall n: Text | n != CACHE_INFO_NAME
      ensures |Named(manifest, n)| <= 1
    {
      NewManifestNamed(lib, cfg, v, v', log, n);
    }
    NewManifestNamed(lib, cfg, v, v', log, CACHE_INFO_NAME);
    PreviousKeyed(v);
    MergedMap(lib, cfg, Previous(v), log);
    CacheInfoNotInClosure(log.closure);
    if v.manifests != [] {
      ByNameNamed(v.manifests[|v.manifests| - 1], CACHE_INFO_NAME);
    }
  }

  lemma CacheInfoNotInClosure(closure: seq<Closure.ClosureEntry>)
    ensures forall i :: 0 <= i < |closure| ==> NameAt(closure, i) != CACHE_INFO_NAME
  {
    forall i | 0 <= i < |closure|
      ensures NameAt(closure, i) != CACHE_INFO_NAME
    {
      NarinfoNameIsNotCacheInfo(closure[i].path);
    }
  }

  // ---- what a run keeps ----

  /** The narinfo `info` is what the entry names. */
  ghost predicate Describes(lib: Lib, info: NarInfo, e: DirEntry) {
    && e.name == NarinfoName(info.storePath)
    && lib.render(info).Some?
    && e.hash == lib.env.sha(lib.render(info).value.bytes)
    && e.size == |lib.render(info).value.bytes| % U64_MOD
  }

  /** Each narinfo's recorded references have their own narinfo entries in the same tree. */
  ghost predicate RefClosed(lib: Lib, infos: map<Text, NarInfo>, manifest: seq<DirEntry>) {
    forall n: Text :: n != CACHE_INFO_NAME && Named(manifest, n) != [] ==> RefsPresent(lib, infos, manifest, n)
  }

  ghost predicate RefsPresent(lib: Lib, infos: map<Text, NarInfo>, manifest: seq<DirEntry>, n: Text)
    requires Named(manifest, n) != []
  {
    && n in infos && Describes(lib, infos[n], Named(manifest, n)[0])
    && forall r :: r in infos[n].references ==> Named(manifest, NarinfoName(r)) != []
  }

  /** No narinfo entry of an earlier manifest is lost or altered in a later one. */
  ghost predicate Growing(manifests: seq<seq<DirEntry>>) {
    forall j, k, n: Text :: 0 <= j < k < |manifests| && n != CACHE_INFO_NAME && Named(manifests[j], n) != [] ==>
      Named(manifests[k], n) == Named(manifests[j], n)
  }

  ghost predicate RootsAnnounced(lib: Lib, v: View) {
    && |v.events| == |v.manifests|
    && forall k :: 0 <= k < |v.events| ==>
         v.events[k].uri == Nhash.UriOf(lib.bech32, HashOf(lib.env, TreeOf(v.manifests[k])))
  }

  ghost predicate AllShaped(sha: Bytes -> Hash, manifests: seq<seq<DirEntry>>) {
    forall k :: 0 <= k < |manifests| ==> Shaped(sha, manifests[k], k)
  }

  ghost predicate AllClosed(lib: Lib, v: View) {
    forall k :: 0 <= k < |v.manifests| ==> RefClosed(lib, v.infos, v.manifests[k])
  }

  /** Narinfos are only recorded for names of the current tree. */
  ghost predicate InfosKnown(v: View) {
    forall n :: n in v.infos ==> n in Previous(v) && n != CACHE_INFO_NAME
  }

  ghost predicate Inv(lib: Lib, v: View) {
    && RootsAnnounced(lib, v)
    && AllShaped(lib.env.sha, v.manifests)
    && AllClosed(lib, v)
    && Growing(v.manifests)
    && InfosKnown(v)
  }

  lemma {:induction false} RefPathsInClosure(lib: Lib, closure: seq<Closure.ClosureEntry>, refs: seq<Bytes>)
    ensures forall r :: r in RefPaths(lib, closure, refs) ==> exists j :: 0 <= j < |closure| && closure[j].path == r
  {
    if refs != [] {
      RefPathsInClosure(lib, closure, refs[1..]);
    }
  }

  lemma {:induction false} InfosAt(infos: map<Text, NarInfo>, closure: seq<Closure.ClosureEntry>, items: seq<Item>,
                                   n: Text)
    requires |items| <= |closure|
    requires forall i :: 0 <= i < |items| && items[i].Fresh? ==> items[i].info.storePath == closure[i].path
    requires forall i, j :: 0 <= i < j < |closure| ==> NameAt(closure, i) != NameAt(closure, j)
    ensures forall i :: 0 <= i < |items| && items[i].Fresh? && NameAt(closure, i) == n ==>
      n in InfosOf(infos, items) && InfosOf(infos, items)[n] == items[i].info
    ensures (forall i :: 0 <= i < |items| && items[i].Fresh? ==> NameAt(closure, i) != n) ==>
      (n in InfosOf(infos, items) <==> n in infos) && (n in infos ==> InfosOf(infos, items)[n] == infos[n])
  {
    hide NarinfoName;
    if items != [] {
      var front := items[..|items| - 1];
      assert forall i :: 0 <= i < |front| ==> front[i] == items[i];
      InfosAt(infos, closure, front, n);
      assert items[|items| - 1].Fresh? ==>
        NarinfoName(items[|items| - 1].info.storePath) == NameAt(closure, |items| - 1);
    }
  }

  lemma FreshPaths(lib: Lib, cfg: Config, prev: map<Text, DirEntry>, closure: seq<Closure.ClosureEntry>,
                   items: seq<Item>)
    requires ItemsOf(lib, cfg, prev, closure, items)
    ensures forall i :: 0 <= i < |items| && items[i].Fresh? ==>
      items[i].info.storePath == closure[i].path && NameAt(closure, i) !in prev
  {
    hide NarinfoName, RefPaths;
    forall i | 0 <= i < |items| && items[i].Fresh?
      ensures items[i].info.storePath == closure[i].path && NameAt(closure, i) !in prev
    {
      assert ItemOf(lib, cfg, prev, closure, closure[i], items[i]);
    }
  }

  /** The narinfo of a name the tree already had does not change. */
  lemma InfosCarriedOver(lib: Lib, cfg: Config, v: View, v': View, log: RunLog, n: Text)
    requires Announces(lib, cfg, v, v', log) && n in Previous(v)
    ensures n in v'.infos <==> n in v.infos
    ensures n in v.infos ==> v'.infos[n] == v.infos[n]
  {
    hide ClosureOf, ItemsOf, Gains, AllHave, EntriesFor, InsertAll, Manifest, Enumerates, InfosOf, NarinfoName,
      Previous;
    ClosureNamesDistinct(cfg, log.closure);
    FreshPaths(lib, cfg, Previous(v), log.closure, log.items);
    ItemCount(lib, cfg, Previous(v), log.closure, log.items);
    InfosAt(v.infos, log.closure, log.items, n);
  }

  lemma ItemCount(lib: Lib, cfg: Config, prev: map<Text, DirEntry>, closure: seq<Closure.ClosureEntry>,
                  items: seq<Item>)
    requires ItemsOf(lib, cfg, prev, closure, items)
    ensures |items| == |closure|
  {
  }

  lemma OldManifestClosed(lib: Lib, cfg: Config, v: View, v': View, log: RunLog, k: nat)
    requires Announces(lib, cfg, v, v', log) && Inv(lib, v) && k < |v.manifests|
    ensures RefClosed(lib, v'.infos, v.manifests[k])
  {
    hide Announces, Previous, Named, RootsAnnounced, AllShaped, Growing, Describes, NarinfoName;
    forall n: Text | n != CACHE_INFO_NAME && Named(v.manifests[k], n) != []
      ensures RefsPresent(lib, v'.infos, v.manifests[k], n)
    {
      assert RefsPresent(lib, v.infos, v.manifests[k], n);
      InfosCarriedOver(lib, cfg, v, v', log, n);
    }
  }

  lemma CarriedRefsPresent(lib: Lib, cfg: Config, v: View, v': View, log: RunLog, n: Text)
    requires Announces(lib, cfg, v, v', log) && Inv(lib, v) && n in Previous(v) && n != CACHE_INFO_NAME
    ensures Named(Manifest(lib.env.sha, log.listing), n) != []
    ensures RefsPresent(lib, v'.infos, Manifest(lib.env.sha, log.listing), n)
  {
    hide Announces, Named, RootsAnnounced, Describes, NarinfoName, Manifest, Growing;
    var last := v.manifests[|v.manifests| - 1];
    ByNameNamed(last, n);
    assert RefsPresent(lib, v.infos, last, n);
    EntriesCarriedOver(lib, cfg, v, v', log, n);
    InfosCarriedOver(lib, cfg, v, v', log, n);
    forall r | r in v.infos[n].references
      ensures Named(Manifest(lib.env.sha, log.listing), NarinfoName(r)) != []
    {
      NarinfoNameIsNotCacheInfo(r);
      EntriesCarriedOver(lib, cfg, v, v', log, NarinfoName(r));
    }
  }

  lemma FreshDescribed(lib: Lib, cfg: Config, prev: map<Text, DirEntry>, closure: seq<Closure.ClosureEntry>,
                       e: Closure.ClosureEntry, item: Item)
    requires ItemOf(lib, cfg, prev, closure, e, item) && item.Fresh?
    ensures Describes(lib, item.info, EntryFor(lib, prev, e, item))
    ensures item.info.references == RefPaths(lib, closure, e.references)
  {
    hide RefPaths, NarinfoName;
  }

  lemma FreshRefsPresent(lib: Lib, cfg: Config, v: View, v': View, log: RunLog, i: nat)
    requires Announces(lib, cfg, v, v', log) && i < |log.items| && i < |log.closure| && log.items[i].Fresh?
    ensures
      var n, manifest := NameAt(log.closure, i), Manifest(lib.env.sha, log.listing);
      Named(manifest, n) != [] && RefsPresent(lib, v'.infos, manifest, n)
  {
    var merged := InsertAll(Previous(v), EntriesFor(lib, Previous(v), log.closure, log.items));
    var n, manifest := NameAt(log.closure, i), Manifest(lib.env.sha, log.listing);
    var item := log.items[i];
    assert ItemOf(lib, cfg, Previous(v), log.closure, log.closure[i], item);
    hide ClosureOf, ItemsOf, ItemOf, Gains, AllHave, EntriesFor, EntryFor, InsertAll, Manifest, Enumerates, InfosOf,
      NarinfoName, Previous, Describes, RefPaths, Named;
    CacheInfoNotInClosure(log.closure);
    PreviousKeyed(v);
    MergedMap(lib, cfg, Previous(v), log);
    NewManifestNamed(lib, cfg, v, v', log, n);
    FreshDescribed(lib, cfg, Previous(v), log.closure, log.closure[i], item);
    ClosureNamesDistinct(cfg, log.closure);
    FreshPaths(lib, cfg, Previous(v), log.closure, log.items);
    InfosAt(v.infos, log.closure, log.items, n);
    RefPathsInClosure(lib, log.closure, log.closure[i].references);
    forall r | r in item.info.references
      ensures Named(manifest, NarinfoName(r)) != []
    {
      var j :| 0 <= j < |log.closure| && log.closure[j].path == r;
      assert NameAt(log.closure, j) in merged;
      NewManifestNamed(lib, cfg, v, v', log, NameAt(log.closure, j));
    }
  }

  lemma NewManifestClosed(lib: Lib, cfg: Config, v: View, v': View, log: RunLog)
    requires Announces(lib, cfg, v, v', log) && Inv(lib, v)
    ensures RefClosed(lib, v'.infos, Manifest(lib.env.sha, log.listing))
  {
    var merged := InsertAll(Previous(v), EntriesFor(lib, Previous(v), log.closure, log.items));
    var manifest := Manifest(lib.env.sha, log.listing);
    ItemCount(lib, cfg, Previous(v), log.closure, log.items);
    hide ClosureOf, ItemsOf, Gains, AllHave, EntriesFor, InsertAll, Manifest, Enumerates, InfosOf, Inv,
      NarinfoName, Previous, RefsPresent, Named;
    PreviousKeyed(v);
    MergedMap(lib, cfg, Previous(v), log);
    forall n: Text | n != CACHE_INFO_NAME && Named(manifest, n) != []
      ensures RefsPresent(lib, v'.infos, manifest, n)
    {
      NewManifestNamed(lib, cfg, v, v', log, n);
      if n in Previous(v) {
        CarriedRefsPresent(lib, cfg, v, v', log, n);
      } else {
        var i :| 0 <= i < |log.closure| && NameAt(log.closure, i) == n && log.items[i].Fresh?;
        FreshRefsPresent(lib, cfg, v, v', log, i);
      }
    }
  }

  /** What an announcing run adds to the history. */
  lemma AnnouncedHistory(lib: Lib, cfg: Config, v: View, v': View, log: RunLog)
    requires Announces(lib, cfg, v, v', log)
    ensures v'.manifests == v.manifests + [Manifest(lib.env.sha, log.listing)]
    ensures v'.events == v.events +
      [RootEvent(Nhash.UriOf(lib.bech32, HashOf(lib.env, TreeOf(Manifest(lib.env.sha, log.listing)))), cfg.servers)]
    ensures v'.infos == InfosOf(v.infos, log.items)
  {
    hide ClosureOf, PlanOf, Gains, AllHave, Uploads, Manifest, HashOf, TreeOf;
  }

  lemma OneOfEachName(sha: Bytes -> Hash, manifests: seq<seq<DirEntry>>, n: Text)
    requires AllShaped(sha, manifests) && manifests != [] && n != CACHE_INFO_NAME
    ensures |Named(manifests[|manifests| - 1], n)| <= 1
  {
    hide Named;
  }

  lemma StillGrowing(lib: Lib, cfg: Config, v: View, v': View, log: RunLog)
    requires Announces(lib, cfg, v, v', log) && AllShaped(lib.env.sha, v.manifests) && Growing(v.manifests)
    ensures Growing(v'.manifests)
  {
    hide Announces, Named, Manifest, AllShaped, HashOf, TreeOf, InfosOf;
    var manifest := Manifest(lib.env.sha, log.listing);
    AnnouncedHistory(lib, cfg, v, v', log);
    forall j, n: Text | 0 <= j < |v.manifests| && n != CACHE_INFO_NAME && Named(v.manifests[j], n) != []
      ensures Named(manifest, n) == Named(v.manifests[j], n)
    {
      assert Named(v.manifests[|v.manifests| - 1], n) == Named(v.manifests[j], n);
      OneOfEachName(lib.env.sha, v.manifests, n);
      EntriesCarriedOver(lib, cfg, v, v', log, n);
    }
  }

  /** A narinfo recorded after a run is of a name the tree had, or of one it built. */
  lemma RecordedBy(lib: Lib, cfg: Config, v: View, v': View, log: RunLog, n: Text)
    requires Announces(lib, cfg, v, v', log) && InfosKnown(v) && n in v'.infos
    ensures n != CACHE_INFO_NAME
    ensures n in Previous(v) || exists i :: 0 <= i < |log.closure| && NameAt(log.closure, i) == n
  {
    AnnouncedPlan(lib, cfg, v, v', log);
    AnnouncedHistory(lib, cfg, v, v', log);
    hide Announces, ClosureOf, Enumerates, InsertAll, EntriesFor, Manifest, InfosOf, NarinfoName, Previous, ItemsSoFar;
    ClosureNamesDistinct(cfg, log.closure);
    CacheInfoNotInClosure(log.closure);
    FreshPaths(lib, cfg, Previous(v), log.closure, log.items);
    InfosAt(v.infos, log.closure, log.items, n);
  }

  lemma MergedHas(lib: Lib, cfg: Config, v: View, v': View, log: RunLog, n: Text)
    requires Announces(lib, cfg, v, v', log)
    requires n in Previous(v) || exists i :: 0 <= i < |log.closure| && NameAt(log.closure, i) == n
    ensures ItemsOf(lib, cfg, Previous(v), log.closure, log.items)
    ensures n in InsertAll(Previous(v), EntriesFor(lib, Previous(v), log.closure, log.items))
  {
    AnnouncedPlan(lib, cfg, v, v', log);
    PreviousKeyed(v);
    hide Announces, ClosureOf, EntriesFor, InsertAll, Enumerates, NarinfoName, ItemsSoFar, Previous;
    MergedMap(lib, cfg, Previous(v), log);
  }

  lemma StillKnown(lib: Lib, cfg: Config, v: View, v': View, log: RunLog)
    requires Announces(lib, cfg, v, v', log) && InfosKnown(v)
    ensures InfosKnown(v')
  {
    hide Announces, Manifest, Previous, Named, ByName, EntriesFor, InsertAll, HashOf, TreeOf, InfosOf, NarinfoName;
    AnnouncedHistory(lib, cfg, v, v', log);
    forall n | n in v'.infos
      ensures n in Previous(v') && n != CACHE_INFO_NAME
    {
      RecordedBy(lib, cfg, v, v', log, n);
      MergedHas(lib, cfg, v, v', log, n);
      NewManifestNamed(lib, cfg, v, v', log, n);
      LastEntry(v', n);
    }
  }

  /** The invariant survives every run, whatever fails in it. */
  lemma RunKeepsInv(lib: Lib, cfg: Config, v: View, v': View, log: RunLog)
    requires Inv(lib, v) && Run(lib, cfg, v, v', log)
    ensures Inv(lib, v')
  {
    hide Shaped, RefClosed, Growing, InfosKnown, HashOf, TreeOf, Announces, Manifest, Underway, Stored, ClosureOf;
    if Announces(lib, cfg, v, v', log) {
      AnnouncedHistory(lib, cfg, v, v', log);
      NewManifestShaped(lib, cfg, v, v', log);
      StillGrowing(lib, cfg, v, v', log);
      StillKnown(lib, cfg, v, v', log);
      NewManifestClosed(lib, cfg, v, v', log);
      forall k | 0 <= k < |v'.manifests|
        ensures RefClosed(lib, v'.infos, v'.manifests[k])
      {
        if k < |v.manifests| {
          OldManifestClosed(lib, cfg, v, v', log, k);
        }
      }
    } else {
      AbortKeepsKnown(lib, cfg, v, v', log);
    }
  }

  lemma AbortKeepsKnown(lib: Lib, cfg: Config, v: View, v': View, log: RunLog)
    requires Aborts(lib, cfg, v, v', log) && InfosKnown(v)
    ensures InfosKnown(v')
  {
  }
}
