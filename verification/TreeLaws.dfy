/** What the built tree is: its entries, its shape, its sizes, its identity. */
module TreeLaws {
  import opened Base
  import opened Sorting
  import opened HashTree

  // ---- entries ----

  lemma {:induction false} EntriesAppend(a: seq<Tree>, b: seq<Tree>)
    ensures EntriesOfAll(a + b) == EntriesOfAll(a) + EntriesOfAll(b)
  {
    if b == [] {
      assert a + b == a;
    } else {
      EntriesAppend(a, b[..|b| - 1]);
      assert (a + b)[..|a + b| - 1] == a + b[..|b| - 1];
    }
  }

  lemma {:induction false} LeafEntries(sorted: seq<DirEntry>, i: nat)
    requires i <= |LeafLevel(sorted)|
    ensures EntriesOfAll(LeafLevel(sorted)[..i]) == sorted[..Min(MAX_LINKS * i, |sorted|)]
  {
    if i > 0 {
      LeafEntries(sorted, i - 1);
      var level := LeafLevel(sorted);
      assert level[..i][..i - 1] == level[..i - 1];
      assert Entries(level[i - 1]) == sorted[MAX_LINKS * (i - 1)..Min(MAX_LINKS * i, |sorted|)];
    }
  }

  lemma ParentAt(level: seq<Tree>, i: nat)
    requires i < |ParentLevel(level)|
    ensures MAX_LINKS * i < |level|
    ensures ParentLevel(level)[i] == Dir(level[MAX_LINKS * i..Min(MAX_LINKS * (i + 1), |level|)])
  {
  }

  lemma {:induction false} ParentEntries(level: seq<Tree>, i: nat)
    requires i <= |ParentLevel(level)|
    ensures EntriesOfAll(ParentLevel(level)[..i]) == EntriesOfAll(level[..Min(MAX_LINKS * i, |level|)])
  {
    hide ParentLevel;
    if i > 0 {
      ParentEntries(level, i - 1);
      ParentAt(level, i - 1);
      var parents := ParentLevel(level);
      var lo, hi := MAX_LINKS * (i - 1), Min(MAX_LINKS * i, |level|);
      assert parents[..i][..i - 1] == parents[..i - 1];
      EntriesAppend(level[..lo], level[lo..hi]);
      assert level[..lo] + level[lo..hi] == level[..hi];
    }
  }

  lemma ParentKeepsEntries(level: seq<Tree>)
    ensures EntriesOfAll(ParentLevel(level)) == EntriesOfAll(level)
  {
    var parents := ParentLevel(level);
    ParentEntries(level, |parents|);
    assert parents[..|parents|] == parents && level[..|level|] == level;
  }

  lemma {:induction false} RootEntries(level: seq<Tree>)
    requires level != []
    ensures Entries(RootFrom(level)) == EntriesOfAll(level)
    decreases |level|
  {
    if |level| == 1 {
      assert level[..0] == [];
    } else {
      var parents := ParentLevel(level);
      RootEntries(parents);
      ParentKeepsEntries(level);
    }
  }

  /** The built tree holds exactly the sorted entries, in order. */
  lemma TreeHoldsEntries(sorted: seq<DirEntry>)
    ensures Entries(TreeOf(sorted)) == sorted
  {
    if sorted != [] {
      var level := LeafLevel(sorted);
      RootEntries(level);
      LeafEntries(sorted, |level|);
      assert level[..|level|] == level && sorted[..|sorted|] == sorted;
    }
  }

  // ---- shape ----

  ghost predicate AllProper(ts: seq<Tree>) {
    forall i :: 0 <= i < |ts| ==> Proper(ts[i])
  }

  lemma {:induction false} RootProper(level: seq<Tree>)
    requires level != [] && AllProper(level)
    ensures Proper(RootFrom(level)) && AllProper(NodesFrom(level))
    decreases |level|
  {
    if |level| > 1 {
      RootProper(ParentLevel(level));
    }
  }

  /** Every node has at most 174 links, and no node is empty unless there are no entries. */
  lemma TreeProper(sorted: seq<DirEntry>)
    ensures Proper(TreeOf(sorted)) && AllProper(NodeList(sorted))
  {
    if sorted != [] {
      RootProper(LeafLevel(sorted));
    }
  }

  function LinkCount(t: Tree): nat {
    match t
    case Leaf(es) => |es|
    case Dir(kids) => |kids|
  }

  lemma {:induction false} LevelLinks(level: seq<Tree>, i: nat)
    requires level != [] && i < |NodesFrom(level)|
    requires forall j :: 0 <= j < |level| ==> 1 <= LinkCount(level[j]) <= MAX_LINKS
    ensures 1 <= LinkCount(NodesFrom(level)[i]) <= MAX_LINKS
    decreases |level|
  {
    if i >= |level| {
      LevelLinks(ParentLevel(level), i - |level|);
    }
  }

  /** Every node of a non-empty tree has 1 to 174 links. */
  lemma NodeLinks(sorted: seq<DirEntry>, i: nat)
    requires sorted != [] && i < |NodeList(sorted)|
    ensures 1 <= LinkCount(NodeList(sorted)[i]) <= 174
  {
    LevelLinks(LeafLevel(sorted), i);
  }

  // ---- children first ----

  /** Every child of a node comes before it. */
  ghost predicate ChildrenFirst(nodes: seq<Tree>) {
    forall i, k :: 0 <= i < |nodes| && nodes[i].Dir? && k in nodes[i].kids ==> k in nodes[..i]
  }

  lemma ParentsFollow(below: seq<Tree>, level: seq<Tree>)
    requires ChildrenFirst(below + level)
    ensures ChildrenFirst((below + level) + ParentLevel(level))
  {
    var parents := ParentLevel(level);
    var nodes, n := (below + level) + parents, |below + level|;
    forall i, k | 0 <= i < |nodes| && nodes[i].Dir? && k in nodes[i].kids
      ensures k in nodes[..i]
    {
      if i < n {
        assert nodes[..i] == (below + level)[..i];
      } else {
        assert nodes[i] == parents[i - n];
        assert k in level;
        assert nodes[..i] == (below + level) + parents[..i - n];
      }
    }
  }

  lemma {:induction false} LevelsChildrenFirst(below: seq<Tree>, level: seq<Tree>)
    requires level != [] && ChildrenFirst(below + level)
    requires forall t :: t in level ==> t in below + level
    ensures ChildrenFirst(below + NodesFrom(level))
    ensures RootFrom(level) == (below + NodesFrom(level))[|below + NodesFrom(level)| - 1]
    decreases |level|
  {
    if |level| > 1 {
      var parents := ParentLevel(level);
      ParentsFollow(below, level);
      LevelsChildrenFirst(below + level, parents);
      assert below + NodesFrom(level) == (below + level) + NodesFrom(parents);
    }
  }

  /** Nodes are listed children first, so every prefix of the list is closed under
      directory links; the root comes last. */
  lemma NodeListChildrenFirst(sorted: seq<DirEntry>)
    ensures NodeList(sorted) != [] && ChildrenFirst(NodeList(sorted))
    ensures TreeOf(sorted) == NodeList(sorted)[|NodeList(sorted)| - 1]
  {
    if sorted != [] {
      var level := LeafLevel(sorted);
      assert [] + level == level && [] + NodesFrom(level) == NodesFrom(level);
      LevelsChildrenFirst([], level);
    }
  }

  lemma {:induction false} WithinListed(x: Tree, t: Tree, nodes: seq<Tree>)
    requires ChildrenFirst(nodes) && t in nodes && Within(x, t)
    ensures x in nodes
    decreases t
  {
    if x != t {
      var i :| 0 <= i < |t.kids| && Within(x, t.kids[i]);
      assert t.kids[i] in t.kids;
      WithinListed(x, t.kids[i], nodes);
    }
  }

  /** The upload list has every node of the tree. */
  lemma NodeListComplete(sorted: seq<DirEntry>, x: Tree)
    requires Within(x, TreeOf(sorted))
    ensures x in NodeList(sorted)
  {
    NodeListChildrenFirst(sorted);
    WithinListed(x, TreeOf(sorted), NodeList(sorted));
  }

  /** Whatever is below a listed node is listed before it. */
  lemma {:induction false} BelowIsEarlier(nodes: seq<Tree>, i: nat, t: Tree)
    requires ChildrenFirst(nodes) && i < |nodes| && Within(t, nodes[i]) && t != nodes[i]
    ensures t in nodes[..i]
    decreases i
  {
    var m :| 0 <= m < |nodes[i].kids| && Within(t, nodes[i].kids[m]);
    assert nodes[i].kids[m] in nodes[i].kids;
    var j :| 0 <= j < i && nodes[j] == nodes[i].kids[m];
    if t == nodes[j] {
      assert nodes[..i][j] == t;
    } else {
      BelowIsEarlier(nodes, j, t);
    }
  }

  lemma {:induction false} EntriesOfMember(level: seq<Tree>, i: nat)
    requires i < |level|
    ensures forall e :: e in Entries(level[i]) ==> e in EntriesOfAll(level)
  {
    if i < |level| - 1 {
      EntriesOfMember(level[..|level| - 1], i);
    }
  }

  lemma {:induction false} ListedFrom(level: seq<Tree>, x: Tree)
    requires level != [] && x in NodesFrom(level)
    ensures forall e :: e in Entries(x) ==> e in EntriesOfAll(level)
    decreases |level|
  {
    if x in level {
      var i :| 0 <= i < |level| && level[i] == x;
      EntriesOfMember(level, i);
    } else {
      ParentKeepsEntries(level);
      ListedFrom(ParentLevel(level), x);
    }
  }

  /** A listed node only holds entries of the list the tree was built from. */
  lemma ListedEntries(sorted: seq<DirEntry>, x: Tree)
    requires x in NodeList(sorted)
    ensures forall e :: e in Entries(x) ==> e in sorted
  {
    if sorted != [] {
      var level := LeafLevel(sorted);
      ListedFrom(level, x);
      LeafEntries(sorted, |level|);
      assert level[..|level|] == level && sorted[..|sorted|] == sorted;
    }
  }

  // ---- sizes ----

  function Sum(s: seq<int>): int {
    if s == [] then 0 else Sum(s[..|s| - 1]) + s[|s| - 1]
  }

  function TotalSize(es: seq<DirEntry>): int {
    Sum(SizesOf(es))
  }

  /** Residues modulo 2^64 add up. */
  lemma ResiduesAdd(a: int, b: int, c: int, d: int)
    requires a % U64_MOD == c % U64_MOD && b % U64_MOD == d % U64_MOD
    ensures (a + b) % U64_MOD == (c + d) % U64_MOD
  {
    var k, j := a / U64_MOD - c / U64_MOD, b / U64_MOD - d / U64_MOD;
    assert a + b == c + d + (k + j) * U64_MOD;
  }

  lemma {:induction false} WrapSumIsSum(s: seq<U64>)
    ensures WrapSum(s) == Sum(s) % U64_MOD
  {
    if s != [] {
      var front, last := s[..|s| - 1], s[|s| - 1];
      WrapSumIsSum(front);
      ResiduesAdd(WrapSum(front), last, Sum(front), last);
    }
  }

  lemma {:induction false} SumAppend(a: seq<int>, b: seq<int>)
    ensures Sum(a + b) == Sum(a) + Sum(b)
  {
    if b == [] {
      assert a + b == a;
    } else {
      SumAppend(a, b[..|b| - 1]);
      assert (a + b)[..|a + b| - 1] == a + b[..|b| - 1];
    }
  }

  lemma TotalAppend(a: seq<DirEntry>, b: seq<DirEntry>)
    ensures TotalSize(a + b) == TotalSize(a) + TotalSize(b)
  {
    SumAppend(SizesOf(a), SizesOf(b));
    assert SizesOf(a + b) == SizesOf(a) + SizesOf(b);
  }

  function NodeSizes(ts: seq<Tree>): seq<U64> {
    seq(|ts|, i requires 0 <= i < |ts| => SizeOf(ts[i]))
  }

  /** The size recorded for a node is the total over the entries below it, modulo 2^64. */
  lemma {:induction false} SizeConserved(t: Tree)
    ensures SizeOf(t) == TotalSize(Entries(t)) % U64_MOD
    decreases t, 0
  {
    match t
    case Leaf(es) => WrapSumIsSum(SizesOf(es));
    case Dir(kids) =>
      LevelSizeConserved(kids);
      WrapSumIsSum(NodeSizes(kids));
      assert SizeOf(t) == WrapSum(NodeSizes(kids));
  }

  /** The size on a directory link is the total below the node it points to. */
  lemma LinkSize(env: Env, t: Tree, i: nat)
    requires t.Dir? && i < |t.kids|
    ensures NodeOf(env, t).l[i].s == TotalSize(Entries(t.kids[i])) % U64_MOD
  {
    SizeConserved(t.kids[i]);
    hide TotalSize, Entries, SizeOf, HashOf;
  }

  lemma {:induction false} PartOfTotal(ts: seq<Tree>, i: nat)
    requires i < |ts|
    ensures 0 <= TotalSize(Entries(ts[i])) <= TotalSize(EntriesOfAll(ts))
  {
    hide TotalSize, Entries;
    var front, last := ts[..|ts| - 1], ts[|ts| - 1];
    TotalAppend(EntriesOfAll(front), Entries(last));
    TotalNonNegative(EntriesOfAll(front));
    TotalNonNegative(Entries(last));
    if i < |ts| - 1 {
      PartOfTotal(front, i);
    }
  }

  /** When the total below a node fits in 64 bits, each of its directory links has exactly
      the total below it. */
  lemma LinkSizeExact(env: Env, t: Tree, i: nat)
    requires t.Dir? && i < |t.kids| && TotalSize(Entries(t)) < U64_MOD
    ensures NodeOf(env, t).l[i].s == TotalSize(Entries(t.kids[i]))
  {
    assert Entries(t) == EntriesOfAll(t.kids);
    hide TotalSize, Entries, SizeOf, HashOf, NodeOf;
    PartOfTotal(t.kids, i);
    LinkSize(env, t, i);
  }

  /** So is the sum over a whole level. */
  lemma {:induction false} LevelSizeConserved(ts: seq<Tree>)
    ensures Sum(NodeSizes(ts)) % U64_MOD == TotalSize(EntriesOfAll(ts)) % U64_MOD
    decreases ts, 1
  {
    if ts != [] {
      var front, last := ts[..|ts| - 1], ts[|ts| - 1];
      LevelSizeConserved(front);
      SizeConserved(last);
      assert NodeSizes(ts)[..|ts| - 1] == NodeSizes(front);
      TotalAppend(EntriesOfAll(front), Entries(last));
      hide TotalSize, SizeOf, Entries;
      ResiduesAdd(Sum(NodeSizes(front)), SizeOf(last), TotalSize(EntriesOfAll(front)), TotalSize(Entries(last)));
    }
  }

  /** The levels of the tree, leaves being level 0. */
  function LevelAt(level: seq<Tree>, k: nat): seq<Tree>
    decreases k
  {
    if k == 0 then level else LevelAt(ParentLevel(level), k - 1)
  }

  lemma {:induction false} LevelAtEntries(level: seq<Tree>, k: nat)
    ensures EntriesOfAll(LevelAt(level, k)) == EntriesOfAll(level)
    decreases k
  {
    hide ParentLevel, EntriesOfAll;
    if k > 0 {
      LevelAtEntries(ParentLevel(level), k - 1);
      ParentKeepsEntries(level);
    }
  }

  lemma {:induction false} SumsFit(ts: seq<Tree>)
    requires 0 <= TotalSize(EntriesOfAll(ts)) < U64_MOD
    ensures Sum(NodeSizes(ts)) == TotalSize(EntriesOfAll(ts))
  {
    if ts != [] {
      var front, last := ts[..|ts| - 1], ts[|ts| - 1];
      assert NodeSizes(ts)[..|ts| - 1] == NodeSizes(front);
      TotalAppend(EntriesOfAll(front), Entries(last));
      TotalNonNegative(EntriesOfAll(front));
      TotalNonNegative(Entries(last));
      SumsFit(front);
      SizeConserved(last);
    }
  }

  lemma {:induction false} SumNonNegative(s: seq<U64>)
    ensures Sum(s) >= 0
  {
    if s != [] {
      SumNonNegative(s[..|s| - 1]);
    }
  }

  lemma TotalNonNegative(es: seq<DirEntry>)
    ensures TotalSize(es) >= 0
  {
    SumNonNegative(SizesOf(es));
  }

  /** When the total fits in 64 bits, every level's sizes add up to it exactly. */
  lemma LevelTotals(sorted: seq<DirEntry>, k: nat)
    requires TotalSize(sorted) < U64_MOD
    ensures Sum(NodeSizes(LevelAt(LeafLevel(sorted), k))) == TotalSize(sorted)
  {
    var level := LeafLevel(sorted);
    LeafEntries(sorted, |level|);
    assert level[..|level|] == level && sorted[..|sorted|] == sorted;
    LevelAtEntries(level, k);
    TotalNonNegative(sorted);
    SumsFit(LevelAt(level, k));
  }

  // ---- identity ----

  /** No two different nodes of the two trees have the same hash. */
  ghost predicate NoCollision(env: Env, a: Tree, b: Tree) {
    forall x, y :: Within(x, a) && Within(y, b) && HashOf(env, x) == HashOf(env, y) ==>
      BytesOf(env, x) == BytesOf(env, y)
  }

  lemma SameBytesSameNode(env: Env, a: Tree, b: Tree)
    requires Lossless(env) && Proper(a) && Proper(b) && BytesOf(env, a) == BytesOf(env, b)
    ensures NodeOf(env, a) == NodeOf(env, b)
  {
    assert env.dec(env.enc(NodeOf(env, a))) == Some(NodeOf(env, a));
    assert env.dec(env.enc(NodeOf(env, b))) == Some(NodeOf(env, b));
  }

  lemma NoCollisionBelow(env: Env, a: Tree, b: Tree, i: nat, j: nat)
    requires NoCollision(env, a, b) && a.Dir? && b.Dir? && i < |a.kids| && j < |b.kids|
    ensures NoCollision(env, a.kids[i], b.kids[j])
  {
    assert forall x :: Within(x, a.kids[i]) ==> Within(x, a);
    assert forall y :: Within(y, b.kids[j]) ==> Within(y, b);
  }

  lemma LeafIsNotDir(env: Env, a: Tree, b: Tree)
    requires a.Leaf? && b.Dir? && Proper(b)
    ensures NodeOf(env, a) != NodeOf(env, b)
  {
    assert NodeOf(env, b).l[0].t == DIR;
    if a.entries != [] {
      assert NodeOf(env, a).l[0].t == BLOB;
    }
  }

  /** Equal hashes mean equal trees, whatever their heights. */
  lemma {:induction false} HashBinds(env: Env, a: Tree, b: Tree)
    requires Lossless(env) && NoCollision(env, a, b) && Proper(a) && Proper(b)
    requires HashOf(env, a) == HashOf(env, b)
    ensures a == b
    decreases a, 1
  {
    assert Within(a, a) && Within(b, b);
    SameBytesSameNode(env, a, b);
    var la, lb := NodeOf(env, a).l, NodeOf(env, b).l;
    if a.Leaf? && b.Leaf? {
      assert |la| == |a.entries| && |lb| == |b.entries|;
      forall i | 0 <= i < |la|
        ensures a.entries[i] == b.entries[i]
      {
        assert la[i] == BlobLink(a.entries[i]) && lb[i] == BlobLink(b.entries[i]);
      }
    } else if a.Dir? && b.Dir? {
      DirsBind(env, a, b);
    } else if a.Leaf? {
      LeafIsNotDir(env, a, b);
    } else {
      LeafIsNotDir(env, b, a);
    }
  }

  lemma {:induction false} DirsBind(env: Env, a: Tree, b: Tree)
    requires Lossless(env) && NoCollision(env, a, b) && Proper(a) && Proper(b)
    requires a.Dir? && b.Dir? && NodeOf(env, a) == NodeOf(env, b)
    ensures a == b
    decreases a, 0
  {
    hide HashOf, SizeOf, NoCollision, Lossless, Within;
    var la, lb := NodeOf(env, a).l, NodeOf(env, b).l;
    assert |la| == |a.kids| && |lb| == |b.kids|;
    forall i | 0 <= i < |la|
      ensures a.kids[i] == b.kids[i]
    {
      assert la[i] == DirLink(env, a.kids[i]) && lb[i] == DirLink(env, b.kids[i]);
      NoCollisionBelow(env, a, b, i, i);
      HashBinds(env, a.kids[i], b.kids[i]);
    }
  }

  /** Equal roots mean equal sorted entry lists. */
  lemma RootBinds(env: Env, es: seq<DirEntry>, fs: seq<DirEntry>)
    requires Lossless(env) && NoCollision(env, TreeOf(SortByName(es)), TreeOf(SortByName(fs)))
    requires HashOf(env, TreeOf(SortByName(es))) == HashOf(env, TreeOf(SortByName(fs)))
    ensures SortByName(es) == SortByName(fs)
  {
    TreeProper(SortByName(es));
    TreeProper(SortByName(fs));
    HashBinds(env, TreeOf(SortByName(es)), TreeOf(SortByName(fs)));
    TreeHoldsEntries(SortByName(es));
    TreeHoldsEntries(SortByName(fs));
  }

  /** Any listing of the same distinctly named entries, followed by the same tail,
      builds the same nodes and the same root: hash map order cannot matter. */
  lemma CanonicalTree(es: seq<DirEntry>, fs: seq<DirEntry>, tail: seq<DirEntry>)
    requires DistinctNames(es) && DistinctNames(fs) && forall e :: e in es <==> e in fs
    ensures SortByName(es + tail) == SortByName(fs + tail)
    ensures NodeList(SortByName(es + tail)) == NodeList(SortByName(fs + tail))
    ensures TreeOf(SortByName(es + tail)) == TreeOf(SortByName(fs + tail))
  {
    forall name
      ensures Named(es + tail, name) == Named(fs + tail, name)
    {
      NamedOfPermutation(es, fs, name);
      NamedAppend(es, tail, name);
      NamedAppend(fs, tail, name);
    }
    SortCanonical(es + tail, fs + tail);
  }

  // ---- what is uploaded ----

  /** The i-th uploaded blob: under a lossless codec it decodes to a directory node, type 2,
      whose links are its entries in order (type 0, with their names, hashes and sizes), or
      its children in order (type 2, unnamed, with their own blobs' hashes). */
  lemma NodeOnWire(env: Env, sorted: seq<DirEntry>, i: nat)
    requires Lossless(env) && i < |NodeList(sorted)|
    ensures
      var (bytes, hash) := Blobs(BuiltLevel(env, NodeList(sorted)))[i];
      && hash == env.sha(bytes) && env.dec(bytes).Some? && env.dec(bytes).value.t == 2
      && LinksOf(env, NodeList(sorted)[i], env.dec(bytes).value.l)
  {
    TreeProper(sorted);
    hide Lossless, NodeList, SizeOf;
    var t := NodeList(sorted)[i];
    assert Proper(t);
    DecodesTo(env, t);
    LinksAre(env, t);
    BuiltLevelAt(env, NodeList(sorted));
  }

  ghost predicate LinksOf(env: Env, t: Tree, links: seq<WireLink>) {
    match t
    case Leaf(es) =>
      |links| == |es| && forall k :: 0 <= k < |es| ==> links[k] == WireLink(es[k].hash, Some(es[k].name), es[k].size, 0)
    case Dir(kids) =>
      |links| == |kids| && forall k :: 0 <= k < |kids| ==>
        links[k] == WireLink(env.sha(BytesOf(env, kids[k])), None, SizeOf(kids[k]), 2)
  }

  lemma LinksAre(env: Env, t: Tree)
    ensures LinksOf(env, t, NodeOf(env, t).l) && NodeOf(env, t).t == 2
  {
    hide SizeOf;
    match t
    case Leaf(es) => assert NodeOf(env, t).l == seq(|es|, k requires 0 <= k < |es| => BlobLink(es[k]));
    case Dir(kids) =>
      assert NodeOf(env, t).l == seq(|kids|, k requires 0 <= k < |kids| => DirLink(env, kids[k]));
      forall k | 0 <= k < |kids|
        ensures DirLink(env, kids[k]) == WireLink(env.sha(BytesOf(env, kids[k])), None, SizeOf(kids[k]), 2)
      {
        HashIsOfBytes(env, kids[k]);
      }
  }

  lemma HashIsOfBytes(env: Env, t: Tree)
    ensures HashOf(env, t) == env.sha(BytesOf(env, t))
  {
  }

  lemma DecodesTo(env: Env, t: Tree)
    requires Lossless(env) && Proper(t)
    ensures env.dec(BytesOf(env, t)) == Some(NodeOf(env, t)) && HashOf(env, t) == env.sha(BytesOf(env, t))
  {
    assert |NodeOf(env, t).l| < LEN32;
  }

  /** Chunks are cut from the left: all but the last node of a level are full. */
  lemma LevelsFull(sorted: seq<DirEntry>, level: seq<Tree>, i: nat)
    ensures i + 1 < |LeafLevel(sorted)| ==> LinkCount(LeafLevel(sorted)[i]) == 174
    ensures i + 1 < |ParentLevel(level)| ==> LinkCount(ParentLevel(level)[i]) == 174
  {
  }
}
