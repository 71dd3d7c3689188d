/** The chunked directory tree and its builder (src/manifest.rs). */
module HashTree {
  import opened Base
  import opened Sorting

  /** Maximum links per directory node. */
  const MAX_LINKS := 174

  const BLOB: Byte := 0
  const DIR: Byte := 2

  datatype WireLink = WireLink(h: Text, n: Option<Text>, s: U64, t: Byte)

  datatype WireTreeNode = WireTreeNode(l: seq<WireLink>, t: Byte)

  datatype BuiltNode = BuiltNode(bytes: Bytes, hash: Hash, size: U64)

  /** The library functions the tree code calls: SHA-256 and the MessagePack codec. */
  datatype Env = Env(sha: Bytes -> Hash, enc: WireTreeNode -> Bytes, dec: Bytes -> Option<WireTreeNode>)

  /** Decoding undoes encoding. `MsgPack.Lossless` proves it of the concrete format. */
  ghost predicate Lossless(env: Env) {
    forall n: WireTreeNode :: |n.l| < LEN32 ==> env.dec(env.enc(n)) == Some(n)
  }

  // ---- chunks ----

  function CeilDiv(n: nat, d: nat): nat
    requires d > 0
  {
    (n + d - 1) / d
  }

  function Min(a: nat, b: nat): nat {
    if a <= b then a else b
  }

  /** `slice::chunks(MAX_LINKS)`. */
  function Chunks<T>(s: seq<T>): (cs: seq<seq<T>>)
    ensures |cs| == CeilDiv(|s|, MAX_LINKS)
    ensures forall i :: 0 <= i < |cs| ==>
      MAX_LINKS * i < |s| && cs[i] == s[MAX_LINKS * i..Min(MAX_LINKS * (i + 1), |s|)]
  {
    seq(CeilDiv(|s|, MAX_LINKS), i requires 0 <= i < CeilDiv(|s|, MAX_LINKS) =>
      s[MAX_LINKS * i..Min(MAX_LINKS * (i + 1), |s|)])
  }

  // ---- trees ----

  /** What a node stands for: a leaf directory of entries, or a directory of nodes. */
  datatype Tree = Leaf(entries: seq<DirEntry>) | Dir(kids: seq<Tree>)

  function BlobLink(e: DirEntry): WireLink {
    WireLink(e.hash, Some(e.name), e.size, BLOB)
  }

  function WrapSum(s: seq<U64>): U64 {
    if s == [] then 0 else WrapAdd(WrapSum(s[..|s| - 1]), s[|s| - 1])
  }

  function SizesOf(es: seq<DirEntry>): seq<U64> {
    seq(|es|, i requires 0 <= i < |es| => es[i].size)
  }

  function SizeOf(t: Tree): U64 {
    match t
    case Leaf(es) => WrapSum(SizesOf(es))
    case Dir(kids) => WrapSum(seq(|kids|, i requires 0 <= i < |kids| => SizeOf(kids[i])))
  }

  function NodeOf(env: Env, t: Tree): WireTreeNode
    decreases t, 0
  {
    match t
    case Leaf(es) => WireTreeNode(seq(|es|, i requires 0 <= i < |es| => BlobLink(es[i])), DIR)
    case Dir(kids) =>
      WireTreeNode(seq(|kids|, i requires 0 <= i < |kids| => DirLink(env, kids[i])), DIR)
  }

  function DirLink(env: Env, t: Tree): WireLink
    decreases t, 2
  {
    WireLink(HashOf(env, t), None, SizeOf(t), DIR)
  }

  function HashOf(env: Env, t: Tree): Hash
    decreases t, 1
  {
    env.sha(env.enc(NodeOf(env, t)))
  }

  function BytesOf(env: Env, t: Tree): Bytes {
    env.enc(NodeOf(env, t))
  }

  function BuiltOf(env: Env, t: Tree): BuiltNode {
    BuiltNode(BytesOf(env, t), HashOf(env, t), SizeOf(t))
  }

  function BuiltLevel(env: Env, level: seq<Tree>): seq<BuiltNode> {
    seq(|level|, i requires 0 <= i < |level| => BuiltOf(env, level[i]))
  }

  /** The entries under a node, left to right. */
  function Entries(t: Tree): seq<DirEntry> {
    match t
    case Leaf(es) => es
    case Dir(kids) => EntriesOfAll(kids)
  }

  function EntriesOfAll(ts: seq<Tree>): seq<DirEntry> {
    if ts == [] then [] else EntriesOfAll(ts[..|ts| - 1]) + Entries(ts[|ts| - 1])
  }

  /** `x` is `t` or a node below it. */
  ghost predicate Within(x: Tree, t: Tree) {
    x == t || (t.Dir? && exists i :: 0 <= i < |t.kids| && Within(x, t.kids[i]))
  }

  /** No node has more than MAX_LINKS links and no directory of nodes is empty. */
  ghost predicate Proper(t: Tree) {
    match t
    case Leaf(es) => |es| <= MAX_LINKS
    case Dir(kids) => 1 <= |kids| <= MAX_LINKS && forall i :: 0 <= i < |kids| ==> Proper(kids[i])
  }

  // ---- levels ----

  function LeafLevel(sorted: seq<DirEntry>): (level: seq<Tree>)
    ensures |level| == CeilDiv(|sorted|, MAX_LINKS)
  {
    var cs := Chunks(sorted);
    seq(|cs|, i requires 0 <= i < |cs| => Leaf(cs[i]))
  }

  function ParentLevel(level: seq<Tree>): (parents: seq<Tree>)
    ensures |parents| == CeilDiv(|level|, MAX_LINKS)
  {
    var cs := Chunks(level);
    seq(|cs|, i requires 0 <= i < |cs| => Dir(cs[i]))
  }

  /** This level and every level above it, lower levels first. */
  function NodesFrom(level: seq<Tree>): seq<Tree>
    requires level != []
    decreases |level|
  {
    if |level| == 1 then level else level + NodesFrom(ParentLevel(level))
  }

  function RootFrom(level: seq<Tree>): Tree
    requires level != []
    decreases |level|
  {
    if |level| == 1 then level[0] else RootFrom(ParentLevel(level))
  }

  function TreeOf(sorted: seq<DirEntry>): Tree {
    if sorted == [] then Leaf([]) else RootFrom(LeafLevel(sorted))
  }

  /** Every node of the tree in upload order. */
  function NodeList(sorted: seq<DirEntry>): seq<Tree> {
    if sorted == [] then [Leaf([])] else NodesFrom(LeafLevel(sorted))
  }

  // ---- the builder ----

  method BuildLeafLevel(env: Env, sorted: seq<DirEntry>) returns (level: seq<BuiltNode>)
    ensures level == BuiltLevel(env, LeafLevel(sorted))
    ensures forall i :: 0 <= i < |level| ==> IsNodeBlob(env, level[i].bytes, level[i].hash)
  {
    level := [];
    var chunks := Chunks(sorted);
    ghost var trees := LeafLevel(sorted);
    for i := 0 to |chunks|
      invariant level == BuiltLevel(env, trees[..i])
    {
      var chunk := chunks[i];
      var totalSize := WrapSum(SizesOf(chunk));
      var wire := WireTreeNode(seq(|chunk|, j requires 0 <= j < |chunk| => BlobLink(chunk[j])), DIR);
      assert wire == NodeOf(env, trees[i]);
      var bytes := env.enc(wire);
      var hash := env.sha(bytes);
      level := level + [BuiltNode(bytes, hash, totalSize)];
      assert trees[..i + 1] == trees[..i] + [trees[i]];
    }
    assert trees[..|trees|] == trees;
    BuiltIsNodeBlob(env, trees);
  }

  method BuildParentLevel(env: Env, current: seq<BuiltNode>, ghost below: seq<Tree>)
    returns (level: seq<BuiltNode>)
    requires current == BuiltLevel(env, below)
    ensures level == BuiltLevel(env, ParentLevel(below))
    ensures forall i :: 0 <= i < |level| ==> IsNodeBlob(env, level[i].bytes, level[i].hash)
  {
    level := [];
    var chunks := Chunks(current);
    ghost var trees := ParentLevel(below);
    for i := 0 to |chunks|
      invariant level == BuiltLevel(env, trees[..i])
    {
      var chunk := chunks[i];
      assert chunk == BuiltLevel(env, trees[i].kids);
      var sizes := seq(|chunk|, j requires 0 <= j < |chunk| => chunk[j].size);
      assert sizes == seq(|chunk|, j requires 0 <= j < |chunk| => SizeOf(trees[i].kids[j]));
      var totalSize := WrapSum(sizes);
      var wire := WireTreeNode(
        seq(|chunk|, j requires 0 <= j < |chunk| => WireLink(chunk[j].hash, None, chunk[j].size, DIR)), DIR);
      assert wire == NodeOf(env, trees[i]);
      var bytes := env.enc(wire);
      var hash := env.sha(bytes);
      level := level + [BuiltNode(bytes, hash, totalSize)];
      assert trees[..i + 1] == trees[..i] + [trees[i]];
    }
    assert trees[..|trees|] == trees;
    BuiltIsNodeBlob(env, trees);
  }

  /** The uploaded form of a list of built nodes. */
  function Blobs(nodes: seq<BuiltNode>): seq<(Bytes, Hash)> {
    seq(|nodes|, i requires 0 <= i < |nodes| => (nodes[i].bytes, nodes[i].hash))
  }

  lemma BuiltLevelAt(env: Env, level: seq<Tree>)
    ensures |BuiltLevel(env, level)| == |level|
    ensures forall i :: 0 <= i < |level| ==>
      && BuiltLevel(env, level)[i].hash == HashOf(env, level[i])
      && BuiltLevel(env, level)[i].bytes == BytesOf(env, level[i])
  {
  }

  /** A blob with its hash, encoding a directory node whose links are all entries with a
      name, or all unnamed nodes. */
  ghost predicate IsNodeBlob(env: Env, blob: Bytes, hash: Hash) {
    hash == env.sha(blob) && exists node: WireTreeNode :: node.t == 2 && blob == env.enc(node) && UniformLinks(node.l)
  }

  ghost predicate UniformLinks(links: seq<WireLink>) {
    || (forall i :: 0 <= i < |links| ==> links[i].t == 0 && links[i].n.Some?)
    || (forall i :: 0 <= i < |links| ==> links[i].t == 2 && links[i].n.None?)
  }

  lemma BuiltIsNodeBlob(env: Env, level: seq<Tree>)
    ensures forall i :: 0 <= i < |BuiltLevel(env, level)| ==>
      IsNodeBlob(env, BuiltLevel(env, level)[i].bytes, BuiltLevel(env, level)[i].hash)
  {
    forall i | 0 <= i < |level|
      ensures IsNodeBlob(env, BytesOf(env, level[i]), HashOf(env, level[i]))
    {
      var node := NodeOf(env, level[i]);
      match level[i]
      case Leaf(es) => assert node.l == seq(|es|, k requires 0 <= k < |es| => BlobLink(es[k]));
      case Dir(kids) => assert node.l == seq(|kids|, k requires 0 <= k < |kids| => DirLink(env, kids[k]));
      assert node.t == 2 && UniformLinks(node.l);
    }
  }

  lemma BuiltLevelAppend(env: Env, a: seq<Tree>, b: seq<Tree>)
    ensures BuiltLevel(env, a + b) == BuiltLevel(env, a) + BuiltLevel(env, b)
  {
  }

  lemma EmptyTree(env: Env)
    ensures HashOf(env, TreeOf([])) == env.sha(env.enc(WireTreeNode([], DIR)))
    ensures Blobs(BuiltLevel(env, NodeList([]))) == [(env.enc(WireTreeNode([], DIR)), HashOf(env, TreeOf([])))]
  {
    assert NodeOf(env, Leaf([])) == WireTreeNode([], DIR);
  }

  lemma EmptyIsNodeBlob(env: Env)
    ensures IsNodeBlob(env, env.enc(WireTreeNode([], DIR)), env.sha(env.enc(WireTreeNode([], DIR))))
  {
    assert UniformLinks(WireTreeNode([], DIR).l);
  }

  method BuildDirectoryTree(env: Env, entries: seq<DirEntry>)
    returns (nodes: seq<(Bytes, Hash)>, root: Hash)
    ensures nodes == Blobs(BuiltLevel(env, NodeList(SortByName(entries))))
    ensures root == HashOf(env, TreeOf(SortByName(entries)))
    ensures forall i :: 0 <= i < |nodes| ==> IsNodeBlob(env, nodes[i].0, nodes[i].1)
    ensures nodes != [] && root == nodes[|nodes| - 1].1
  {
    hide SortByName, LeafLevel, ParentLevel, BuiltLevel, BuiltOf, HashOf, NodeOf, SizeOf, BytesOf, IsNodeBlob;
    var sorted := SortByName(entries);
    var currentLevel := BuildLeafLevel(env, sorted);
    BuiltLevelAt(env, LeafLevel(sorted));
    if currentLevel == [] {
      assert sorted == [];
      var bytes := env.enc(WireTreeNode([], DIR));
      var hash := env.sha(bytes);
      EmptyTree(env);
      EmptyIsNodeBlob(env);
      return [(bytes, hash)], hash;
    }
    var allNodes := currentLevel;
    ghost var current := LeafLevel(sorted);
    ghost var done := current;
    while |currentLevel| > 1
      invariant current != [] && currentLevel == BuiltLevel(env, current) && |currentLevel| == |current|
      invariant allNodes == BuiltLevel(env, done)
      invariant |allNodes| >= |currentLevel| && allNodes[|allNodes| - |currentLevel|..] == currentLevel
      invariant forall i :: 0 <= i < |allNodes| ==> IsNodeBlob(env, allNodes[i].bytes, allNodes[i].hash)
      invariant NodesFrom(LeafLevel(sorted)) ==
        if |current| == 1 then done else done + NodesFrom(ParentLevel(current))
      invariant RootFrom(LeafLevel(sorted)) == RootFrom(current)
      decreases |currentLevel|
    {
      currentLevel := BuildParentLevel(env, currentLevel, current);
      current := ParentLevel(current);
      BuiltLevelAt(env, current);
      BuiltLevelAppend(env, done, current);
      allNodes := allNodes + currentLevel;
      if |current| > 1 {
        assert done + NodesFrom(current) == (done + current) + NodesFrom(ParentLevel(current));
      }
      done := done + current;
    }
    BuiltLevelAt(env, current);
    root := currentLevel[0].hash;
    nodes := Blobs(allNodes);
  }

  /** Up to 174 entries the tree is one leaf. */
  lemma SmallTree(sorted: seq<DirEntry>)
    requires |sorted| <= MAX_LINKS
    ensures TreeOf(sorted) == Leaf(sorted) && NodeList(sorted) == [Leaf(sorted)]
  {
    if sorted != [] {
      assert CeilDiv(|sorted|, MAX_LINKS) == 1;
      assert sorted[0..|sorted|] == sorted;
      assert LeafLevel(sorted) == [Leaf(sorted)];
    }
  }

  lemma {:induction false} SortLength(es: seq<DirEntry>)
    ensures |SortByName(es)| == |es|
  {
    StableSort(es);
    assert |multiset(SortByName(es))| == |multiset(es)|;
  }

  /** A single node over all the entries, without chunking. Where one node is enough it is
      the only node, and the root, that `BuildDirectoryTree` makes. */
  method BuildDirectoryNode(env: Env, entries: seq<DirEntry>) returns (bytes: Bytes, hash: Hash)
    ensures bytes == BytesOf(env, Leaf(SortByName(entries))) && hash == HashOf(env, Leaf(SortByName(entries)))
    ensures |entries| <= MAX_LINKS ==>
      && [(bytes, hash)] == Blobs(BuiltLevel(env, NodeList(SortByName(entries))))
      && hash == HashOf(env, TreeOf(SortByName(entries)))
  {
    var sorted := SortByName(entries);
    var wire := WireTreeNode(seq(|sorted|, j requires 0 <= j < |sorted| => BlobLink(sorted[j])), DIR);
    bytes := env.enc(wire);
    hash := env.sha(bytes);
    SortLength(entries);
    if |entries| <= MAX_LINKS {
      hide SortByName, NodeList, TreeOf;
      SmallTree(sorted);
    }
  }
}
