/** Hash-verified fetching (src/blossom_fetch.rs) and the recursive flattening of a
    tree (src/tree_reader.rs), against servers that may answer anything. */
module TreeReader {
  import opened Base
  import opened Sorting
  import opened HashTree
  import opened TreeLaws

  /** One server's answer to one GET: no usable answer (connection error or error
      status), a success whose body cannot be read, or a success with a body. */
  datatype Answer = NoAnswer | BrokenBody | Body(bytes: Bytes)

  datatype ReadError = NotFound | BodyError | Undecodable | BadHashLength | TooDeep

  /** The servers' answers, in server order, to the k-th fetch when it asks for a hash. */
  type Net = (nat, Bytes) -> seq<Answer>

  // ---- fetch ----

  /** The answer that decides a fetch: the first one that is either unreadable or a
      body with the right hash. */
  predicate Decides(env: Env, h: Bytes, a: Answer) {
    a.BrokenBody? || (a.Body? && env.sha(a.bytes) == h)
  }

  function Fetched(env: Env, h: Bytes, answers: seq<Answer>): Result<Bytes, ReadError> {
    if answers == [] then Err(NotFound)
    else if !Decides(env, h, answers[0]) then Fetched(env, h, answers[1..])
    else if answers[0].BrokenBody? then Err(BodyError)
    else Ok(answers[0].bytes)
  }

  method Fetch(env: Env, h: Bytes, answers: seq<Answer>) returns (r: Result<Bytes, ReadError>)
    ensures r == Fetched(env, h, answers)
  {
    for i := 0 to |answers|
      invariant Fetched(env, h, answers) == Fetched(env, h, answers[i..])
    {
      match answers[i]
      case Body(bytes) =>
        if env.sha(bytes) != h {
          continue;
        }
        return Ok(bytes);
      case BrokenBody =>
        return Err(BodyError);
      case NoAnswer =>
    }
    r := Err(NotFound);
  }

  /** The i-th server sends the right body, and no server before it an unreadable one. */
  ghost predicate SentBy(env: Env, h: Bytes, answers: seq<Answer>, i: nat) {
    && i < |answers| && answers[i].Body? && env.sha(answers[i].bytes) == h
    && forall j :: 0 <= j < i ==> !answers[j].BrokenBody?
  }

  /** A fetch succeeds exactly when some server sends the right body and no server
      before it sends a body that cannot be read; the body it returns has the hash. It
      fails on an unreadable body, or finds nothing when there is neither. */
  lemma {:induction false} FetchExact(env: Env, h: Bytes, answers: seq<Answer>)
    ensures Fetched(env, h, answers).Ok? <==> exists i: nat :: SentBy(env, h, answers, i)
    ensures Fetched(env, h, answers).Ok? ==>
      Body(Fetched(env, h, answers).value) in answers && env.sha(Fetched(env, h, answers).value) == h
    ensures Fetched(env, h, answers).Err? ==>
      Fetched(env, h, answers).error == if BrokenBody in answers then BodyError else NotFound
  {
    if answers != [] && !Decides(env, h, answers[0]) {
      var rest := answers[1..];
      FetchExact(env, h, rest);
      if i: nat :| SentBy(env, h, answers, i) {
        assert rest[i - 1] == answers[i];
        assert SentBy(env, h, rest, i - 1);
      }
      if i: nat :| SentBy(env, h, rest, i) {
        assert answers[i + 1] == rest[i];
        assert forall j :: 0 < j < i + 1 ==> answers[j] == rest[j - 1];
        assert SentBy(env, h, answers, i + 1);
      }
      assert answers == [answers[0]] + rest;
    } else if answers != [] && answers[0].Body? {
      assert SentBy(env, h, answers, 0);
    }
  }

  // ---- flatten ----

  /** What flattening node `h` gives, and how many fetches have been made after it. The
      source has no bound on depth; `fuel` is one. */
  function Flattened(env: Env, net: Net, fuel: nat, h: Bytes, k: nat): (Result<seq<DirEntry>, ReadError>, nat)
    decreases fuel, 1, 0
  {
    if fuel == 0 then (Err(TooDeep), k) else
      match Fetched(env, h, net(k, h))
      case Err(e) => (Err(e), k + 1)
      case Ok(bytes) =>
        match env.dec(bytes)
        case None => (Err(Undecodable), k + 1)
        case Some(node) => FlattenedLinks(env, net, fuel, node.l, k + 1, [])
  }

  /** The entries under a list of links, after `acc`. */
  function FlattenedLinks(env: Env, net: Net, fuel: nat, links: seq<WireLink>, k: nat, acc: seq<DirEntry>)
    : (Result<seq<DirEntry>, ReadError>, nat)
    requires fuel > 0
    decreases fuel, 0, |links|
  {
    if links == [] then (Ok(acc), k) else
      var link := links[0];
      if link.t == BLOB then
        if |link.h| != 32 then (Err(BadHashLength), k)
        else FlattenedLinks(env, net, fuel, links[1..], k, acc + [EntryOfLink(link)])
      else if link.t == DIR then
        var (child, k') := Flattened(env, net, fuel - 1, link.h, k);
        match child
        case Err(e) => (Err(e), k')
        case Ok(es) => FlattenedLinks(env, net, fuel, links[1..], k', acc + es)
      else
        FlattenedLinks(env, net, fuel, links[1..], k, acc)
  }

  function EntryOfLink(link: WireLink): DirEntry
    requires |link.h| == 32
  {
    DirEntry(if link.n.Some? then link.n.value else [], link.h, link.s)
  }

  method FlattenNode(env: Env, net: Net, fuel: nat, h: Bytes, k: nat)
    returns (r: Result<seq<DirEntry>, ReadError>, fetches: nat)
    ensures (r, fetches) == Flattened(env, net, fuel, h, k)
    decreases fuel
  {
    if fuel == 0 {
      return Err(TooDeep), k;
    }
    var fetched := Fetch(env, h, net(k, h));
    fetches := k + 1;
    if fetched.Err? {
      return Err(fetched.error), fetches;
    }
    var decoded := env.dec(fetched.value);
    if decoded.None? {
      return Err(Undecodable), fetches;
    }
    var links := decoded.value.l;
    var entries := [];
    for i := 0 to |links|
      invariant FlattenedLinks(env, net, fuel, links, k + 1, []) ==
        FlattenedLinks(env, net, fuel, links[i..], fetches, entries)
    {
      var link := links[i];
      assert links[i..][1..] == links[i + 1..];
      if link.t == BLOB {
        if |link.h| != 32 {
          return Err(BadHashLength), fetches;
        }
        entries := entries + [EntryOfLink(link)];
      } else if link.t == DIR {
        var child;
        child, fetches := FlattenNode(env, net, fuel - 1, link.h, fetches);
        if child.Err? {
          return Err(child.error), fetches;
        }
        entries := entries + child.value;
      }
    }
    r := Ok(entries);
  }

  /** The entries a node lists itself: its type 0 links, in order, the name empty when there
      is none. */
  function Listed(links: seq<WireLink>): seq<DirEntry>
    requires forall i :: 0 <= i < |links| && links[i].t == 0 ==> |links[i].h| == 32
  {
    if links == [] then [] else
      var rest := Listed(links[1..]);
      if links[0].t != 0 then rest else
        [DirEntry(if links[0].n.Some? then links[0].n.value else [], links[0].h, links[0].s)] + rest
  }

  /** Any node without links of type 2, whoever made it: its type 0 links are read in order,
      links of unknown types are passed over, and a hash of a wrong length is refused. */
  lemma {:induction false} ForeignLeaf(env: Env, net: Net, fuel: nat, links: seq<WireLink>, k: nat, acc: seq<DirEntry>)
    requires fuel > 0 && forall i :: 0 <= i < |links| ==> links[i].t != 2
    ensures FlattenedLinks(env, net, fuel, links, k, acc) ==
      if forall i :: 0 <= i < |links| && links[i].t == 0 ==> |links[i].h| == 32 then (Ok(acc + Listed(links)), k)
      else (Err(BadHashLength), k)
    decreases |links|
  {
    if links == [] {
      assert acc + Listed(links) == acc;
    } else {
      var rest := links[1..];
      var acc' := if links[0].t == 0 && |links[0].h| == 32 then acc + [EntryOfLink(links[0])] else acc;
      ForeignLeaf(env, net, fuel, rest, k, acc');
      assert forall i :: 0 < i < |links| ==> links[i] == rest[i - 1];
      if forall i :: 0 <= i < |links| && links[i].t == 0 ==> |links[i].h| == 32 {
        assert forall i :: 0 <= i < |rest| && rest[i].t == 0 ==> |rest[i].h| == 32;
        assert acc' + Listed(rest) == acc + Listed(links);
      } else if links[0].t != 0 || |links[0].h| == 32 {
        var i :| 0 <= i < |links| && links[i].t == 0 && |links[i].h| != 32;
        assert rest[i - 1] == links[i];
      }
    }
  }

  // ---- integrity ----

  /** No body a server ever sends is a second preimage of a node of the tree. */
  ghost predicate NoForgery(env: Env, net: Net, t: Tree) {
    forall x, k, h, b :: Within(x, t) && Body(b) in net(k, h) && env.sha(b) == HashOf(env, x) ==> b == BytesOf(env, x)
  }

  lemma ForgeryBelow(env: Env, net: Net, t: Tree, i: nat)
    requires NoForgery(env, net, t) && t.Dir? && i < |t.kids|
    ensures NoForgery(env, net, t.kids[i])
  {
    assert forall x :: Within(x, t.kids[i]) ==> Within(x, t);
  }

  /** Whatever the servers answer, a fetch of a node's hash that succeeds yields that node. */
  lemma FetchedNode(env: Env, net: Net, t: Tree, k: nat)
    requires Lossless(env) && Proper(t) && NoForgery(env, net, t)
    requires Fetched(env, HashOf(env, t), net(k, HashOf(env, t))).Ok?
    ensures env.dec(Fetched(env, HashOf(env, t), net(k, HashOf(env, t))).value) == Some(NodeOf(env, t))
  {
    hide Lossless;
    var h := HashOf(env, t);
    FetchExact(env, h, net(k, h));
    assert Within(t, t);
    DecodesBack(env, t);
  }

  lemma DecodesBack(env: Env, t: Tree)
    requires Lossless(env) && Proper(t)
    ensures env.dec(BytesOf(env, t)) == Some(NodeOf(env, t))
  {
    assert |NodeOf(env, t).l| < LEN32;
  }

  /** Reading leaf links gives the entries they were made from. */
  lemma {:induction false} BlobLinksRead(env: Env, net: Net, fuel: nat, es: seq<DirEntry>, i: nat, k: nat)
    requires fuel > 0 && i <= |es|
    ensures FlattenedLinks(env, net, fuel, NodeOf(env, Leaf(es)).l[i..], k, es[..i]) == (Ok(es), k)
    decreases |es| - i
  {
    var links := NodeOf(env, Leaf(es)).l;
    if i == |es| {
      assert es[..i] == es;
    } else {
      BlobLinksRead(env, net, fuel, es, i + 1, k);
      assert links[i..][1..] == links[i + 1..];
      assert EntryOfLink(links[i]) == es[i];
      assert es[..i + 1] == es[..i] + [es[i]];
    }
  }

  /** Integrity: against servers answering anything, a successful flatten of a built
      tree's hash returns exactly the tree's entries. */
  lemma {:induction false} FlattenIntegrity(env: Env, net: Net, fuel: nat, t: Tree, k: nat)
    requires Lossless(env) && Proper(t) && NoForgery(env, net, t)
    requires Flattened(env, net, fuel, HashOf(env, t), k).0.Ok?
    ensures Flattened(env, net, fuel, HashOf(env, t), k).0.value == Entries(t)
    decreases t, 1, 0
  {
    hide NoForgery, Lossless;
    FetchedNode(env, net, t, k);
    match t
    case Leaf(es) =>
      var links := NodeOf(env, t).l;
      BlobLinksRead(env, net, fuel, es, 0, k + 1);
      assert links[0..] == links && es[..0] == [];
    case Dir(kids) =>
      var links := NodeOf(env, t).l;
      assert links[0..] == links && kids[..0] == [];
      DirLinksIntegrity(env, net, fuel, t, 0, k + 1);
  }

  lemma {:induction false} DirLinksIntegrity(env: Env, net: Net, fuel: nat, t: Tree, i: nat, k: nat)
    requires Lossless(env) && Proper(t) && NoForgery(env, net, t)
    requires fuel > 0 && t.Dir? && i <= |t.kids|
    ensures
      var r := FlattenedLinks(env, net, fuel, NodeOf(env, t).l[i..], k, EntriesOfAll(t.kids[..i])).0;
      r.Ok? ==> r.value == Entries(t)
    decreases t, 0, |t.kids| - i
  {
    hide NoForgery, Lossless, HashOf;
    var links := NodeOf(env, t).l;
    if i == |t.kids| {
      assert t.kids[..i] == t.kids;
    } else {
      assert links[i..][1..] == links[i + 1..];
      assert links[i] == DirLink(env, t.kids[i]);
      var child := Flattened(env, net, fuel - 1, HashOf(env, t.kids[i]), k);
      if child.0.Ok? {
        ForgeryBelow(env, net, t, i);
        FlattenIntegrity(env, net, fuel - 1, t.kids[i], k);
        assert t.kids[..i + 1][..i] == t.kids[..i];
        DirLinksIntegrity(env, net, fuel, t, i + 1, child.1);
      }
    }
  }

  /** Two successful reads of one root agree, over any two sets of answers. */
  lemma ReadsAgree(env: Env, net: Net, net': Net, fuel: nat, fuel': nat, t: Tree)
    requires Lossless(env) && Proper(t) && NoForgery(env, net, t) && NoForgery(env, net', t)
    requires Flattened(env, net, fuel, HashOf(env, t), 0).0.Ok?
    requires Flattened(env, net', fuel', HashOf(env, t), 0).0.Ok?
    ensures Flattened(env, net, fuel, HashOf(env, t), 0).0 == Flattened(env, net', fuel', HashOf(env, t), 0).0
  {
    FlattenIntegrity(env, net, fuel, t, 0);
    FlattenIntegrity(env, net', fuel', t, 0);
  }

  // ---- round trip ----

  function Height(t: Tree): (h: nat) {
    match t
    case Leaf(_) => 1
    case Dir(kids) => 1 + MaxHeight(kids)
  }

  function MaxHeight(ts: seq<Tree>): nat {
    if ts == [] then 0 else
      var h, rest := Height(ts[0]), MaxHeight(ts[1..]);
      if h >= rest then h else rest
  }

  lemma {:induction false} KidHeight(ts: seq<Tree>, i: nat)
    requires i < |ts|
    ensures Height(ts[i]) <= MaxHeight(ts)
  {
    if i > 0 {
      KidHeight(ts[1..], i - 1);
    }
  }

  /** Every fetch of a node's hash is answered with that node. */
  ghost predicate Serves(env: Env, net: Net, t: Tree) {
    forall x, k :: Within(x, t) ==> Fetched(env, HashOf(env, x), net(k, HashOf(env, x))) == Ok(BytesOf(env, x))
  }

  lemma ServesBelow(env: Env, net: Net, t: Tree, i: nat)
    requires Serves(env, net, t) && t.Dir? && i < |t.kids|
    ensures Serves(env, net, t.kids[i])
  {
    assert forall x :: Within(x, t.kids[i]) ==> Within(x, t);
  }

  /** With every node served, flattening succeeds and gives the tree's entries. */
  lemma {:induction false} FlattenServed(env: Env, net: Net, fuel: nat, t: Tree, k: nat)
    requires Lossless(env) && Proper(t) && Serves(env, net, t) && fuel >= Height(t)
    ensures Flattened(env, net, fuel, HashOf(env, t), k).0 == Ok(Entries(t))
    decreases t, 1, 0
  {
    assert Within(t, t);
    assert Fetched(env, HashOf(env, t), net(k, HashOf(env, t))) == Ok(BytesOf(env, t));
    hide Serves, Lossless;
    DecodesBack(env, t);
    var links := NodeOf(env, t).l;
    assert links[0..] == links;
    match t
    case Leaf(es) =>
      BlobLinksRead(env, net, fuel, es, 0, k + 1);
      assert es[..0] == [];
    case Dir(kids) =>
      assert kids[..0] == [];
      DirLinksServed(env, net, fuel, t, 0, k + 1);
  }

  lemma {:induction false} DirLinksServed(env: Env, net: Net, fuel: nat, t: Tree, i: nat, k: nat)
    requires Lossless(env) && Proper(t) && Serves(env, net, t)
    requires t.Dir? && fuel >= Height(t) && i <= |t.kids|
    ensures FlattenedLinks(env, net, fuel, NodeOf(env, t).l[i..], k, EntriesOfAll(t.kids[..i])).0 == Ok(Entries(t))
    decreases t, 0, |t.kids| - i
  {
    hide Serves, Lossless, HashOf;
    var links := NodeOf(env, t).l;
    if i == |t.kids| {
      assert t.kids[..i] == t.kids;
    } else {
      assert links[i..][1..] == links[i + 1..];
      assert links[i] == DirLink(env, t.kids[i]);
      ServesBelow(env, net, t, i);
      KidHeight(t.kids, i);
      FlattenServed(env, net, fuel - 1, t.kids[i], k);
      assert t.kids[..i + 1][..i] == t.kids[..i];
      DirLinksServed(env, net, fuel, t, i + 1, Flattened(env, net, fuel - 1, HashOf(env, t.kids[i]), k).1);
    }
  }

  /** A single unchunked node reads back as its entries too, however many links it has. */
  lemma SingleNodeReads(env: Env, net: Net, fuel: nat, es: seq<DirEntry>, k: nat)
    requires Lossless(env) && |es| < LEN32 && fuel > 0
    requires Fetched(env, HashOf(env, Leaf(es)), net(k, HashOf(env, Leaf(es)))) == Ok(BytesOf(env, Leaf(es)))
    ensures Flattened(env, net, fuel, HashOf(env, Leaf(es)), k) == (Ok(es), k + 1)
  {
    var links := NodeOf(env, Leaf(es)).l;
    assert |NodeOf(env, Leaf(es)).l| < LEN32;
    assert env.dec(BytesOf(env, Leaf(es))) == Some(NodeOf(env, Leaf(es)));
    hide Lossless;
    assert links[0..] == links && es[..0] == [];
    BlobLinksRead(env, net, fuel, es, 0, k + 1);
  }

  /** One honest server holding a content-addressed store. */
  function StoreNet(store: map<Bytes, Bytes>): Net {
    (k: nat, h: Bytes) => if h in store then [Body(store[h])] else [NoAnswer]
  }

  /** Round trip: flattening the built root from a store holding the uploaded nodes
      gives exactly the name-sorted entries, for every list of entries. */
  lemma RoundTrip(env: Env, entries: seq<DirEntry>, store: map<Bytes, Bytes>, fuel: nat)
    requires Lossless(env)
    requires fuel >= Height(TreeOf(SortByName(entries)))
    requires
      var nodes := Blobs(BuiltLevel(env, NodeList(SortByName(entries))));
      forall i :: 0 <= i < |nodes| ==> nodes[i].1 in store && store[nodes[i].1] == nodes[i].0
    ensures Flattened(env, StoreNet(store), fuel, HashOf(env, TreeOf(SortByName(entries))), 0).0
      == Ok(SortByName(entries))
  {
    hide SortByName, Lossless;
    var sorted := SortByName(entries);
    var t := TreeOf(sorted);
    var list := NodeList(sorted);
    var nodes := Blobs(BuiltLevel(env, list));
    forall x, k: nat | Within(x, t)
      ensures Fetched(env, HashOf(env, x), StoreNet(store)(k, HashOf(env, x))) == Ok(BytesOf(env, x))
    {
      NodeListComplete(sorted, x);
      var i :| 0 <= i < |list| && list[i] == x;
      assert nodes[i] == (BytesOf(env, x), HashOf(env, x));
    }
    TreeProper(sorted);
    FlattenServed(env, StoreNet(store), fuel, t, 0);
    TreeHoldsEntries(sorted);
  }
}
