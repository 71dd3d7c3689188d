# A verified model of the narwal publish pipeline

narwal publishes Nix store paths as a binary cache on Blossom servers. One run reads the
previous cache, resolves the closure of the requested paths, builds and uploads what is
new, rebuilds a chunked Merkle tree over all entries, and then announces the tree's root
in a Nostr event. Uploads and events may be signed by a remote signer (NIP-46). This
project models that pipeline in Dafny and proves what it keeps over every run.

## Parts

| files | what they model |
|---|---|
| `Closure.dfy`, `ClosureLaws.dfy`, `Graphs.dfy`, `PostOrders.dfy`, `CyclicStore.dfy` | reference closure by a worklist, its depth-first order, what a resolved list is in terms of the inputs and the store alone, and the stores where the order is not the documented one |
| `Sorting.dfy`, `HashTree.dfy`, `TreeLaws.dfy`, `Levels.dfy` | the tree builder: order of entries, nodes, sizes, identity, number of levels |
| `TreeReader.dfy` | hash-checked fetching and recursive flattening, against servers that answer anything |
| `MsgPack.dfy`, `Nhash.dfy` | the bytes of a node and of a root identifier, with their decoders |
| `Blossom.dfy` | the upload token cache and the replication loop |
| `PublishSpec.dfy`, `Publish.dfy` | one run as a relation on the world, and the imperative pipeline that keeps to it |
| `PublishLaws.dfy`, `PublishUploads.dfy`, `PublishRuns.dfy`, `PublishNarinfos.dfy`, `PublishSeries.dfy`, `DroppedServers.dfy` | what every sequence of runs keeps, uploads and writes down about each path, and where that stops |
| `Signer.dfy`, `SignerReplies.dfy`, `SignerRuns.dfy`, `SignerObject.dfy` | the remote signer protocol as a state machine over all interleavings, what each call sends and returns, and the object, with its one-shot channels, whose methods take its steps |
| `Pairing.dfy` | the pairing URI and its parser, and the wait for the signer |

The main results, each for all inputs, runs or interleavings:

- every announced tree is reference-closed and nothing published is later lost or altered
  (`PublishLaws.RunKeepsInv`, `PublishRuns.EveryStateKeepsInv`);
- an announced root resolves completely from the servers it advertises if and only if
  everything carried over is on those servers before the run or is made again by it, which
  can be checked before the run (`PublishRuns.AvailableExactly`,
  `PublishRuns.AvailableIffOnServers`); keeping the old servers is enough
  (`PublishRuns.EveryRootAvailable`) and dropping them can break it
  (`DroppedServers.DroppingServersLosesEntries`);
- whatever a run uploads is a prefix of a sequence that its configuration, the store and the
  old tree determine (`PublishUploads.UploadsUnique`);
- in every state, also after runs that aborted half way, every blob on a server came from
  outside or was uploaded by a run, and then it is the cache info, a NAR, a narinfo whose NAR
  is on that run's servers, or a node of that run's tree with all below it on those servers,
  down to the blobs of its entries, except for entries carried over from the tree before
  (`PublishRuns.EveryBlobExplained`, `PublishRuns.NoDanglingLinks`);
- an available root reads back as exactly the entries published
  (`PublishRuns.AvailableReadsBack`), and no read of it returns anything else unless a
  server forges a node (`TreeReader.FlattenIntegrity`);
- every input, and all it needs, has its entry in the announced tree, and the narinfo behind
  a new entry carries what the path's own scan found, which is what its NAR still is, and is
  signed over the fingerprint of the same narinfo unsigned
  (`PublishNarinfos.EveryInputAnnounced`, `PublishNarinfos.AnnouncedNarinfo`);
- `Resolve` returns the exact closure, succeeds exactly when it can, and returns it
  dependencies first if and only if the inputs' part of the store has no reference cycle
  (`Closure.Resolve`, `Closure.ResolvedOrderExactly`);
- equal roots mean equal contents, and hash map order cannot change a root
  (`TreeLaws.RootBinds`, `TreeLaws.CanonicalTree`);
- signer replies reach only their own requests, and nothing that needs the handshake is
  sent before a connect was sent and its acknowledgement taken (`Signer.Correlation`,
  `SignerRuns.HandshakeIsReal`); from every reachable state a new call can complete, and it
  returns exactly what its response carries (`SignerReplies.CallCompletes`,
  `SignerReplies.SignReply`).

## Conventions

Rust strings are their UTF-8 bytes. Outcomes decided elsewhere (replies, clocks, which
task runs next) are free choices, so a contract holds of every one. Library code is passed
in as function values, with the assumption it needs stated where it is used: the node
codec is lossless (proved of the concrete format in `MsgPack.CodecIsLossless`), bech32 is
lossless on short payloads, and no two of the finitely many nodes in play collide under
SHA-256. The hash is never assumed injective. A history starts when nothing has been
announced, with servers that may hold anything, and between runs others may store any blobs
on them. `DroppedServers` builds a concrete history of
two announcing runs, so the hypotheses of the theorems about runs can be met.

## Where the code and its description differ

- The comment at `src/closure.rs:121` says breadth-first; the worklist is a stack.
- `src/closure.rs:66` and `175` promise dependencies first. That holds if and only if no
  path of the inputs' closure lies on a reference cycle (`Closure.ResolvedOrderExactly`); on
  two store paths that refer to each other `resolve` succeeds and no list it can return is in
  that order (`CyclicStore.CycleHasNoOrder`).
- `nix-cache-info` is pushed beside the copy read from the old tree (`src/lib.rs:321-326`),
  so the second and every later tree holds it exactly twice (`PublishLaws.NewManifestShaped`).
- `src/lib.rs:354` says the event is published only after all blobs are uploaded. Blobs of
  entries carried over are not uploaded by the run (`src/lib.rs:189-194`), so the event can
  advertise servers that lack them (`DroppedServers.DroppingServersLosesEntries`).
- `src/nip46/signer.rs:349-351` says `refresh_relays` returns the signer's relay list. The
  `result` of a response is optional text (line 449), so the list arm at 373-380 is never
  taken: the answer is "nothing to change" when there is no result, refusals included, and
  an error otherwise (`Signer.RefreshLearnsNothing`).

## Model

| member | source | states |
|---|---|---|
| `Closure.HashPart` | src/closure.rs:49-52 | the text before the first dash, or all of it: a dash-free prefix followed by a dash unless it is everything |
| `Closure.CandidatesOf` | src/closure.rs:45-60 | the candidates are exactly the listed names with a dash after 32 bytes, each with its own hashpart |
| `Closure.ReadStoreCandidates` | src/closure.rs:43-62 | succeeds exactly when no directory entry is unreadable, with the candidates of the listing |
| `ClosureLaws.CandidatesAppend` | src/closure.rs:44-60 | names are taken one by one, in the order of the listing |
| `Closure.IndexOf` | src/closure.rs:82-86 | every indexed hashpart points to a candidate that has it |
| `Closure.IndexOfFinds` | src/closure.rs:82-86 | every candidate's hashpart is indexed, and a later duplicate wins |
| `Closure.RefsOf` | src/closure.rs:143-148 | references are exactly the matched hashparts other than the path's own |
| `ClosureLaws.RefsInOrder` | src/closure.rs:143-148 | references follow the scan's matches in order and multiplicity |
| `ClosureLaws.RefsOfOne` | src/closure.rs:143-148 | a match is one reference, unless it is the path itself |
| `Closure.RefsAreIndexed` | src/closure.rs:132 | looking up the index of a reference never misses |
| `Closure.StoreGraphClosed` | src/closure.rs:132-148 | references never leave the store's own hashparts |
| `Closure.FrontierVisit` | src/closure.rs:130-155 | visiting a path keeps: all seen is reachable, and what a visited path refers to is visited or on the list |
| `Closure.FrontierDone` | src/closure.rs:126-166 | when the list is empty the visited set is the set reachable from the inputs |
| `Closure.PushUnvisited` | src/closure.rs:150-155 | pushes only unvisited references, and all of them |
| `Closure.CloseOver` | src/closure.rs:121-166 | succeeds if and only if every reachable path scans; the result is exactly the reachable set with each path's own scan, each scanned once; on failure it names a reachable path whose scan fails |
| `Closure.MapInputs` | src/closure.rs:97-119 | succeeds exactly when every input has a file name whose hashpart is in the store, and then returns the hashpart of each input in order; otherwise an input has no name, or the first missing input's hashpart is reported |
| `Closure.PlaceNode` | src/closure.rs:201-206 | placing a node after its references keeps: an edge to something not yet placed means that node leads back |
| `Closure.TopoSorter.Dfs` | src/closure.rs:185-210 | one recursive visit is one visit of the specified search; it leaves the stack of open nodes as it was, only adds to the order, and only visits what the node reaches |
| `Closure.OrderComplete` | src/closure.rs:212-216 | once every root is visited and nothing is open, the order is complete and has no duplicates |
| `PostOrders.PostOrderOfPart` | src/closure.rs:185-215 | the depth-first post-order from some roots only depends on the part of the graph they reach |
| `PostOrders.PostOrderPrefix` | src/closure.rs:212-216 | roots are taken in order: the order for the first roots begins the order for all |
| `PostOrders.SuccessorsFirst` | src/closure.rs:199-206 | a path on no cycle comes right after the post-order of its references, taken in their own order |
| `Closure.TopoSort` | src/closure.rs:176-217 | returns the specified depth-first post-order, which on any graph, cyclic or not, has every reachable node exactly once and an edge to a later node only if that node leads back |
| `Closure.AcyclicOrder` | src/closure.rs:175-217 | when nothing reachable is on a cycle every dependency precedes all its dependents, for any roots and reference order |
| `Closure.WalkDescends` | src/closure.rs:175-217 | when dependencies come first, no walk climbs back up the order |
| `Closure.TopologicalExactly` | src/closure.rs:175-217 | the order is dependencies-first if and only if no node reachable from the roots is on a cycle |
| `Closure.ResolvedOrderExactly` | src/closure.rs:66-173 | a resolved list is in the documented order if and only if the store has no reference cycle among the paths reachable from the inputs |
| `CyclicStore.MutualGraph` | src/closure.rs:137-148 | a store of two paths whose scans match each other: its reference graph is that cycle and every scan succeeds |
| `CyclicStore.CycleHasNoOrder` | src/closure.rs:66-173 | `resolve` succeeds on it, and no list it can return is in the documented order |
| `Closure.ClosureOrderIsStoreOrder` | src/closure.rs:169 | ordering the collected closure orders the store's reachable part |
| `Closure.Resolve` | src/closure.rs:71-173 | succeeds exactly when readable, all inputs known and all reachable paths scan; returns the exact closure in post-order; scans each path once; fails with the error that applies, in the source's order of checks |
| `ClosureLaws.ResolvableExactly` | src/closure.rs:71-160 | it succeeds if and only if there are no inputs, or the listing and the pattern are fine, every input is in the store, and every path needed by any of them scans |
| `ClosureLaws.ListedExactly` | src/closure.rs:71-173 | a path is in the list if and only if its hashpart is in the store and reachable from some input |
| `ClosureLaws.EveryInputListed` | src/closure.rs:97-123 | so every input is in the list |
| `ClosureLaws.InputOrder` | src/closure.rs:212-216 | inputs are taken in order: the list for the first inputs alone begins the list for all |
| `ClosureLaws.ListedIsScanned` | src/closure.rs:132-165 | each entry is a listed store path with the hash, size and references of its own scan |
| `Closure.ResolvedUnique` | src/closure.rs:71-173 | inputs and store determine the list returned, whatever the order of the hash maps |
| `Graphs.ReachableAlone` | src/closure.rs:121-169 | the reachable part taken alone has the same reachability, so sorting the closure map loses nothing |
| `Sorting.LexByFirstDifference` | src/manifest.rs:72-73 | a name is before another when it begins it or has the smaller byte where they first differ |
| `Sorting.LexTotal` | src/manifest.rs:72-73 | byte order compares any two names |
| `Sorting.LexAntisymmetric` | src/manifest.rs:72-73 | names that compare equal are equal |
| `Sorting.LexTransitive` | src/manifest.rs:72-73 | byte order is transitive |
| `Sorting.StableSort` | src/manifest.rs:72-73 | sorted, a permutation, and entries of one name keep their order |
| `Sorting.SortUnique` | src/manifest.rs:72-73 | those properties leave only one possible result |
| `Sorting.SortCanonical` | src/manifest.rs:72-73 | the result depends only on the entries of each name |
| `Sorting.SortSorted` | src/manifest.rs:72-73 | sorting a sorted list changes nothing |
| `HashTree.BuildLeafLevel` | src/manifest.rs:76-98 | the leaf level: one encoded, hashed and summed node per chunk of entries, each a directory node (type 2) of named links of type 0 |
| `HashTree.BuildParentLevel` | src/manifest.rs:115-140 | one directory node (type 2) per chunk of the level below, linking to its hashes and sizes by unnamed links of type 2 |
| `HashTree.EmptyTree` | src/manifest.rs:100-109 | no entries: one node without links |
| `HashTree.BuildDirectoryTree` | src/manifest.rs:71-148 | returns the blobs of every node of the specified tree, lower levels first, and its root hash, which is the last blob's; every blob encodes a node of type 2 whose links are all named of type 0 or all unnamed of type 2 |
| `HashTree.SmallTree` | src/manifest.rs:63 | up to 174 entries the tree is one leaf |
| `HashTree.BuildDirectoryNode` | src/manifest.rs:150-173 | up to 174 entries it makes the only node, and the root, of `BuildDirectoryTree` |
| `TreeReader.SingleNodeReads` | src/manifest.rs:150-173 | its node, however many links it has, flattens back to the entries |
| `TreeLaws.TreeHoldsEntries` | src/manifest.rs:71-148 | the leaves, left to right, are exactly the sorted entries |
| `TreeLaws.TreeProper` | src/manifest.rs:62-66 | no node has more than 174 links, and inner nodes are never empty |
| `TreeLaws.NodeLinks` | src/manifest.rs:22-23 | every node of a non-empty tree has 1 to 174 links |
| `TreeLaws.NodeOnWire` | src/manifest.rs:78-137 | each uploaded blob decodes to a node of type 2 with its entries in order (type 0, name, hash, size) or its children in order (type 2, no name, hash of the child's blob, size) |
| `TreeLaws.LevelsFull` | src/manifest.rs:77-116 | all nodes of a level but the last have exactly 174 links |
| `TreeLaws.NodeListChildrenFirst` | src/manifest.rs:68-70 | children come before parents, so every upload prefix is closed under directory links; the root is last |
| `TreeLaws.NodeListComplete` | src/manifest.rs:68-70 | every node below the root is in the upload list |
| `TreeLaws.BelowIsEarlier` | src/manifest.rs:68-70 | everything below a listed node, at any depth, is listed before it |
| `TreeLaws.ListedEntries` | src/manifest.rs:76-141 | listed nodes hold no entries but those the tree was built from |
| `TreeLaws.SizeConserved` | src/manifest.rs:78-137 | a node's size is the total of the entries below it, modulo 2^64 |
| `TreeLaws.LinkSize` | src/manifest.rs:117-127 | a directory link's `s` is the total below it, modulo 2^64 |
| `TreeLaws.LinkSizeExact` | src/manifest.rs:117-127 | and exactly that total when the node's own total fits in 64 bits |
| `TreeLaws.LevelSizeConserved` | src/manifest.rs:117-137 | so is the sum over a whole level |
| `TreeLaws.LevelTotals` | src/manifest.rs:78-137 | when the total fits in 64 bits every level adds up to it exactly |
| `TreeLaws.HashBinds` | src/manifest.rs:91-92 | equal node hashes mean equal trees, whatever their heights, if no two of their nodes collide |
| `TreeLaws.RootBinds` | src/manifest.rs:71-148 | equal roots mean equal sorted entry lists |
| `TreeLaws.CanonicalTree` | src/lib.rs:308-329 | any iteration order of the entry map builds the same nodes and root |
| `Levels.LevelSize` | src/manifest.rs:77-141 | level k has exactly n / 174^(k+1) nodes, rounded up |
| `Levels.HeightIsLeast` | src/manifest.rs:114-141 | the number of levels is the least h >= 1 with n <= 174^h |
| `Levels.NodeBound` | src/manifest.rs:111-141 | fewer than n/173 + h nodes in all |
| `Levels.ReaderDepth` | src/tree_reader.rs:27-66 | a reader has to recurse exactly as deep as there are levels |
| `TreeReader.Fetch` | src/blossom_fetch.rs:28-69 | implements the specified choice among the servers' answers |
| `TreeReader.FetchExact` | src/blossom_fetch.rs:28-69 | succeeds if and only if a right body comes before any unreadable one; what it returns was sent and has the hash; otherwise it fails on an unreadable body, or finds nothing when there is none |
| `TreeReader.FlattenNode` | src/tree_reader.rs:27-66 | the loop over links computes the recursive specification, errors included |
| `TreeReader.ForeignLeaf` | src/tree_reader.rs:37-63 | any node without links of type 2, whoever made it: its type 0 links in order, nameless ones with an empty name, unknown types passed over, a hash of a wrong length refused |
| `TreeReader.FetchedNode` | src/tree_reader.rs:31-33 | a fetched node hash decodes to that node |
| `TreeReader.FlattenIntegrity` | src/tree_reader.rs:17-66 | whatever servers answer, a successful flatten returns exactly the built entries |
| `TreeReader.ReadsAgree` | src/tree_reader.rs:17-66 | two successful reads of one root agree |
| `TreeReader.FlattenServed` | src/tree_reader.rs:17-66 | with every node served, flattening succeeds with the entries |
| `TreeReader.RoundTrip` | src/tree_reader.rs:3-5 | for every entry list, flattening the built root from a store of the built blobs gives the stable sorted list |
| `MsgPack.BigEndianBack` | src/manifest.rs:24 | multi-byte integers read back |
| `MsgPack.HeadBack` | src/manifest.rs:24 | every header reads back at any width and leaves the rest of the bytes |
| `MsgPack.HeaderBytes` | src/manifest.rs:3-14 | the bytes of every header in its narrowest form |
| `MsgPack.LinkBack` | src/manifest.rs:26-35 | a link reads back, with or without a name |
| `MsgPack.NodeBack` | src/manifest.rs:37-42 | decoding the bytes of any node gives the node |
| `MsgPack.LinkLayout` | src/manifest.rs:26-35 | the bytes of a link: a map of the keys h, n (if any), s and t, in this order |
| `MsgPack.NodeLayout` | src/manifest.rs:37-42 | the bytes of a node: a map of l, an array of the links, and t |
| `MsgPack.CodecIsLossless` | src/manifest.rs:3-14 | the assumption of the tree theorems holds of this format |
| `Nhash.ParseTlv` | src/tree_reader.rs:83-108 | the index loop computes the record-by-record specification |
| `Nhash.ParseRecord` | src/tree_reader.rs:94-105 | one record: returned if it is a hash, skipped otherwise |
| `Nhash.ParseRecords` | src/tree_reader.rs:83-108 | on any serialised records: the first hash record, or an error exactly when there is none |
| `Nhash.ParseExact` | src/tree_reader.rs:83-108 | on arbitrary bytes: accepts exactly complete records up to one of type 0 with 32 bytes; each of the three errors if and only if the data are complete records alone, with a lone byte after them, or with a value that breaks off |
| `Nhash.NhashEncode` | src/nhash.rs:21-29 | encodes one hash record under the nhash prefix |
| `Nhash.ParseNhashUri` | src/tree_reader.rs:71-109 | implements the specified parse, in the source's order of checks |
| `Nhash.UriExact` | src/tree_reader.rs:71-109 | a URI gives a hash if and only if it starts with htree://, decodes under the prefix nhash, and shows that hash; the three refusals before the records |
| `Nhash.NhashBytes` | src/nhash.rs:21-29 | the URI of a hash is htree:// and the bytes 0, 32 and the hash encoded under nhash |
| `Nhash.UriRoundTrip` | src/nhash.rs:21-29 | parsing inverts encoding for every hash |
| `Blossom.BlossomUploader.constructor` | src/blossom.rs:64-71 | starts without a token |
| `Blossom.BlossomUploader.MintToken` | src/blossom.rs:91-112 | the token expires 120 s after a clock reading of this call; it fails exactly when the clock or the signer does |
| `Blossom.BlossomUploader.AuthHeader` | src/blossom.rs:117-128 | the header returned had at least 60 s left when checked; the cached token is kept if and only if it has that much, and else replaced; it fails exactly when the clock or the signer does |
| `Blossom.BlossomUploader.InvalidateToken` | src/blossom.rs:131-135 | drops the token |
| `Blossom.MintsWithin` | src/blossom.rs:91-135 | induction behind the bound below, ending with or without a 401 |
| `Blossom.TokenAmortised` | src/blossom.rs:22-27 | mints <= 1 + T/61 + number of 401s over any run whose mints lie within T seconds |
| `Blossom.SpanAmortised` | src/blossom.rs:22-27 | the same with T the time from the first mint to the last |
| `Blossom.BlossomUploader.CheckExists` | src/blossom.rs:138-148 | true exactly on a success status, which means the server has the blob |
| `Blossom.BlossomUploader.PreflightUpload` | src/blossom.rs:154-207 | true exactly when the server answers anything but 413 |
| `Blossom.BlossomUploader.PutUpload` | src/blossom.rs:209-220 | a success status means the blob is stored; at most this blob appears, only there |
| `Blossom.BlossomUploader.UploadToServer` | src/blossom.rs:226-261 | one PUT, and a second exactly after a 401 and a new token; success exactly when the last reply is a success, which means stored; 413 noted for a 413, 400 for anything else |
| `Blossom.BlossomUploader.Upload` | src/blossom.rs:274-370 | what happened at each server is one of the allowed exchanges: no PUT only when it has the blob, was ruled out by the preflight of a blob over 2 MiB, or no token could be had; the errors are those of the servers that failed, in order, each with its own status; Ok if and only if some server succeeded, and each that did holds the blob; one token drop per server that answered 401 |
| `Blossom.HasKept` | src/blossom.rs:263-273 | uploading never removes what a server list could serve |
| `PublishSpec.NarinfoNameIsNotCacheInfo` | src/lib.rs:187-323 | no narinfo is called nix-cache-info |
| `PublishSpec.FindByHashpart` | src/lib.rs:226-250 | finds a closure path with the hashpart exactly when there is one |
| `Publish.FetchExisting` | src/lib.rs:128-162 | when it succeeds, the map is that of the last announced manifest, unless a server forged a node of it; the URI of a root the cache announced is never refused |
| `Publish.ReadBack` | src/lib.rs:152-160 | the last URI parses to the last root, and a successful flatten gives the last manifest |
| `Publish.MapByName` | src/lib.rs:157-159 | the insertion loop builds the entry map |
| `Publish.Send` | src/lib.rs:286-291 | offers exactly this blob; success means some configured server has it and all offered before, failure that all before are still there; a dry run offers nothing |
| `PublishSpec.BuiltItem` | src/lib.rs:202-283 | a built narinfo, field by field: this path, the scan's NAR hash and size, the NAR's hash, the hash and size of the compressed file, and the signature over the fingerprint of the same narinfo unsigned, or none without a key |
| `Publish.BuildsOrNot` | src/lib.rs:179-283 | something becomes of a path if and only if none of the five reasons against it holds |
| `Publish.ProcessEntry` | src/lib.rs:179-300 | skips exactly the names already in the tree and clones their entry, uploading nothing; otherwise uploads this path's NAR and then its signed narinfo, or a prefix of the two; the narinfo has the fields of `PublishSpec.BuiltItem`; it fails only with an upload, or with the reason why the path cannot be built |
| `Publish.ProcessAll` | src/lib.rs:169-300 | that, for every path in order, or an abort |
| `Publish.Merge` | src/lib.rs:302-306 | the insertion loop is the specified merge |
| `Publish.CollectValues` | src/lib.rs:308 | each value once, in any order |
| `Publish.SendNodes` | src/lib.rs:336-342 | what it has offered is a prefix of the nodes in list order, all of them on success, and all but the last are on the servers |
| `Publish.Assemble` | src/lib.rs:169-342 | steps 4 to 7: what has been uploaded is a prefix of the run's uploads (each built path's NAR and narinfo, the cache info, the tree's nodes children first), all but the last of it on the servers; on success it is all of them and all are there |
| `Publish.Publish` | src/lib.rs:83-372 | every run, whatever fails, announces a new root after all its uploads, or announces nothing after a prefix of them; skipped entries' blobs are not among them; Ok means announced, and, on a dry run too, that the inputs resolve and every path has its item; each error means what it says (no inputs, an unresolvable closure, a path that cannot be built, a failed upload or event, and these two never on a dry run); a dry run changes nothing; the run mints at most 1 + T/61 tokens plus one per 401, with at most one 401 per blob and server |
| `PublishLaws.ByNameNamed` | src/lib.rs:157-159 | the map holds the last entry of each name |
| `PublishLaws.InsertAllAt` | src/lib.rs:303-306 | what the merge does to one name |
| `PublishLaws.ClosureNamesDistinct` | src/lib.rs:187 | no two paths of a closure share a narinfo name |
| `PublishLaws.MergedMap` | src/lib.rs:189-306 | old entries are untouched, every path has its entry, and anything new was built |
| `PublishLaws.NewManifestNamed` | src/lib.rs:302-329 | the new manifest, name by name |
| `PublishLaws.NewManifestShaped` | src/lib.rs:321-329 | sorted; each narinfo at most once; nix-cache-info once in the first tree and exactly twice in every later one |
| `PublishLaws.EntriesCarriedOver` | src/lib.rs:189-194 | an entry once published stays, unchanged |
| `PublishLaws.InfosCarriedOver` | src/lib.rs:189-194 | so does the narinfo behind it |
| `PublishLaws.FreshRefsPresent` | src/lib.rs:225-250 | each reference recorded by a narinfo built now has its entry in the same tree |
| `PublishLaws.NewManifestClosed` | src/lib.rs:179-306 | the new tree is reference-closed |
| `PublishLaws.StillGrowing` | src/lib.rs:302-306 | later trees keep every narinfo entry of earlier ones |
| `PublishLaws.RunKeepsInv` | src/lib.rs:83-372 | every run, aborted or not, keeps: announced URIs are those of their manifests, all trees shaped, reference-closed and growing |
| `PublishRuns.EveryStateKeepsInv` | src/lib.rs:83-372 | so every state of every history has it, whatever the servers held at first and others store between runs |
| `PublishRuns.NextRunCanRead` | src/lib.rs:128-162 | that invariant is what the next run's reading step needs |
| `PublishRuns.NodesServed` | src/lib.rs:316-342 | after an announcement every node of the tree and the cache info are on the advertised servers |
| `PublishRuns.FreshServed` | src/lib.rs:286-291 | so are the narinfo and NAR of every path built |
| `PublishRuns.CarriedIsServed` | src/lib.rs:189-194 | a carried entry is served after the run if and only if its narinfo and NAR are on those servers before it or the run makes blobs with their hashes |
| `PublishUploads.ItemUnique` | src/lib.rs:179-300 | what becomes of a path is determined by the library, configuration, old tree and closure |
| `PublishUploads.PlanUnique` | src/lib.rs:179-342 | so are all uploads over a closure and their order, whatever the hash map's order |
| `PublishUploads.UploadsUnique` | src/lib.rs:164-342 | library, configuration with its store, and old tree determine the closure, what becomes of each path, and the whole sequence of uploads |
| `PublishUploads.AnnouncedUploads` | src/lib.rs:286-342 | an announcing run has uploaded exactly those |
| `PublishUploads.EntryOrigin` | src/lib.rs:302-326 | an entry of a new manifest was carried over, is the cache info, or was built by the run |
| `PublishUploads.SentNodeReady` | src/lib.rs:286-342 | wherever a run stops: for each tree node it has sent, all nodes below it, and the narinfo and NAR of every entry below it that was not carried over, are on the servers |
| `PublishUploads.UploadExplained` | src/lib.rs:286-342 | wherever a run stops, each blob offered is the cache info, a NAR, a narinfo whose NAR is there, or such a node |
| `PublishUploads.NewBlobExplained` | src/lib.rs:286-342 | so is any blob that a run put on a server |
| `PublishRuns.AvailableExactly` | src/lib.rs:354-368 | an announced root resolves completely from the servers it advertises if and only if every carried narinfo and NAR is on them before the run or is made again by it |
| `PublishRuns.AvailableIffOnServers` | src/lib.rs:189-194 | when the run makes no blob with a carried hash: if and only if they all are on the configured servers before the run |
| `PublishRuns.OnServersSuffices` | src/lib.rs:354-368 | that they are is enough in any case |
| `PublishRuns.KeptIsServed` | src/lib.rs:141-145 | it does when the run keeps the servers advertised before |
| `PublishRuns.OldRootStaysAvailable` | src/lib.rs:83-372 | a root that resolves keeps resolving, through runs and others' uploads |
| `PublishRuns.EveryRootAvailable` | src/lib.rs:354-368 | in every state of every history whose runs keep the advertised servers, every announced root resolves completely |
| `PublishRuns.EveryBlobExplained` | src/lib.rs:286-342 | in every state of every history, aborted runs included: every blob on every server came from outside, or a run uploaded it and it is one of those |
| `PublishRuns.NoDanglingLinks` | src/lib.rs:336-342 | a tree node, leaf or not, that did not come from outside (and is no NAR, narinfo or cache info with the same bytes) is a node of some run's tree: all it links to, and all below that, is on that run's servers or carried over |
| `PublishRuns.AvailableReadsBack` | src/lib.rs:152-156 | such a root's URI, parsed and flattened, gives exactly its manifest |
| `PublishRuns.RepublishIsFixed` | src/lib.rs:189-329 | from the second publish on, a run whose paths are all in the tree rebuilds the manifest it found |
| `PublishRuns.SameInputsSameRoot` | src/lib.rs:164-346 | publishing the same inputs from the same store again announces the same root, from the second publish on |
| `PublishRuns.RefPathsExact` | src/lib.rs:225-250 | the `filter_map` drops no reference when paths parse |
| `PublishRuns.RecordedRefsAreScanned` | src/lib.rs:225-250 | a built narinfo records exactly the references its scan found, in order |
| `PublishNarinfos.RecordedInOrder` | src/lib.rs:225-250 | references are recorded one by one, in order |
| `PublishNarinfos.RecordedRef` | src/lib.rs:225-250 | each as its path in the closure, or not at all when that path does not parse |
| `PublishNarinfos.AnnouncedNarinfo` | src/lib.rs:202-299 | the announced entry of a path built now is named after it, has the hash and size of its narinfo, and that narinfo, uploaded with its file, carries what the path's own scan found and its NAR still is |
| `PublishNarinfos.ClosureAnnounced` | src/lib.rs:302-329 | every path of the closure has exactly one entry in the announced tree |
| `PublishNarinfos.EveryInputAnnounced` | src/lib.rs:83-372 | so has every input |
| `PublishNarinfos.CacheInfoAnnounced` | src/lib.rs:308-326 | the entry nix-cache-info, with the hash and size of its text, is there once at first and twice later |
| `PublishRuns.ReferencesInClosure` | src/closure.rs:142-155 | what a path of the closure refers to is in the closure |
| `PublishSeries.PublishNext` | src/lib.rs:83-372 | others store blobs, and then one more run of the imperative pipeline extends a history |
| `PublishSeries.PublishAll` | src/lib.rs:83-372 | any number of runs, against servers holding anything and with others' uploads between them, whatever fails, make a history with the invariant, and with availability when servers are kept |
| `DroppedServers.FirstRun` | src/lib.rs:83-372 | a store path published to one server is a run that announces |
| `DroppedServers.SecondRun` | src/lib.rs:189-194 | publishing it again to another server alone is too |
| `DroppedServers.NotServed` | src/lib.rs:189-194 | the carried narinfo is then on none of the advertised servers |
| `DroppedServers.DroppingServersLosesEntries` | src/lib.rs:365 | both runs succeed, the first root is available, the second is not |
| `Signer.ResultExact` | src/nip46/signer.rs:443-477 | a payload exactly when the result parses, asks no approval and carries no error; an error text is reported whatever the result |
| `Signer.RefreshLearnsNothing` | src/nip46/signer.rs:365-382 | `refresh_relays` succeeds exactly on a response without a result, error or not, and then with the empty list |
| `SignerReplies.ReplyCarries` | src/nip46/signer.rs:443-477 | what a caller gets is what its response carries: no error, no approval request, and a result that reads as the payload |
| `SignerReplies.OwnRequest` | src/nip46/signer.rs:352-570 | the request each operation sends |
| `SignerReplies.Beginning` | src/nip46/signer.rs:399-424 | a cached user key is returned without a handshake or a request; the handshake is for signers with a secret and not for `refresh_relays` |
| `Signer.OthersUntouched` | src/nip46/signer.rs:261-347 | a step moves no caller but its own |
| `Signer.StepKeepsRouted` | src/nip46/signer.rs:280-322 | every step keeps the pending map exact |
| `Signer.StepKeepsCell` | src/nip46/signer.rs:403-416 | every step keeps: the cell's holder is the one caller that is connecting |
| `Signer.StepKeepsHandshake` | src/nip46/signer.rs:399-417 | every step keeps the order of connects, acknowledgements and other requests |
| `Signer.StepKeepsInv` | src/nip46/signer.rs:261-432 | every step of every caller, the handler and the network keeps the whole invariant |
| `Signer.EveryStateKeepsInv` | src/nip46/signer.rs:261-432 | so every reachable state has it |
| `Signer.Correlation` | src/nip46/signer.rs:280-346 | pending = registered and unanswered; no response precedes its registration; at most one message per request, with its own id |
| `Signer.HandshakeOrder` | src/nip46/signer.rs:399-417 | with a secret: none of get_public_key, sign_event, nip44_encrypt, nip44_decrypt is sent before an acknowledged connect; between two connects the first ends unacknowledged; none is sent after an acknowledgement |
| `Signer.UserKeyIsFinal` | src/nip46/signer.rs:420-431 | the cached user key never changes once set |
| `Signer.ReturnedIsOwnReply` | src/nip46/signer.rs:420-570 | a caller returns the cached key, or the payload its operation asks for, read from the response to its own request, sent with the operation's own method |
| `SignerReplies.SignReply` | src/nip46/signer.rs:494-506 | a signing caller returns an event if and only if its response carries it as the signed event; any other response fails it |
| `SignerReplies.UserKeyReply` | src/nip46/signer.rs:420-431 | likewise the user's key, the first of which is cached |
| `SignerReplies.EncryptReply` | src/nip46/signer.rs:528-548 | likewise the ciphertext |
| `SignerReplies.DecryptReply` | src/nip46/signer.rs:550-570 | likewise the plaintext |
| `SignerReplies.RefreshReply` | src/nip46/signer.rs:352-382 | an empty relay list if and only if the response has no result, an error otherwise |
| `SignerReplies.ConnectReply` | src/nip46/signer.rs:405-413 | a connecting caller goes on if and only if its response acknowledges |
| `SignerReplies.CallCompletes` | src/nip46/signer.rs:300-347 | from every reachable state a new call can be answered, after a connect of its own when the handshake is to be made and nobody is making it |
| `SignerReplies.SignCompletes` | src/nip46/signer.rs:494-506 | and a signing call then returns the event |
| `Signer.DispatchLeavesOthers` | src/nip46/signer.rs:261-289 | dispatching one id leaves every other request unchanged |
| `Signer.FirstReplyIsFinal` | src/nip46/signer.rs:280-289 | the first response decides; duplicates and unknown ids change nothing |
| `Signer.FailureLeavesEntry` | src/nip46/signer.rs:321-346 | a failed or timed-out unanswered request leaves its entry behind |
| `Signer.FailedConnectRetryable` | src/nip46/signer.rs:403-416 | after a connect without acknowledgement any waiting caller may connect |
| `Signer.HolderAdvances` | src/nip46/signer.rs:403-416 | while a caller holds the cell nobody else takes it, and each of its steps brings it nearer to being free |
| `Signer.HandshakeNeverStuck` | src/nip46/signer.rs:403-416 | a caller at the handshake can pass or connect, or some other caller holds the cell, has a step to take, and frees the cell by its second step |
| `SignerRuns.ReceiveIsReal` | src/nip46/signer.rs:409-413 | an acknowledgement is logged only after its connect was sent and a response to it that acknowledges was taken |
| `SignerRuns.EveryStateHonest` | src/nip46/signer.rs:399-417 | so in every state of every run |
| `SignerRuns.HandshakeIsReal` | src/nip46/signer.rs:399-417 | with a secret: whatever needs the handshake is sent after a connect was sent and its own acknowledging response taken |
| `SignerRuns.HolderSteps` | src/nip46/signer.rs:403-416 | in every run a caller takes at most one step while it holds the handshake cell |
| `SignerObject.BunkerSigner.FromUri` | src/nip46/signer.rs:109-142 | a fresh signer, its cells unset |
| `SignerObject.BunkerSigner.Paired` | src/nip46/signer.rs:149-191 | no secret, handshake preset, user key when known |
| `SignerObject.BunkerSigner.Deliver` | src/nip46/signer.rs:280-283 | removes the sending end and fills that request's channel, no other |
| `SignerObject.BunkerSigner.DispatchResponse` | src/nip46/signer.rs:280-289 | takes exactly the machine's dispatch step |
| `SignerObject.BunkerSigner.BeginOp` | src/nip46/signer.rs:399-424 | cached key, no handshake needed, or on to the handshake |
| `SignerObject.BunkerSigner.EnsureHandshake` | src/nip46/signer.rs:399-417 | passes, waits, or becomes the one that connects |
| `SignerObject.BunkerSigner.OpenChannel` | src/nip46/signer.rs:321-322 | a fresh empty channel of its own for each request, its sending end in the map |
| `SignerObject.BunkerSigner.RegisterRequest` | src/nip46/signer.rs:321-322 | both ends are in place before anything is sent |
| `SignerObject.BunkerSigner.BeginRpc` | src/nip46/signer.rs:321-322 | takes exactly the machine's register step |
| `SignerObject.BunkerSigner.FinishSend` | src/nip46/signer.rs:323-337 | sent and waiting, or failed |
| `SignerObject.BunkerSigner.GiveUp` | src/nip46/signer.rs:343-346 | timeout or cancellation |
| `Signer.TakenAck` | src/nip46/signer.rs:409-413 | an acknowledgement sets the handshake cell, releases it and lets its caller go on |
| `Signer.TakenNoAck` | src/nip46/signer.rs:409-413 | any other reply to a connect fails its caller and nothing else |
| `SignerObject.BunkerSigner.FinishConnect` | src/nip46/signer.rs:409-413 | only an acknowledgement sets the handshake cell |
| `SignerObject.BunkerSigner.FinishCall` | src/nip46/signer.rs:425-431 | the payload asked for, or an error; the first user key is cached: the machine's receive step, for which `SignerReplies` says what is returned |
| `SignerObject.BunkerSigner.TakeReply` | src/nip46/signer.rs:343-347 | what the receiving end yields is the answer to this request, and takes exactly the machine's receive step |
| `Pairing.PctRoundTrip` | src/nip46/pair.rs:120-127 | percent-decoding undoes encoding for all bytes |
| `Pairing.EncodedByteIs` | src/nip46/pair.rs:120-127 | letters, digits and -._~ stay readable, any other byte is % and its two upper-case hex digits |
| `Pairing.EncodesEach` | src/nip46/pair.rs:120-127 | text is encoded byte by byte |
| `Pairing.HexDigitsOf` | src/nip46/pair.rs:142 | each byte of the key is printed as its two lower-case hex digits, high digit first |
| `Pairing.PairingUri` | src/nip46/pair.rs:119-143 | the appending loop prints the specified URI |
| `Pairing.UriLayout` | src/nip46/pair.rs:119-143 | the whole text of the URI: scheme, key, relays, secret, name and permissions |
| `Pairing.SplitJoin` | src/nip46/pair.rs:544 | splitting at the separators recovers the parts |
| `Pairing.UriRoundTrip` | src/nip46/pair.rs:541-551 | the URI parses back if and only if there is a relay, and then to exactly the pairs printed |
| `Pairing.CarriedValues` | src/nip46/pair.rs:552-564 | looking up keys gives the relays in order, the secret, name and permissions |
| `Pairing.UriInjective` | src/nip46/pair.rs:119-143 | different keys, relay lists or secrets never print the same URI, empty relay lists included |
| `Pairing.AwaitConnectResponse` | src/nip46/pair.rs:434-504 | returns an author if and only if that author's event is the first that decrypts to a body whose result is the secret, with nothing before it but events that do not; a closed stream or a passed deadline are reported if and only if they come before any such event |

## Left out

- SHA-256, Ed25519 and NIP-44 cryptography, xz and zstd, NAR encoding, reference matching, narinfo rendering, JSON: library code, passed in as functions. The reference scanner is only assumed to report candidates it was given, and the narinfo fields the model carries are those that references, hashes and signatures depend on.
- HTTP, relays, tokio and file I/O: outcomes are free choices. A success status of a PUT is taken to mean that the blob is stored, a positive HEAD that the server has it, and blobs are retained.
- Channels (`src/lib.rs:134`): a cache has one root per channel; the model follows a single channel, and runs on others do not touch it.
- Others' uploads while a run is under way: the model places them before or after it.
- Relay staleness and concurrent publishers (`src/nostr_fetch.rs`, `src/nostr_pub.rs`): the latest root is returned and there is one writer.
- The servers a run reads from (`src/lib.rs:139-147`): the answers are arbitrary, so which servers give them does not matter.
- CLI parsing, key files, pairing files, relay list merging, QR rendering, log text and error strings: plumbing. Error kinds are kept.
- Setting up keys, compression names and signing keys (`src/lib.rs:88-126`): they fail before anything is touched.
- SignerObject.BunkerSigner.FromUri: parsing the URI and its errors (`src/nip46/signer.rs:109-121`) come before there is a signer, and are not modelled.
- SignerObject.BunkerSigner.Paired: nor are the errors on unusable stored keys (`src/nip46/signer.rs:170-190`).
- Starting the transport (`src/nip46/signer.rs:194-255`): a caller whose start fails is one that gives up.
- Later replies after an `auth_url` challenge: the code takes the first reply for an id as final, and so does the model.
- `nip04_encrypt`, `nip04_decrypt`: they always fail.
- TreeReader.FlattenNode: the source has no bound on recursion, the model takes one as `fuel` and fails with `TooDeep` beyond it; every theorem holds for any fuel, and `Levels.ReaderDepth` gives what a tree needs.
- MsgPack.NodeBack: the decoder covers the shapes the encoder emits (fields in order, optional name), not every MessagePack form `rmp_serde` accepts; the integrity theorems use only that decoding undoes encoding.
- Sorting algorithm: `sort_by` is the standard library's; it is modelled by a function that `Sorting.StableSort` and `Sorting.SortUnique` determine, not by its algorithm.
- Request ids are taken to be fresh, which the library's random ids are only with overwhelming probability.
- Concurrent callers that all fetched the key each return their own reply; the cell keeps the first.
- A blob counts as served when some advertised server holds bytes with its hash.
- Integer widths other than `u64` sizes: list lengths and clock readings are unbounded; `u64` sums wrap, as in a release build.
