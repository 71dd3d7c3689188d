/** The uploader (src/blossom.rs): a session token cached against a clock, and the
    upload of one blob to every configured server. Whatever the outside world decides
    (time, signatures, replies) is a free choice, so contracts hold of every run. */
module Blossom {
  import opened Base

  const TOKEN_TTL_SECS := 120
  const REFRESH_MARGIN_SECS := 60
  const PREFLIGHT_SIZE_THRESHOLD := 2 * 1024 * 1024

  const OK := 200
  const UNAUTHORIZED := 401
  const PAYLOAD_TOO_LARGE := 413
  const BAD_REQUEST := 400

  // ---- the token history ----

  /** A token minted at a time, or a 401 that drops the cached one. */
  datatype TokenEvent = Minted(at: nat) | Unauthorized

  /** The time of the last mint that no 401 has followed. */
  function LiveMint(log: seq<TokenEvent>): Option<nat> {
    if log == [] then None else
      match log[|log| - 1]
      case Minted(at) => Some(at)
      case Unauthorized => None
  }

  ghost predicate Spaced(log: seq<TokenEvent>) {
    forall i, j :: 0 <= i && j == i + 1 < |log| && log[i].Minted? && log[j].Minted? ==> log[j].at >= log[i].at + 61
  }

  ghost predicate InOrder(log: seq<TokenEvent>) {
    forall i, j :: 0 <= i < j < |log| && log[i].Minted? && log[j].Minted? ==> log[i].at <= log[j].at
  }

  function MintCount(log: seq<TokenEvent>): nat {
    if log == [] then 0 else MintCount(log[..|log| - 1]) + (if log[|log| - 1].Minted? then 1 else 0)
  }

  function DropCount(log: seq<TokenEvent>): nat {
    if log == [] then 0 else DropCount(log[..|log| - 1]) + (if log[|log| - 1].Minted? then 0 else 1)
  }

  lemma {:induction false} MintsWithin(log: seq<TokenEvent>, from: nat, to: nat)
    requires Spaced(log) && InOrder(log) && from <= to
    requires forall i :: 0 <= i < |log| && log[i].Minted? ==> from <= log[i].at <= to
    ensures 61 * MintCount(log) <= 61 * (1 + DropCount(log)) + (to - from)
    ensures log != [] && log[|log| - 1] == Unauthorized ==> 61 * MintCount(log) <= 61 * DropCount(log) + (to - from)
    decreases |log|
  {
    if log != [] {
      var front, last := log[..|log| - 1], log[|log| - 1];
      match last
      case Unauthorized => MintsWithin(front, from, to);
      case Minted(at) =>
        if front == [] {
        } else if front[|front| - 1] == Unauthorized {
          MintsWithin(front, from, to);
        } else {
          var before := front[|front| - 1].at;
          assert log[|log| - 2] == front[|front| - 1];
          MintsWithin(front, from, before);
        }
    }
  }

  /** Amortisation: over a run whose mints span `T` seconds, at most one token, one more
      per 61 seconds, and one more per 401. */
  lemma TokenAmortised(log: seq<TokenEvent>, first: nat, last: nat)
    requires Spaced(log) && InOrder(log) && first <= last
    requires forall i :: 0 <= i < |log| && log[i].Minted? ==> first <= log[i].at <= last
    ensures MintCount(log) <= 1 + (last - first) / 61 + DropCount(log)
  {
    MintsWithin(log, first, last);
  }

  function FirstMint(log: seq<TokenEvent>): Option<nat> {
    if log == [] then None else if log[0].Minted? then Some(log[0].at) else FirstMint(log[1..])
  }

  function LastMint(log: seq<TokenEvent>): Option<nat> {
    if log == [] then None
    else if log[|log| - 1].Minted? then Some(log[|log| - 1].at) else LastMint(log[..|log| - 1])
  }

  /** The time between the first mint and the last. */
  function MintSpan(log: seq<TokenEvent>): nat {
    var first, last := FirstMint(log), LastMint(log);
    if first.Some? && last.Some? && first.value <= last.value then last.value - first.value else 0
  }

  lemma {:induction false} FirstMintAt(log: seq<TokenEvent>) returns (i: nat)
    requires FirstMint(log).Some?
    ensures i < |log| && log[i] == Minted(FirstMint(log).value) && forall j :: 0 <= j < i ==> !log[j].Minted?
  {
    i := 0;
    if !log[0].Minted? {
      var k := FirstMintAt(log[1..]);
      i := k + 1;
      assert forall j :: 0 < j < i ==> log[j] == log[1..][j - 1];
    }
  }

  lemma {:induction false} LastMintAt(log: seq<TokenEvent>) returns (i: nat)
    requires LastMint(log).Some?
    ensures i < |log| && log[i] == Minted(LastMint(log).value) && forall j :: i < j < |log| ==> !log[j].Minted?
  {
    i := |log| - 1;
    if !log[i].Minted? {
      i := LastMintAt(log[..i]);
    }
  }

  lemma {:induction false} MintedEnds(log: seq<TokenEvent>, i: nat)
    requires i < |log| && log[i].Minted?
    ensures LastMint(log).Some?
  {
    if !log[|log| - 1].Minted? {
      MintedEnds(log[..|log| - 1], i);
    }
  }

  lemma {:induction false} NeverMinted(log: seq<TokenEvent>)
    requires FirstMint(log).None?
    ensures forall i :: 0 <= i < |log| ==> !log[i].Minted?
  {
    if log != [] {
      NeverMinted(log[1..]);
      assert forall i :: 0 < i < |log| ==> log[i] == log[1..][i - 1];
    }
  }

  lemma {:induction false} NoMints(log: seq<TokenEvent>)
    requires forall i :: 0 <= i < |log| ==> !log[i].Minted?
    ensures MintCount(log) == 0
  {
    if log != [] {
      NoMints(log[..|log| - 1]);
    }
  }

  /** The amortised bound in terms of the history alone. */
  lemma SpanAmortised(log: seq<TokenEvent>)
    requires Spaced(log) && InOrder(log)
    ensures MintCount(log) <= 1 + MintSpan(log) / 61 + DropCount(log)
  {
    hide MintCount, DropCount, FirstMint, LastMint;
    if FirstMint(log).None? {
      NeverMinted(log);
      NoMints(log);
    } else {
      var i := FirstMintAt(log);
      MintedEnds(log, i);
      var k := LastMintAt(log);
      assert i <= k && log[i].at <= log[k].at;
      TokenAmortised(log, log[i].at, log[k].at);
    }
  }

  // ---- servers ----

  type Server = Bytes

  /** The blobs each server holds. */
  type Held = map<Server, set<Bytes>>

  function HeldBy(held: Held, s: Server): set<Bytes> {
    if s in held then held[s] else {}
  }

  /** Some listed server holds a blob with this hash. */
  ghost predicate Has(sha: Bytes -> Hash, held: Held, servers: seq<Server>, h: Hash) {
    exists s, b :: s in servers && b in HeldBy(held, s) && sha(b) == h
  }

  /** Nothing is lost, and nothing but `blobs` appears, only on the listed servers. */
  ghost predicate Gains(held: Held, held': Held, servers: seq<Server>, blobs: set<Bytes>) {
    forall s :: HeldBy(held, s) <= HeldBy(held', s) <= HeldBy(held, s) + (if s in servers then blobs else {})
  }

  lemma GainsTwice(a: Held, b: Held, c: Held, servers: seq<Server>, blobs: set<Bytes>, some: seq<Server>,
                   part: set<Bytes>)
    requires Gains(a, b, servers, blobs) && Gains(b, c, some, part)
    requires part <= blobs && forall s :: s in some ==> s in servers
    ensures Gains(a, c, servers, blobs)
  {
  }

  lemma GainsNothing(a: Held, servers: seq<Server>, blobs: set<Bytes>)
    ensures Gains(a, a, servers, blobs)
  {
  }

  lemma HasKept(sha: Bytes -> Hash, held: Held, held': Held, servers: seq<Server>, blobs: set<Bytes>,
                listed: seq<Server>, h: Hash)
    requires Gains(held, held', servers, blobs) && Has(sha, held, listed, h)
    ensures Has(sha, held', listed, h)
  {
    var s, b :| s in listed && b in HeldBy(held, s) && sha(b) == h;
    assert b in HeldBy(held', s);
  }

  /** The server holds a blob with this hash. */
  ghost predicate HoldsHash(sha: Bytes -> Hash, held: Held, s: Server, h: Hash) {
    exists b :: b in HeldBy(held, s) && sha(b) == h
  }

  lemma FoundIsHas(sha: Bytes -> Hash, held: Held, servers: seq<Server>, s: Server, h: Hash)
    requires s in servers && HoldsHash(sha, held, s, h)
    ensures Has(sha, held, servers, h)
  {
  }

  lemma HoldsNow(sha: Bytes -> Hash, held: Held, s: Server, blob: Bytes)
    requires blob in HeldBy(held, s)
    ensures HoldsHash(sha, held, s, sha(blob))
  {
  }

  lemma StillHeld(sha: Bytes -> Hash, held: Held, held': Held, s: Server, blob: Bytes, servers: seq<Server>, h: Hash)
    requires Gains(held, held', [s], {blob})
    ensures forall t :: t in servers && HoldsHash(sha, held, t, h) ==> HoldsHash(sha, held', t, h)
  {
    forall t | t in servers && HoldsHash(sha, held, t, h)
      ensures HoldsHash(sha, held', t, h)
    {
      var b :| b in HeldBy(held, t) && sha(b) == h;
      assert b in HeldBy(held', t);
    }
  }

  lemma NoVisits(servers: seq<Server>)
    ensures Failures(servers, []) == [] && Rejections([]) == 0
  {
  }

  class Cluster {
    var held: Held

    constructor ()
      ensures held == map[]
    {
      held := map[];
    }

    method Store(s: Server, blob: Bytes)
      modifies this
      ensures HeldBy(held, s) == old(HeldBy(held, s)) + {blob}
      ensures forall s' :: s' != s ==> HeldBy(held, s') == old(HeldBy(held, s'))
    {
      held := held[s := HeldBy(held, s) + {blob}];
    }
  }

  predicate IsSuccess(status: nat) {
    200 <= status < 300
  }

  datatype ServerError = ServerError(server: Server, status: nat)

  // ---- what happens at one server ----

  /** The exchange with one server about one blob: whether it answered that it has the blob,
      whether the preflight ruled an upload out, the reply to each PUT (None: no reply),
      and whether a token was missing for the next one. */
  datatype Exchange = Exchange(found: bool, refused: bool, puts: seq<Option<nat>>, noToken: bool)

  /** The exchanges there can be about a blob of this size. */
  ghost predicate Allowed(v: Exchange, size: nat) {
    && |v.puts| <= 2
    && (v.found || v.refused ==> v.puts == [] && !v.noToken)
    && (v.refused ==> !v.found && size > 2 * 1024 * 1024)
    && (v.puts == [] ==> v.found || v.refused || v.noToken)
    && (|v.puts| == 1 ==> (v.puts[0] == Some(401) <==> v.noToken))
    && (|v.puts| == 2 ==> v.puts[0] == Some(401) && !v.noToken)
  }

  /** The server has the blob: it said so, or its last reply to a PUT is a success. */
  predicate Succeeded(v: Exchange) {
    v.found || (v.puts != [] && v.puts[|v.puts| - 1].Some? && 200 <= v.puts[|v.puts| - 1].value < 300)
  }

  /** The status noted for a server that failed: 413 when the preflight or the last PUT
      was refused for the blob's size, and 400 for anything else. */
  function NotedStatus(v: Exchange): nat {
    if v.refused || (v.puts != [] && v.puts[|v.puts| - 1] == Some(413)) then 413 else 400
  }

  function Failures(servers: seq<Server>, visits: seq<Exchange>): seq<ServerError>
    requires |visits| <= |servers|
  {
    if visits == [] then [] else
      var n := |visits| - 1;
      Failures(servers, visits[..n]) +
      if Succeeded(visits[n]) then [] else [ServerError(servers[n], NotedStatus(visits[n]))]
  }

  /** How many servers rejected the token. */
  function Rejections(visits: seq<Exchange>): nat {
    if visits == [] then 0 else
      var last := visits[|visits| - 1];
      Rejections(visits[..|visits| - 1]) + if last.puts != [] && last.puts[0] == Some(401) then 1 else 0
  }

  lemma OneMoreVisit(servers: seq<Server>, visits: seq<Exchange>, v: Exchange)
    requires |visits| < |servers|
    ensures Failures(servers, visits + [v]) == Failures(servers, visits) +
      if Succeeded(v) then [] else [ServerError(servers[|visits|], NotedStatus(v))]
    ensures Rejections(visits + [v]) == Rejections(visits) + if v.puts != [] && v.puts[0] == Some(401) then 1 else 0
  {
    assert (visits + [v])[..|visits|] == visits;
  }

  datatype CachedToken = CachedToken(header: Bytes, expiresAt: nat)

  datatype AuthError = ClockError | SigningError

  class BlossomUploader {
    const sha: Bytes -> Hash
    const servers: seq<Server>
    var authToken: Option<CachedToken>
    /** The last clock reading; later readings are never earlier. */
    var clock: nat
    ghost var log: seq<TokenEvent>
    /** How often the clock or the signer has failed. */
    ghost var faults: nat

    constructor (sha: Bytes -> Hash, servers: seq<Server>)
      ensures this.sha == sha && this.servers == servers && Valid() && log == []
    {
      this.sha, this.servers := sha, servers;
      authToken, clock, log, faults := None, 0, [], 0;
    }

    ghost predicate Valid()
      reads this
    {
      && Spaced(log) && InOrder(log)
      && (forall i :: 0 <= i < |log| && log[i].Minted? ==> log[i].at <= clock)
      && (authToken.Some? <==> LiveMint(log).Some?)
      && (authToken.Some? ==> authToken.value.expiresAt == LiveMint(log).value + 120)
    }

    method UnixNow() returns (r: Option<nat>)
      requires Valid()
      modifies this`clock, this`faults
      ensures Valid() && old(clock) <= clock
      ensures r.Some? ==> r.value == clock && faults == old(faults)
      ensures r.None? ==> faults == old(faults) + 1
    {
      if * {
        faults := faults + 1;
        return None;
      }
      var now: nat :| clock <= now;
      clock := now;
      r := Some(clock);
    }

    /** Sign a token that expires 120 seconds after a clock reading taken before signing. */
    method MintToken() returns (r: Result<CachedToken, AuthError>)
      requires Valid()
      modifies this`clock, this`faults
      ensures Valid() && old(clock) <= clock
      ensures r.Ok? ==> old(clock) + 120 <= r.value.expiresAt <= clock + 120
      ensures faults == old(faults) + if r.Ok? then 0 else 1
    {
      var now := UnixNow();
      if now.None? {
        return Err(ClockError);
      }
      var expiration := now.value + TOKEN_TTL_SECS;
      if * {
        faults := faults + 1;
        return Err(SigningError);
      }
      var signed: nat :| clock <= signed;
      clock := signed;
      var header: Bytes := *;
      r := Ok(CachedToken(header, expiration));
    }

    /** The header returned is the cached token's, which had at least 60 seconds left when
        it was checked. The cached token is kept when it has that much left, and replaced
        when it has less; only a clock or signer that fails is in the way. */
    method AuthHeader() returns (r: Result<Bytes, AuthError>, ghost checkedAt: nat)
      requires Valid()
      modifies this`authToken, this`clock, this`log, this`faults
      ensures Valid() && old(clock) <= checkedAt <= clock
      ensures r.Ok? ==>
        && authToken.Some? && authToken.value.header == r.value
        && authToken.value.expiresAt >= checkedAt + 60
      ensures r.Ok? ==>
        if old(authToken).Some? && old(authToken).value.expiresAt >= checkedAt + 60
        then authToken == old(authToken) && log == old(log)
        else exists at :: log == old(log) + [Minted(at)] && checkedAt <= at
      ensures r.Err? ==> authToken == old(authToken) && log == old(log)
      ensures faults == old(faults) + if r.Ok? then 0 else 1
    {
      checkedAt := clock;
      var now := UnixNow();
      if now.None? {
        return Err(ClockError), checkedAt;
      }
      checkedAt := now.value;
      if authToken.Some? {
        var tok := authToken.value;
        var left := if tok.expiresAt >= now.value then tok.expiresAt - now.value else 0;
        if left >= REFRESH_MARGIN_SECS {
          return Ok(tok.header), checkedAt;
        }
      }
      var minted := MintToken();
      if minted.Err? {
        return Err(minted.error), checkedAt;
      }
      authToken := Some(minted.value);
      log := log + [Minted(minted.value.expiresAt - TOKEN_TTL_SECS)];
      r := Ok(minted.value.header);
    }

    method InvalidateToken()
      requires Valid()
      modifies this`authToken, this`log
      ensures Valid() && authToken == None && log == old(log) + [Unauthorized]
    {
      authToken := None;
      log := log + [Unauthorized];
    }

    /** HEAD /<sha256>: an unreachable server counts as not having the blob. A server answers
        with a success status only when it has it. */
    method CheckExists(cluster: Cluster, server: Server, hash: Hash) returns (found: bool, ghost answer: Option<nat>)
      ensures found <==> answer.Some? && 200 <= answer.value < 300
      ensures found ==> HoldsHash(sha, cluster.held, server, hash)
    {
      if * {
        return false, None;
      }
      var blobs := HeldBy(cluster.held, server);
      var held := exists b :: b in blobs && sha(b) == hash;
      var status: nat :| IsSuccess(status) ==> held by {
        assert !IsSuccess(404);
      }
      found, answer := IsSuccess(status), Some(status);
    }

    /** HEAD /upload, answered with a status or not at all: true unless the network fails or
        the server answers 413. */
    method PreflightUpload(answer: Option<nat>) returns (proceed: bool)
      ensures proceed <==> answer.Some? && answer.value != 413
    {
      if answer.None? {
        return false;
      }
      var status := answer.value;
      if status == OK {
        return true;
      }
      if status == PAYLOAD_TOO_LARGE {
        return false;
      }
      proceed := true;
    }

    /** PUT /upload. A success status means the blob is stored; it may also be stored
        when the reply is lost or reports an error. */
    method PutUpload(cluster: Cluster, server: Server, data: Bytes) returns (status: Option<nat>)
      modifies cluster
      ensures Gains(old(cluster.held), cluster.held, [server], {data})
      ensures status.Some? && IsSuccess(status.value) ==> data in HeldBy(cluster.held, server)
    {
      var stored: bool := *;
      if * {
        status := None;
      } else {
        var code: nat := *;
        status := Some(code);
      }
      if stored || (status.Some? && IsSuccess(status.value)) {
        cluster.Store(server, data);
      }
    }

    /** One server: a PUT, and one more with a fresh token after a 401. `Err` carries the
        status noted for the server. */
    method UploadToServer(cluster: Cluster, server: Server, data: Bytes)
      returns (r: Result<(), nat>, ghost visit: Exchange)
      requires Valid()
      modifies cluster, this`authToken, this`clock, this`log, this`faults
      ensures Valid() && old(log) <= log
      ensures !visit.found && !visit.refused && Allowed(visit, |data|)
      ensures DropCount(log) ==
        DropCount(old(log)) + if visit.puts != [] && visit.puts[0] == Some(401) then 1 else 0
      ensures faults == old(faults) + if visit.noToken then 1 else 0
      ensures Gains(old(cluster.held), cluster.held, [server], {data})
      ensures r.Ok? <==> Succeeded(visit)
      ensures r.Ok? ==> HoldsHash(sha, cluster.held, server, sha(data))
      ensures r.Err? ==> r.error == NotedStatus(visit)
    {
      hide Gains, DropCount, Valid, HeldBy, HoldsHash;
      GainsNothing(cluster.held, [server], {data});
      visit := Exchange(false, false, [], true);
      var auth;
      ghost var checkedAt;
      auth, checkedAt := AuthHeader();
      DropsAfterMint(old(log), log);
      if auth.Err? {
        return Err(BAD_REQUEST), visit;
      }
      var status := PutUpload(cluster, server, data);
      visit := Exchange(false, false, [status], false);
      if status.None? {
        return Err(BAD_REQUEST), visit;
      }
      if status.value == UNAUTHORIZED {
        ghost var minted, held := log, cluster.held;
        InvalidateToken();
        ghost var dropped := log;
        DropOne(minted);
        auth, checkedAt := AuthHeader();
        DropsAfterMint(dropped, log);
        if auth.Err? {
          return Err(BAD_REQUEST), visit.(noToken := true);
        }
        status := PutUpload(cluster, server, data);
        GainsTwice(old(cluster.held), held, cluster.held, [server], {data}, [server], {data});
        visit := Exchange(false, false, visit.puts + [status], false);
        if status.None? {
          return Err(BAD_REQUEST), visit;
        }
      }
      if IsSuccess(status.value) {
        HoldsNow(sha, cluster.held, server, data);
        return Ok(()), visit;
      }
      if status.value == PAYLOAD_TOO_LARGE {
        return Err(PAYLOAD_TOO_LARGE), visit;
      }
      r := Err(BAD_REQUEST);
    }

    static lemma DropOne(log: seq<TokenEvent>)
      ensures DropCount(log + [Unauthorized]) == DropCount(log) + 1
    {
      assert (log + [Unauthorized])[..|log|] == log;
    }

    static lemma DropsAfterMint(before: seq<TokenEvent>, after: seq<TokenEvent>)
      requires after == before || exists at :: after == before + [Minted(at)]
      ensures before <= after && DropCount(after) == DropCount(before)
    {
      if after != before {
        assert after[..|after| - 1] == before;
      }
    }

    /** One blob to every server. `visits` are the exchanges, server by server. */
    method Upload(cluster: Cluster, data: Bytes)
      returns (r: Result<Hash, seq<ServerError>>, successes: nat, errors: seq<ServerError>,
               ghost visits: seq<Exchange>)
      requires Valid()
      modifies cluster, this`authToken, this`clock, this`log, this`faults
      ensures Valid() && old(log) <= log
      ensures |visits| == |servers| && forall i :: 0 <= i < |visits| ==> Allowed(visits[i], |data|)
      ensures errors == Failures(servers, visits) && successes + |errors| == |servers|
      ensures r.Ok? <==> exists i :: 0 <= i < |visits| && Succeeded(visits[i])
      ensures r.Ok? ==> r.value == sha(data) && Has(sha, cluster.held, servers, sha(data))
      ensures r.Err? ==> r.error == errors && |errors| == |servers|
      ensures forall i :: 0 <= i < |visits| && Succeeded(visits[i]) ==>
        HoldsHash(sha, cluster.held, servers[i], sha(data))
      ensures faults == old(faults) ==> forall i :: 0 <= i < |visits| ==> !visits[i].noToken
      ensures DropCount(log) == DropCount(old(log)) + Rejections(visits) <= DropCount(old(log)) + |servers|
      ensures Gains(old(cluster.held), cluster.held, servers, {data})
    {
      hide Gains, DropCount, Valid, HeldBy, Has, HoldsHash, Failures, Rejections;
      GainsNothing(cluster.held, servers, {data});
      var hash := sha(data);
      var shouldPreflight := |data| > PREFLIGHT_SIZE_THRESHOLD;
      errors, successes, visits := [], 0, [];
      NoVisits(servers);
      ghost var served := 0;
      for i := 0 to |servers|
        invariant Valid() && old(log) <= log && old(faults) <= faults
        invariant |visits| == i && forall k :: 0 <= k < i ==> Allowed(visits[k], |data|)
        invariant DropCount(log) == DropCount(old(log)) + Rejections(visits) <= DropCount(old(log)) + i
        invariant errors == Failures(servers, visits) && successes + |errors| == i
        invariant successes > 0 ==> 0 <= served < i && Succeeded(visits[served])
        invariant successes == 0 ==> forall k :: 0 <= k < i ==> !Succeeded(visits[k])
        invariant forall k :: 0 <= k < i && Succeeded(visits[k]) ==> HoldsHash(sha, cluster.held, servers[k], hash)
        invariant faults == old(faults) ==> forall k :: 0 <= k < i ==> !visits[k].noToken
        invariant Gains(old(cluster.held), cluster.held, servers, {data})
      {
        var server := servers[i];
        var found, _ := CheckExists(cluster, server, hash);
        if found {
          ghost var visit := Exchange(true, false, [], false);
          OneMoreVisit(servers, visits, visit);
          visits := visits + [visit];
          successes, served := successes + 1, i;
          continue;
        }
        if shouldPreflight {
          var answer: Option<nat> := *;
          var proceed := PreflightUpload(answer);
          if !proceed {
            ghost var visit := Exchange(false, true, [], false);
            OneMoreVisit(servers, visits, visit);
            visits := visits + [visit];
            errors := errors + [ServerError(server, PAYLOAD_TOO_LARGE)];
            continue;
          }
        }
        ghost var before := cluster.held;
        var sent;
        ghost var visit;
        sent, visit := UploadToServer(cluster, server, data);
        GainsTwice(old(cluster.held), before, cluster.held, servers, {data}, [server], {data});
        StillHeld(sha, before, cluster.held, server, data, servers, hash);
        OneMoreVisit(servers, visits, visit);
        visits := visits + [visit];
        match sent
        case Ok(_) =>
          successes, served := successes + 1, i;
        case Err(status) =>
          errors := errors + [ServerError(server, status)];
      }
      if successes > 0 {
        FoundIsHas(sha, cluster.held, servers, servers[served], hash);
        r := Ok(hash);
      } else {
        r := Err(errors);
      }
    }
  }
}
