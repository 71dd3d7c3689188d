/** The remote signer's request protocol (src/nip46/signer.rs) as a state machine: any
    number of concurrent callers, a response handler, and a network that may drop,
    duplicate and reorder responses. */
module Signer {
  import opened Base

  type Id = Bytes
  type Key = Bytes
  type Caller = nat

  // ---- responses ----

  datatype Method = Connect | GetPublicKey | SignEvent | Nip44Encrypt | Nip44Decrypt | SwitchRelays

  datatype Message = Message(id: Id, result: Option<Bytes>, error: Option<Bytes>)

  datatype Payload =
    | Ack | PublicKey(key: Key) | Signed(event: Bytes) | Ciphertext(text: Bytes) | Plaintext(text: Bytes)
    | RelayList(relays: seq<Bytes>) | AuthUrl

  datatype Refusal = Refused(reason: Bytes) | Unparsable | ApprovalRequested | Empty

  const AUTH_URL: Bytes := Ascii("auth_url")

  /** The library's parser of a response's result for a method. */
  type Parser = (Method, Bytes) -> Option<Payload>

  /** `response_to_result` and `ok_result`. */
  function ResponseToResult(parse: Parser, m: Method, msg: Message): Result<Payload, Refusal> {
    if msg.result != Some(AUTH_URL) && msg.error.Some? && msg.error.value != [] then Err(Refused(msg.error.value))
    else if msg.result.Some? && parse(m, msg.result.value).None? then Err(Unparsable)
    else OkResult(if msg.result.Some? then parse(m, msg.result.value) else None, msg.error)
  }

  function OkResult(result: Option<Payload>, error: Option<Bytes>): Result<Payload, Refusal> {
    if result == Some(AuthUrl) then Err(ApprovalRequested)
    else if error.Some? then Err(Refused(error.value))
    else if result.None? then Err(Empty)
    else Ok(result.value)
  }

  /** The library reads "auth_url", and nothing else, as an approval request. */
  ghost predicate ReadsAuthUrl(parse: Parser) {
    forall m, r :: parse(m, r) == Some(AuthUrl) <==> r == AUTH_URL
  }

  /** A payload is returned exactly when the response has a parsable result, asks for no
      approval and carries no error; a signer's error text is reported as it is, whether
      or not the result beside it parses. */
  lemma ResultExact(parse: Parser, m: Method, msg: Message, p: Payload)
    requires ReadsAuthUrl(parse)
    ensures ResponseToResult(parse, m, msg) == Ok(p) <==>
      msg.error == None && msg.result.Some? && msg.result.value != AUTH_URL && parse(m, msg.result.value) == Some(p)
    ensures ResponseToResult(parse, m, msg) == Err(ApprovalRequested) <==> msg.result == Some(AUTH_URL)
    ensures msg.result != Some(AUTH_URL) && msg.error.Some? && msg.error.value != [] ==>
      ResponseToResult(parse, m, msg) == Err(Refused(msg.error.value))
  {
    if msg.result.Some? {
      assert parse(m, msg.result.value) == Some(AuthUrl) <==> msg.result.value == AUTH_URL;
    }
  }

  /** How `refresh_relays` reads its response. A result is text, never a list, so any result
      is unexpected; no result is an empty list; the error field is not looked at. */
  function RefreshResult(msg: Message): Result<Payload, Refusal> {
    if msg.result.Some? then Err(Unparsable) else Ok(RelayList([]))
  }

  /** What a caller makes of the message it takes. */
  function ReplyOf(parse: Parser, m: Method, msg: Message): Result<Payload, Refusal> {
    if m.SwitchRelays? then RefreshResult(msg) else ResponseToResult(parse, m, msg)
  }

  /** `refresh_relays` never learns a relay: whatever the response, it fails or reports "nothing
      to change", the latter exactly when there is no result. So it reports that for a
      refusal without a result too, where every other method fails. */
  lemma RefreshLearnsNothing(parse: Parser, msg: Message)
    ensures ReplyOf(parse, SwitchRelays, msg).Ok? ==> ReplyOf(parse, SwitchRelays, msg).value == RelayList([])
    ensures ReplyOf(parse, SwitchRelays, msg).Ok? <==> msg.result.None?
    ensures forall m: Method :: msg.result.None? && !m.SwitchRelays? ==> ReplyOf(parse, m, msg).Err?
  {
  }

  // ---- callers ----

  /** What a caller asked the signer for; `Refresh` is `refresh_relays`. */
  datatype Op = UserKey | Sign | Encrypt | Decrypt | Refresh

  function MethodOf(op: Op): Method {
    match op
    case UserKey => GetPublicKey
    case Sign => SignEvent
    case Encrypt => Nip44Encrypt
    case Decrypt => Nip44Decrypt
    case Refresh => SwitchRelays
  }

  predicate Answers(op: Op, p: Payload) {
    match op
    case UserKey => p.PublicKey?
    case Sign => p.Signed?
    case Encrypt => p.Ciphertext?
    case Decrypt => p.Plaintext?
    case Refresh => p.RelayList?
  }

  datatype Outcome = Failed | Returned(payload: Payload)

  /** Where a caller is. `Sending` means registered in the pending map and not yet sent. */
  datatype Pc =
    | Start(op: Op)
    | AtHandshake(op: Op)
    | Ready(op: Op)
    | Sending(op: Op, m: Method, id: Id)
    | Waiting(op: Op, m: Method, id: Id)
    | Done(outcome: Outcome)

  predicate Registered(pc: Pc) {
    pc.Sending? || pc.Waiting?
  }

  predicate Connecting(pc: Pc) {
    Registered(pc) && pc.m.Connect?
  }

  // ---- the state ----

  datatype LogItem =
    | Sent(m: Method, id: Id)
    | Received(id: Id, msg: Message)
    | ConnectEnded(id: Id, acked: bool)

  /** `owner` is history: who registered each id. `answered` holds the message the handler
      took for an id. `network` is every response ever produced; it never shrinks, so a
      response may be delivered any number of times, in any order, or never. */
  datatype State = State(
    hasSecret: bool,
    pending: map<Id, Caller>,
    owner: map<Id, Caller>,
    answered: map<Id, Message>,
    sent: set<Id>,
    network: set<Message>,
    handshook: bool,
    holder: Option<Caller>,
    userKey: Option<Key>,
    callers: map<Caller, Pc>,
    log: seq<LogItem>)

  /** A fresh signer. One built without a secret may have its handshake preset, and a
      paired one its user key. */
  predicate Init(s: State) {
    && s.pending == map[] && s.owner == map[] && s.answered == map[] && s.sent == {} && s.network == {}
    && s.holder == None && s.callers == map[] && s.log == []
    && (s.handshook ==> !s.hasSecret)
  }

  // ---- steps ----

  datatype Event =
    | Call(c: Caller, op: Op)
    | Begin(c: Caller)
    | PassHandshake(c: Caller)
    | BeginConnect(c: Caller, id: Id)
    | Register(c: Caller, id: Id)
    | SendOk(c: Caller)
    | SendFails(c: Caller, reached: bool)
    | Reply(msg: Message)
    | Dispatch(msg: Message)
    | Receive(c: Caller)
    | Abandon(c: Caller)

  predicate Enabled(s: State, e: Event) {
    match e
    case Call(c, _) => c !in s.callers
    case Begin(c) => c in s.callers && s.callers[c].Start?
    case PassHandshake(c) => c in s.callers && s.callers[c].AtHandshake? && s.handshook
    case BeginConnect(c, id) =>
      c in s.callers && s.callers[c].AtHandshake? && !s.handshook && s.holder == None && id !in s.owner
    case Register(c, id) => c in s.callers && s.callers[c].Ready? && id !in s.owner
    case SendOk(c) => c in s.callers && s.callers[c].Sending?
    case SendFails(c, _) => c in s.callers && s.callers[c].Sending?
    case Reply(msg) => msg.id in s.sent
    case Dispatch(msg) => msg in s.network || msg.id !in s.owner
    case Receive(c) => c in s.callers && s.callers[c].Waiting? && s.callers[c].id in s.answered
    case Abandon(c) => c in s.callers && !s.callers[c].Done?
  }

  function At(s: State, c: Caller, pc: Pc): State {
    s.(callers := s.callers[c := pc])
  }

  /** `t` is `s` with caller `c` moved and, perhaps, more sent, logged or learnt. */
  ghost predicate Moved(s: State, t: State, c: Caller) {
    && c in t.callers && t.callers == s.callers[c := t.callers[c]]
    && t.hasSecret == s.hasSecret && t.pending == s.pending && t.owner == s.owner
    && t.answered == s.answered && t.network == s.network && s.sent <= t.sent
  }

  /** Insert a fresh id into the pending map, before anything is sent. */
  function Registering(s: State, c: Caller, op: Op, m: Method, id: Id): State {
    At(s, c, Sending(op, m, id)).(pending := s.pending[id := c], owner := s.owner[id := c])
  }

  function MarkSent(s: State, m: Method, id: Id): State {
    s.(sent := s.sent + {id}, log := s.log + [Sent(m, id)])
  }

  /** The caller gives up: an error, a timeout or a dropped future. A connect frees the
      handshake cell; the pending entry stays behind. */
  function GivenUp(s: State, c: Caller): (t: State)
    requires c in s.callers && !s.callers[c].Done?
    ensures Moved(s, t, c) && t.callers[c] == Done(Failed) && t.sent == s.sent
    ensures t.handshook == s.handshook && t.userKey == s.userKey
    ensures t.holder == if Connecting(s.callers[c]) then None else s.holder
    ensures t.log == if Connecting(s.callers[c]) then s.log + [ConnectEnded(s.callers[c].id, false)] else s.log
  {
    var pc := s.callers[c];
    var s1 := At(s, c, Done(Failed));
    if Connecting(pc) then s1.(holder := None, log := s.log + [ConnectEnded(pc.id, false)]) else s1
  }

  /** The waiting caller takes its message. */
  function Taken(s: State, parse: Parser, c: Caller): (t: State)
    requires Enabled(s, Receive(c))
    ensures Moved(s, t, c) && t.sent == s.sent && !Registered(t.callers[c]) && !t.callers[c].AtHandshake?
    ensures t.holder == if Connecting(s.callers[c]) then None else s.holder
    ensures t.handshook ==> s.handshook || Connecting(s.callers[c])
    ensures
      var id := s.callers[c].id;
      var log := s.log + [Received(id, s.answered[id])];
      if Connecting(s.callers[c]) then
        || (t.handshook && t.log == log + [ConnectEnded(id, true)])
        || (t.handshook == s.handshook && t.log == log + [ConnectEnded(id, false)])
      else t.handshook == s.handshook && t.log == log
  {
    var Waiting(op, m, id) := s.callers[c];
    var msg := s.answered[id];
    var s1 := s.(log := s.log + [Received(id, msg)]);
    var result := ReplyOf(parse, m, msg);
    if m.Connect? then
      if result == Ok(Ack) then
        At(s1, c, Ready(op)).(handshook := true, holder := None, log := s1.log + [ConnectEnded(id, true)])
      else GivenUp(s1, c)
    else if result.Ok? && Answers(op, result.value) then
      var s2 := At(s1, c, Done(Returned(result.value)));
      if op.UserKey? && s.userKey.None? then s2.(userKey := Some(result.value.key)) else s2
    else GivenUp(s1, c)
  }

  lemma TakenAck(s: State, parse: Parser, c: Caller)
    requires Enabled(s, Receive(c)) && s.callers[c].m.Connect?
    requires ReplyOf(parse, Connect, s.answered[s.callers[c].id]) == Ok(Ack)
    ensures
      var Waiting(op, _, id) := s.callers[c];
      Taken(s, parse, c) == s.(callers := s.callers[c := Ready(op)], handshook := true, holder := None,
        log := s.log + [Received(id, s.answered[id])] + [ConnectEnded(id, true)])
  {
    hide ReplyOf;
  }

  lemma TakenNoAck(s: State, parse: Parser, c: Caller)
    requires Enabled(s, Receive(c)) && s.callers[c].m.Connect?
    requires ReplyOf(parse, Connect, s.answered[s.callers[c].id]) != Ok(Ack)
    ensures
      var id := s.callers[c].id;
      Taken(s, parse, c) == GivenUp(s.(log := s.log + [Received(id, s.answered[id])]), c)
  {
    hide ReplyOf, GivenUp;
  }

  function Apply(s: State, parse: Parser, e: Event): State
    requires Enabled(s, e)
  {
    match e
    case Call(c, op) => At(s, c, Start(op))
    case Begin(c) =>
      var op := s.callers[c].op;
      if op.UserKey? && s.userKey.Some? then At(s, c, Done(Returned(PublicKey(s.userKey.value))))
      else if op.Refresh? || !s.hasSecret then At(s, c, Ready(op))
      else At(s, c, AtHandshake(op))
    case PassHandshake(c) => At(s, c, Ready(s.callers[c].op))
    case BeginConnect(c, id) => Registering(s, c, s.callers[c].op, Connect, id).(holder := Some(c))
    case Register(c, id) => Registering(s, c, s.callers[c].op, MethodOf(s.callers[c].op), id)
    case SendOk(c) =>
      var Sending(op, m, id) := s.callers[c];
      At(MarkSent(s, m, id), c, Waiting(op, m, id))
    case SendFails(c, reached) =>
      var Sending(op, m, id) := s.callers[c];
      GivenUp(if reached then MarkSent(s, m, id) else s, c)
    case Reply(msg) => s.(network := s.network + {msg})
    case Dispatch(msg) =>
      if msg.id in s.pending then s.(pending := s.pending - {msg.id}, answered := s.answered[msg.id := msg]) else s
    case Receive(c) => Taken(s, parse, c)
    case Abandon(c) => GivenUp(s, c)
  }

  // ---- invariants ----

  /** The pending map holds exactly the registered ids not yet answered, under their
      owners; answers carry their own ids; nothing replies to an unregistered id. */
  ghost predicate Routed(s: State) {
    && s.pending.Keys == s.owner.Keys - s.answered.Keys
    && s.answered.Keys <= s.owner.Keys
    && (forall id :: id in s.pending ==> s.pending[id] == s.owner[id])
    && (forall id :: id in s.answered ==> s.answered[id].id == id)
    && s.sent <= s.owner.Keys
    && (forall msg :: msg in s.network ==> msg.id in s.sent)
    && (forall c :: c in s.callers && Registered(s.callers[c]) ==>
          s.callers[c].id in s.owner && s.owner[s.callers[c].id] == c)
  }

  /** The handshake cell: its holder is the one caller that is connecting. */
  ghost predicate CellSound(s: State) {
    && (forall c :: c in s.callers ==> (Connecting(s.callers[c]) <==> s.holder == Some(c)))
    && (s.holder.Some? ==> s.holder.value in s.callers && s.hasSecret && !s.handshook)
    && (forall c :: c in s.callers && Registered(s.callers[c]) && !s.callers[c].m.Connect? ==>
          s.callers[c].m == MethodOf(s.callers[c].op))
    && (forall c :: c in s.callers && s.callers[c].AtHandshake? ==> !s.callers[c].op.Refresh? && s.hasSecret)
    && (forall c :: c in s.callers && Connecting(s.callers[c]) ==> !s.callers[c].op.Refresh?)
  }

  const NEED_HANDSHAKE: set<Method> := {GetPublicKey, SignEvent, Nip44Encrypt, Nip44Decrypt}

  predicate NeedsHandshake(m: Method) {
    !m.Connect? && !m.SwitchRelays?
  }

  ghost predicate Shaken(s: State) {
    s.hasSecret && !s.handshook ==>
      forall c :: c in s.callers ==>
        (s.callers[c].Ready? ==> s.callers[c].op.Refresh?)
        && (Registered(s.callers[c]) ==> !NeedsHandshake(s.callers[c].m))
  }

  predicate IsAck(item: LogItem) {
    item.ConnectEnded? && item.acked
  }

  predicate IsConnect(item: LogItem) {
    item.Sent? && item.m.Connect?
  }

  predicate Ends(item: LogItem, id: Id) {
    item.ConnectEnded? && item.id == id
  }

  ghost predicate EndedBetween(log: seq<LogItem>, i: int, j: int, id: Id) {
    exists k :: i < k < j && 0 <= k < |log| && Ends(log[k], id)
  }

  /** Every sent connect has ended, except perhaps that of `open`. */
  ghost predicate Settled(log: seq<LogItem>, open: Option<Id>) {
    forall i :: 0 <= i < |log| && IsConnect(log[i]) && open != Some(log[i].id) ==>
      EndedBetween(log, i, |log|, log[i].id)
  }

  /** No connect is sent before the previous one has ended. */
  ghost predicate OneAtATime(log: seq<LogItem>) {
    forall i, j :: 0 <= i < j < |log| && IsConnect(log[i]) && IsConnect(log[j]) ==> EndedBetween(log, i, j, log[i].id)
  }

  ghost predicate NoConnectAfterAck(log: seq<LogItem>) {
    forall i, j :: 0 <= i < j < |log| && IsAck(log[i]) ==> !IsConnect(log[j])
  }

  /** Whatever needs the handshake is sent after an acknowledged connect. */
  ghost predicate AckFirst(log: seq<LogItem>) {
    forall j :: 0 <= j < |log| && log[j].Sent? && NeedsHandshake(log[j].m) ==> exists i :: 0 <= i < j && IsAck(log[i])
  }

  ghost predicate Acked(log: seq<LogItem>) {
    exists i :: 0 <= i < |log| && IsAck(log[i])
  }

  /** The connect that has been sent and not ended, if any. */
  function OpenConnect(s: State): Option<Id> {
    if s.holder.Some? && s.holder.value in s.callers && s.callers[s.holder.value].Waiting?
    then Some(s.callers[s.holder.value].id) else None
  }

  /** What the handshake part of the invariant says about a log. */
  ghost predicate Sound(log: seq<LogItem>, hasSecret: bool, handshook: bool, open: Option<Id>) {
    && Settled(log, open)
    && OneAtATime(log)
    && NoConnectAfterAck(log)
    && (hasSecret ==> AckFirst(log) && (handshook <==> Acked(log)))
    && (!hasSecret ==> !Acked(log))
  }

  ghost predicate HandshakeLogged(s: State) {
    Sound(s.log, s.hasSecret, s.handshook, OpenConnect(s))
  }

  /** Messages taken by callers: each for its own id, and no id twice. */
  ghost predicate ReceiptsLogged(s: State) {
    && (forall i :: 0 <= i < |s.log| && s.log[i].Received? ==>
          s.log[i].id in s.answered && s.answered[s.log[i].id] == s.log[i].msg)
    && (forall i, j :: 0 <= i < j < |s.log| && s.log[i].Received? && s.log[j].Received? ==> s.log[i].id != s.log[j].id)
    && (forall i, c :: 0 <= i < |s.log| && s.log[i].Received? && c in s.callers && Registered(s.callers[c]) ==>
          s.callers[c].id != s.log[i].id)
  }

  ghost predicate Inv(s: State) {
    Routed(s) && CellSound(s) && Shaken(s) && HandshakeLogged(s) && ReceiptsLogged(s)
  }

  lemma InitInv(s: State)
    requires Init(s)
    ensures Inv(s)
  {
  }

  // ---- every step keeps the invariant ----

  /** The caller that takes a step; replies and dispatches are nobody's. */
  function CallerOf(e: Event): Option<Caller> {
    match e
    case Call(c, _) => Some(c)
    case Begin(c) => Some(c)
    case PassHandshake(c) => Some(c)
    case BeginConnect(c, _) => Some(c)
    case Register(c, _) => Some(c)
    case SendOk(c) => Some(c)
    case SendFails(c, _) => Some(c)
    case Reply(_) => None
    case Dispatch(_) => None
    case Receive(c) => Some(c)
    case Abandon(c) => Some(c)
  }

  /** A step moves no caller but its own, and only registrations, replies and dispatches
      touch what routes messages. */
  lemma StepMoves(s: State, parse: Parser, e: Event)
    requires Enabled(s, e) && CallerOf(e).Some? && !e.BeginConnect? && !e.Register?
    ensures Moved(s, Apply(s, parse, e), CallerOf(e).value)
    ensures
      var c, t := CallerOf(e).value, Apply(s, parse, e);
      && (t.sent == s.sent || (c in s.callers && Registered(s.callers[c]) && t.sent == s.sent + {s.callers[c].id}))
      && (Registered(t.callers[c]) ==> c in s.callers && Registered(s.callers[c]) && t.callers[c].id == s.callers[c].id)
  {
    hide Apply, Enabled, Moved;
    if e.SendOk? || e.SendFails? {
      SendMoves(s, parse, e);
    } else {
      OtherMoves(s, parse, e);
    }
  }

  lemma SendMoves(s: State, parse: Parser, e: Event)
    requires Enabled(s, e) && (e.SendOk? || e.SendFails?)
    ensures Moved(s, Apply(s, parse, e), e.c)
    ensures
      var c, t := e.c, Apply(s, parse, e);
      && c in s.callers && Registered(s.callers[c]) && (t.sent == s.sent || t.sent == s.sent + {s.callers[c].id})
      && (Registered(t.callers[c]) ==> t.callers[c].id == s.callers[c].id)
  {
    hide GivenUp;
  }

  lemma OtherMoves(s: State, parse: Parser, e: Event)
    requires Enabled(s, e) && (e.Call? || e.Begin? || e.PassHandshake? || e.Receive? || e.Abandon?)
    ensures Moved(s, Apply(s, parse, e), CallerOf(e).value) && Apply(s, parse, e).sent == s.sent
    ensures !Registered(Apply(s, parse, e).callers[CallerOf(e).value])
  {
    hide ReplyOf, GivenUp, Taken;
  }

  /** One caller's step leaves every other caller where it is; the network's leave all. */
  lemma OthersUntouched(s: State, parse: Parser, e: Event)
    requires Enabled(s, e)
    ensures
      var t := Apply(s, parse, e);
      match CallerOf(e)
      case None => t.callers == s.callers
      case Some(c) => c in t.callers && t.callers == s.callers[c := t.callers[c]]
    ensures Apply(s, parse, e).hasSecret == s.hasSecret
  {
    if CallerOf(e).Some? && !e.BeginConnect? && !e.Register? {
      StepMoves(s, parse, e);
      hide Apply, Enabled;
    }
  }

  lemma RoutedMove(s: State, t: State, c: Caller)
    requires Routed(s) && Moved(s, t, c) && t.sent <= s.owner.Keys
    requires Registered(t.callers[c]) ==>
      c in s.callers && Registered(s.callers[c]) && t.callers[c].id == s.callers[c].id
    ensures Routed(t)
  {
  }

  lemma RoutedRegistering(s: State, c: Caller, op: Op, m: Method, id: Id)
    requires Routed(s) && id !in s.owner
    ensures Routed(Registering(s, c, op, m, id))
  {
  }

  lemma RoutedDispatch(s: State, parse: Parser, msg: Message)
    requires Routed(s) && Enabled(s, Dispatch(msg))
    ensures Routed(Apply(s, parse, Dispatch(msg)))
  {
  }

  lemma StepKeepsRouted(s: State, parse: Parser, e: Event)
    requires Enabled(s, e) && Routed(s)
    ensures Routed(Apply(s, parse, e))
  {
    match e
    case BeginConnect(c, id) => RoutedRegistering(s, c, s.callers[c].op, Connect, id);
    case Register(c, id) => RoutedRegistering(s, c, s.callers[c].op, MethodOf(s.callers[c].op), id);
    case Dispatch(msg) => RoutedDispatch(s, parse, msg);
    case Reply(_) =>
    case _ =>
      hide Enabled, Apply;
      StepMoves(s, parse, e);
      RoutedMove(s, Apply(s, parse, e), CallerOf(e).value);
  }

  /** The part of `CellSound` about one caller. */
  predicate CallerSound(s: State, pc: Pc) {
    && (Registered(pc) && !pc.m.Connect? ==> pc.m == MethodOf(pc.op))
    && (pc.AtHandshake? || Connecting(pc) ==> !pc.op.Refresh? && s.hasSecret)
  }

  lemma CellMove(s: State, t: State, c: Caller)
    requires CellSound(s) && c in t.callers && t.callers == s.callers[c := t.callers[c]] && t.hasSecret == s.hasSecret
    requires CallerSound(t, t.callers[c])
    requires Connecting(t.callers[c]) <==> t.holder == Some(c)
    requires forall d :: d != c ==> (t.holder == Some(d) <==> s.holder == Some(d))
    requires t.holder.Some? ==> !t.handshook
    ensures CellSound(t)
  {
  }

  lemma MovesKeepCaller(s: State, parse: Parser, e: Event)
    requires Enabled(s, e) && CellSound(s) && CallerOf(e).Some?
    ensures
      var c, t := CallerOf(e).value, Apply(s, parse, e);
      c in t.callers && CallerSound(t, t.callers[c])
  {
    var c := CallerOf(e).value;
    assert c in s.callers ==> CallerSound(s, s.callers[c]);
    hide ReplyOf, GivenUp, Taken, CellSound;
  }

  lemma MovesKeepHolder(s: State, parse: Parser, e: Event)
    requires Enabled(s, e) && CellSound(s) && CallerOf(e).Some?
    ensures
      var c, t := CallerOf(e).value, Apply(s, parse, e);
      && c in t.callers && (Connecting(t.callers[c]) <==> t.holder == Some(c))
      && (forall d :: d != c ==> (t.holder == Some(d) <==> s.holder == Some(d)))
      && (t.holder.Some? ==> !t.handshook)
  {
    var c := CallerOf(e).value;
    assert c in s.callers ==> (Connecting(s.callers[c]) <==> s.holder == Some(c));
    assert s.holder.Some? ==> !s.handshook && s.holder.value in s.callers;
    hide CellSound, Apply, Enabled;
    if e.Receive? || e.Abandon? || e.SendOk? || e.SendFails? {
      RequestHolder(s, parse, e, c);
    } else {
      StartHolder(s, parse, e, c);
    }
  }

  lemma RequestHolder(s: State, parse: Parser, e: Event, c: Caller)
    requires Enabled(s, e) && CallerOf(e) == Some(c) && (e.Receive? || e.Abandon? || e.SendOk? || e.SendFails?)
    requires c in s.callers ==> (Connecting(s.callers[c]) <==> s.holder == Some(c))
    requires s.holder.Some? ==> !s.handshook
    ensures
      var t := Apply(s, parse, e);
      && c in t.callers && (Connecting(t.callers[c]) <==> t.holder == Some(c))
      && (t.holder == s.holder || (s.holder == Some(c) && t.holder == None))
      && (t.holder.Some? ==> !t.handshook)
  {
    hide ReplyOf, GivenUp, Taken;
  }

  /** Steps that start no connect leave the cell alone. */
  lemma StartMoves(s: State, parse: Parser, e: Event, c: Caller)
    requires Enabled(s, e) && CallerOf(e) == Some(c) && (e.Call? || e.Begin? || e.PassHandshake? || e.Register?)
    ensures c in s.callers ==> !Connecting(s.callers[c])
    ensures
      var t := Apply(s, parse, e);
      c in t.callers && !Connecting(t.callers[c]) && t.holder == s.holder && t.handshook == s.handshook
  {
  }

  lemma StartHolder(s: State, parse: Parser, e: Event, c: Caller)
    requires Enabled(s, e) && CallerOf(e) == Some(c)
    requires e.Call? || e.Begin? || e.PassHandshake? || e.BeginConnect? || e.Register?
    requires c in s.callers ==> (Connecting(s.callers[c]) <==> s.holder == Some(c))
    requires s.holder.Some? ==> !s.handshook && s.holder.value in s.callers
    ensures
      var t := Apply(s, parse, e);
      && c in t.callers && (Connecting(t.callers[c]) <==> t.holder == Some(c))
      && (t.holder == s.holder || (s.holder == None && t.holder == Some(c)))
      && (t.holder.Some? ==> !t.handshook)
  {
    if !e.BeginConnect? {
      hide Apply, Enabled, Connecting;
      StartMoves(s, parse, e, c);
    }
  }

  lemma StepKeepsCell(s: State, parse: Parser, e: Event)
    requires Enabled(s, e) && CellSound(s)
    ensures CellSound(Apply(s, parse, e))
  {
    match CallerOf(e)
    case None =>
    case Some(c) =>
      MovesKeepCaller(s, parse, e);
      MovesKeepHolder(s, parse, e);
      OthersUntouched(s, parse, e);
      hide CellSound, Enabled, Apply, CallerSound;
      CellMove(s, Apply(s, parse, e), c);
  }

  lemma StepKeepsShaken(s: State, parse: Parser, e: Event)
    requires Enabled(s, e) && CellSound(s) && Shaken(s)
    ensures Shaken(Apply(s, parse, e))
  {
    hide ReplyOf;
    OthersUntouched(s, parse, e);
  }

  // ---- the log ----

  lemma EndedStill(log: seq<LogItem>, more: seq<LogItem>, i: int, j: int, id: Id)
    requires EndedBetween(log, i, j, id) && log <= more
    ensures EndedBetween(more, i, j, id)
  {
    var k :| i < k < j && 0 <= k < |log| && Ends(log[k], id);
    assert Ends(more[k], id);
  }

  lemma OneAtATimeAppend(log: seq<LogItem>, item: LogItem)
    requires OneAtATime(log) && (IsConnect(item) ==> Settled(log, None))
    ensures OneAtATime(log + [item])
  {
    var more := log + [item];
    forall i, j | 0 <= i < j < |more| && IsConnect(more[i]) && IsConnect(more[j])
      ensures EndedBetween(more, i, j, more[i].id)
    {
      assert more[i] == log[i];
      assert EndedBetween(log, i, j, log[i].id);
      EndedStill(log, more, i, j, more[i].id);
    }
  }

  lemma SettledAppend(log: seq<LogItem>, item: LogItem, open: Option<Id>, open': Option<Id>)
    requires Settled(log, open)
    requires IsConnect(item) ==> open' == Some(item.id)
    requires open == open' || open == None || (item.ConnectEnded? && open == Some(item.id))
    ensures Settled(log + [item], open')
  {
    var more := log + [item];
    forall i | 0 <= i < |more| && IsConnect(more[i]) && open' != Some(more[i].id)
      ensures EndedBetween(more, i, |more|, more[i].id)
    {
      assert i < |log| && more[i] == log[i];
      if open == Some(more[i].id) {
        assert Ends(more[|log|], more[i].id);
      } else {
        EndedLater(log, more, i, more[i].id);
      }
    }
  }

  lemma EndedLater(log: seq<LogItem>, more: seq<LogItem>, i: int, id: Id)
    requires EndedBetween(log, i, |log|, id) && log <= more
    ensures EndedBetween(more, i, |more|, id)
  {
    var k :| i < k < |log| && 0 <= k < |log| && Ends(log[k], id);
    assert Ends(more[k], id);
  }

  lemma AckedAppend(log: seq<LogItem>, item: LogItem)
    ensures Acked(log + [item]) <==> Acked(log) || IsAck(item)
  {
    var more := log + [item];
    assert more[|log|] == item;
    if Acked(log) {
      var i :| 0 <= i < |log| && IsAck(log[i]);
      assert IsAck(more[i]);
    }
    if Acked(more) {
      var i :| 0 <= i < |more| && IsAck(more[i]);
      assert i == |log| || IsAck(log[i]);
    }
  }

  lemma AckOrderAppend(log: seq<LogItem>, item: LogItem)
    requires NoConnectAfterAck(log) && (IsConnect(item) ==> !Acked(log))
    ensures NoConnectAfterAck(log + [item])
  {
    var more := log + [item];
    forall i, j | 0 <= i < j < |more| && IsAck(more[i])
      ensures !IsConnect(more[j])
    {
      assert IsAck(log[i]);
    }
  }

  lemma AckFirstAppend(log: seq<LogItem>, item: LogItem)
    requires AckFirst(log) && (item.Sent? && NeedsHandshake(item.m) ==> Acked(log))
    ensures AckFirst(log + [item])
  {
    var more := log + [item];
    forall j | 0 <= j < |more| && more[j].Sent? && NeedsHandshake(more[j].m)
      ensures exists i :: 0 <= i < j && IsAck(more[i])
    {
      if j < |log| {
        assert log[j] == more[j];
        var i :| 0 <= i < j && IsAck(log[i]);
        assert IsAck(more[i]);
      } else {
        var i :| 0 <= i < |log| && IsAck(log[i]);
        assert IsAck(more[i]);
      }
    }
  }

  /** One more log item keeps the handshake's history sound. */
  lemma SoundAppend(log: seq<LogItem>, item: LogItem, hasSecret: bool, handshook: bool, handshook': bool,
                    open: Option<Id>, open': Option<Id>)
    requires Sound(log, hasSecret, handshook, open)
    requires IsConnect(item) ==> open == None && open' == Some(item.id) && hasSecret && !handshook
    requires open == open' || open == None || (item.ConnectEnded? && open == Some(item.id))
    requires item.Sent? && NeedsHandshake(item.m) && hasSecret ==> handshook
    requires hasSecret ==> (handshook' <==> handshook || IsAck(item))
    requires !hasSecret ==> !IsAck(item)
    ensures Sound(log + [item], hasSecret, handshook', open')
  {
    hide Settled, OneAtATime, NoConnectAfterAck, AckFirst, Acked;
    OneAtATimeAppend(log, item);
    SettledAppend(log, item, open, open');
    AckedAppend(log, item);
    AckOrderAppend(log, item);
    if hasSecret {
      AckFirstAppend(log, item);
    }
  }

  lemma OpenIsHolders(s: State, c: Caller)
    requires CellSound(s) && c in s.callers && Registered(s.callers[c])
    ensures Connecting(s.callers[c]) ==>
      OpenConnect(s) == (if s.callers[c].Waiting? then Some(s.callers[c].id) else None) && s.hasSecret && !s.handshook
  {
  }

  /** Steps of callers that are not connecting leave the open connect as it is. */
  lemma OpenStays(s: State, t: State, c: Caller)
    requires CellSound(s) && c in t.callers && t.callers == s.callers[c := t.callers[c]] && t.holder == s.holder
    requires c in s.callers ==> !Connecting(s.callers[c])
    ensures OpenConnect(t) == OpenConnect(s)
  {
  }

  lemma SendLogged(s: State, parse: Parser, e: Event)
    requires Enabled(s, e) && (e.SendOk? || e.SendFails?)
    requires CellSound(s) && Shaken(s) && HandshakeLogged(s)
    ensures HandshakeLogged(Apply(s, parse, e))
  {
    var c, t := e.c, Apply(s, parse, e);
    var m, id := s.callers[c].m, s.callers[c].id;
    var secret, shook, open := s.hasSecret, s.handshook, OpenConnect(s);
    OpenIsHolders(s, c);
    assert NeedsHandshake(m) && secret ==> shook;
    hide Sound, ReplyOf;
    var sentLog := s.log + [Sent(m, id)];
    var midway := if m.Connect? then Some(id) else open;
    SoundAppend(s.log, Sent(m, id), secret, shook, shook, open, midway);
    if m.Connect? {
      SoundAppend(sentLog, ConnectEnded(id, false), secret, shook, shook, midway, None);
      SoundAppend(s.log, ConnectEnded(id, false), secret, shook, shook, open, None);
    } else {
      OpenStays(s, t, c);
    }
  }

  lemma EndLogged(s: State, parse: Parser, e: Event)
    requires Enabled(s, e) && (e.Receive? || e.Abandon?)
    requires CellSound(s) && HandshakeLogged(s)
    ensures HandshakeLogged(Apply(s, parse, e))
  {
    var c, t := e.c, Apply(s, parse, e);
    var secret, shook, open := s.hasSecret, s.handshook, OpenConnect(s);
    hide Sound, ReplyOf, Taken, GivenUp;
    if Registered(s.callers[c]) {
      OpenIsHolders(s, c);
      var id := s.callers[c].id;
      if e.Receive? {
        var got := Received(id, s.answered[id]);
        SoundAppend(s.log, got, secret, shook, shook, open, open);
        if Connecting(s.callers[c]) {
          SoundAppend(s.log + [got], ConnectEnded(id, true), secret, shook, true, open, None);
          SoundAppend(s.log + [got], ConnectEnded(id, false), secret, shook, shook, open, None);
        }
      } else if Connecting(s.callers[c]) {
        SoundAppend(s.log, ConnectEnded(id, false), secret, shook, shook, open, None);
      }
    }
    if !Connecting(s.callers[c]) {
      OpenStays(s, t, c);
    }
  }

  lemma StepKeepsHandshake(s: State, parse: Parser, e: Event)
    requires Enabled(s, e) && CellSound(s) && Shaken(s) && HandshakeLogged(s)
    ensures HandshakeLogged(Apply(s, parse, e))
  {
    match e
    case SendOk(_) => SendLogged(s, parse, e);
    case SendFails(_, _) => SendLogged(s, parse, e);
    case Receive(_) => EndLogged(s, parse, e);
    case Abandon(_) => EndLogged(s, parse, e);
    case Reply(_) =>
    case Dispatch(_) =>
    case _ => QuietLogged(s, parse, e);
  }

  /** Steps that log nothing and are not taken by the connecting caller. */
  lemma QuietLogged(s: State, parse: Parser, e: Event)
    requires Enabled(s, e) && (e.Call? || e.Begin? || e.PassHandshake? || e.BeginConnect? || e.Register?)
    requires CellSound(s) && HandshakeLogged(s)
    ensures HandshakeLogged(Apply(s, parse, e))
  {
    var t := Apply(s, parse, e);
    if e.BeginConnect? {
      assert OpenConnect(s) == None && OpenConnect(t) == None;
    } else {
      QuietMoves(s, parse, e);
      OpenStays(s, t, CallerOf(e).value);
    }
    hide Sound, Enabled, CellSound;
  }

  lemma QuietMoves(s: State, parse: Parser, e: Event)
    requires Enabled(s, e) && (e.Call? || e.Begin? || e.PassHandshake? || e.Register?)
    ensures
      var c, t := CallerOf(e).value, Apply(s, parse, e);
      && (c in s.callers ==> !Connecting(s.callers[c])) && c in t.callers
      && t.holder == s.holder && t.callers == s.callers[c := t.callers[c]]
  {
  }

  lemma ReceiptsMove(s: State, t: State, c: Caller, tail: seq<LogItem>)
    requires Routed(s) && ReceiptsLogged(s) && Moved(s, t, c) && t.log == s.log + tail
    requires forall i :: 0 <= i < |tail| ==> !tail[i].Received?
    requires Registered(t.callers[c]) ==>
      c in s.callers && Registered(s.callers[c]) && t.callers[c].id == s.callers[c].id
    ensures ReceiptsLogged(t)
  {
  }

  lemma ReceiptsTake(s: State, t: State, c: Caller, tail: seq<LogItem>)
    requires Routed(s) && ReceiptsLogged(s) && Moved(s, t, c)
    requires c in s.callers && s.callers[c].Waiting? && s.callers[c].id in s.answered && !Registered(t.callers[c])
    requires t.log == s.log + [Received(s.callers[c].id, s.answered[s.callers[c].id])] + tail
    requires forall i :: 0 <= i < |tail| ==> !tail[i].Received?
    ensures ReceiptsLogged(t)
  {
  }

  lemma ReceiptsRegister(s: State, c: Caller, op: Op, m: Method, id: Id)
    requires Routed(s) && ReceiptsLogged(s) && id !in s.owner
    ensures ReceiptsLogged(Registering(s, c, op, m, id))
  {
  }

  lemma ReceiptsDispatch(s: State, parse: Parser, msg: Message)
    requires Routed(s) && ReceiptsLogged(s) && Enabled(s, Dispatch(msg))
    ensures ReceiptsLogged(Apply(s, parse, Dispatch(msg)))
  {
  }

  lemma TailSends(s: State, parse: Parser, e: Event)
    requires Enabled(s, e) && CallerOf(e).Some? && !e.BeginConnect? && !e.Register? && !e.Receive?
    ensures s.log <= Apply(s, parse, e).log
    ensures forall i :: |s.log| <= i < |Apply(s, parse, e).log| ==> !Apply(s, parse, e).log[i].Received?
  {
    hide GivenUp, Moved;
  }

  lemma ReceiptsOther(s: State, parse: Parser, e: Event)
    requires Enabled(s, e) && Routed(s) && ReceiptsLogged(s)
    requires CallerOf(e).Some? && !e.BeginConnect? && !e.Register? && !e.Receive?
    ensures ReceiptsLogged(Apply(s, parse, e))
  {
    hide Apply, Enabled, ReceiptsLogged, Routed, Moved;
    var t := Apply(s, parse, e);
    TailSends(s, parse, e);
    StepMoves(s, parse, e);
    ReceiptsMove(s, t, CallerOf(e).value, t.log[|s.log|..]);
  }

  lemma StepKeepsReceipts(s: State, parse: Parser, e: Event)
    requires Enabled(s, e) && Routed(s) && ReceiptsLogged(s)
    ensures ReceiptsLogged(Apply(s, parse, e))
  {
    hide ReplyOf, Taken, GivenUp, ReceiptsLogged, Routed;
    var t := Apply(s, parse, e);
    match e
    case BeginConnect(c, id) =>
      ReceiptsRegister(s, c, s.callers[c].op, Connect, id);
      ReceiptsSame(Registering(s, c, s.callers[c].op, Connect, id), t);
    case Register(c, id) => ReceiptsRegister(s, c, s.callers[c].op, MethodOf(s.callers[c].op), id);
    case Reply(_) => ReceiptsSame(s, t);
    case Dispatch(msg) => ReceiptsDispatch(s, parse, msg);
    case Receive(c) => ReceiptsTake(s, t, c, t.log[|s.log| + 1..]);
    case _ => ReceiptsOther(s, parse, e);
  }

  lemma ReceiptsSame(s: State, t: State)
    requires ReceiptsLogged(s) && t.log == s.log && t.answered == s.answered && t.callers == s.callers
    ensures ReceiptsLogged(t)
  {
  }

  lemma StepKeepsInv(s: State, parse: Parser, e: Event)
    requires Enabled(s, e) && Inv(s)
    ensures Inv(Apply(s, parse, e))
  {
    hide Enabled, Apply, Routed, CellSound, Shaken, HandshakeLogged, ReceiptsLogged;
    StepKeepsRouted(s, parse, e);
    StepKeepsCell(s, parse, e);
    StepKeepsShaken(s, parse, e);
    StepKeepsHandshake(s, parse, e);
    StepKeepsReceipts(s, parse, e);
  }

  // ---- every run ----

  ghost predicate Step(s: State, parse: Parser, e: Event, t: State) {
    Enabled(s, e) && t == Apply(s, parse, e)
  }

  /** `states` are the states of a run whose steps are `events`. */
  ghost predicate Run(parse: Parser, states: seq<State>, events: seq<Event>) {
    && |states| == |events| + 1 && Init(states[0])
    && forall i, j :: 0 <= i && j == i + 1 < |states| ==> Step(states[i], parse, events[i], states[j])
  }

  lemma StepInv(s: State, parse: Parser, e: Event, t: State)
    requires Step(s, parse, e, t) && Inv(s)
    ensures Inv(t)
  {
    StepKeepsInv(s, parse, e);
  }

  lemma {:induction false} EveryStateKeepsInv(parse: Parser, states: seq<State>, events: seq<Event>, i: nat)
    requires Run(parse, states, events) && i < |states|
    ensures Inv(states[i])
  {
    hide Inv, Step, Init;
    if i == 0 {
      InitInv(states[0]);
    } else {
      EveryStateKeepsInv(parse, states, events, i - 1);
      assert Step(states[i - 1], parse, events[i - 1], states[i]);
      StepInv(states[i - 1], parse, events[i - 1], states[i]);
    }
  }

  /** Correlation, in every reachable state: the pending keys are exactly the registered
      ids not yet answered, every response in the network is for a registered id, and
      callers have taken at most one message per request, each for its own id. */
  lemma Correlation(parse: Parser, states: seq<State>, events: seq<Event>, i: nat)
    requires Run(parse, states, events) && i < |states|
    ensures
      var s := states[i];
      && s.pending.Keys == s.owner.Keys - s.answered.Keys
      && (forall msg :: msg in s.network ==> msg.id in s.owner)
      && (forall k :: 0 <= k < |s.log| && s.log[k].Received? ==> s.log[k].msg.id == s.log[k].id)
      && (forall j, k :: 0 <= j < k < |s.log| && s.log[j].Received? && s.log[k].Received? ==>
        s.log[j].id != s.log[k].id)
  {
    EveryStateKeepsInv(parse, states, events, i);
    hide Run, CellSound, Shaken, HandshakeLogged;
  }

  /** The handshake, in every reachable state of a signer with an app secret: nothing that
      needs it is sent before an acknowledged connect, connects go one at a time, and none
      is sent after an acknowledgement. */
  lemma HandshakeOrder(parse: Parser, states: seq<State>, events: seq<Event>, i: nat)
    requires Run(parse, states, events) && i < |states| && states[i].hasSecret
    ensures
      var log := states[i].log;
      && (forall j :: 0 <= j < |log| && log[j].Sent? && log[j].m in NEED_HANDSHAKE ==>
            exists k :: 0 <= k < j && log[k].ConnectEnded? && log[k].acked)
      && (forall j, k :: 0 <= j < k < |log| && log[k].Sent? && log[k].m == Connect ==>
            && (log[j].Sent? && log[j].m == Connect ==>
                  exists l :: j < l < k && log[l] == ConnectEnded(log[j].id, false))
            && (log[j].ConnectEnded? ==> !log[j].acked))
  {
    EveryStateKeepsInv(parse, states, events, i);
    hide Run, Routed, CellSound, Shaken, ReceiptsLogged;
    var log := states[i].log;
    assert AckFirst(log) && OneAtATime(log) && NoConnectAfterAck(log);
    forall j, k | 0 <= j < k < |log| && IsConnect(log[j]) && IsConnect(log[k])
      ensures exists l :: j < l < k && log[l] == ConnectEnded(log[j].id, false)
    {
      assert EndedBetween(log, j, k, log[j].id);
      var l :| j < l < k && 0 <= l < |log| && Ends(log[l], log[j].id);
      assert !IsAck(log[l]);
    }
    forall j | 0 <= j < |log| && log[j].Sent? && log[j].m in NEED_HANDSHAKE
      ensures exists k :: 0 <= k < j && log[k].ConnectEnded? && log[k].acked
    {
      var k :| 0 <= k < j && IsAck(log[k]);
    }
  }

  lemma StepKeepsUserKey(s: State, parse: Parser, e: Event, t: State)
    requires Step(s, parse, e, t) && s.userKey.Some?
    ensures t.userKey == s.userKey
  {
    hide ReplyOf;
  }

  /** The cached user key, once set, never changes. */
  lemma {:induction false} UserKeyIsFinal(parse: Parser, states: seq<State>, events: seq<Event>, i: nat, j: nat)
    requires Run(parse, states, events) && i <= j < |states| && states[i].userKey.Some?
    ensures states[j].userKey == states[i].userKey
    decreases j
  {
    hide Step, Init;
    if i < j {
      UserKeyIsFinal(parse, states, events, i, j - 1);
      assert Step(states[j - 1], parse, events[j - 1], states[j]);
      StepKeepsUserKey(states[j - 1], parse, events[j - 1], states[j]);
    }
  }

  /** `c` waits for the answer to its own request, and that answer is the payload `p`. */
  ghost predicate OwnReply(s: State, parse: Parser, c: Caller, p: Payload) {
    && c in s.callers && s.callers[c].Waiting?
    && var Waiting(op, m, id) := s.callers[c];
    && id in s.answered && s.answered[id].id == id && ReplyOf(parse, m, s.answered[id]) == Ok(p)
    && match op
       case UserKey => m == GetPublicKey && p.PublicKey?
       case Sign => m == SignEvent && p.Signed?
       case Encrypt => m == Nip44Encrypt && p.Ciphertext?
       case Decrypt => m == Nip44Decrypt && p.Plaintext?
       case Refresh => m == SwitchRelays && p.RelayList?
  }

  lemma ReceiveReturns(s: State, parse: Parser, c: Caller, p: Payload)
    requires Inv(s) && Enabled(s, Receive(c)) && Taken(s, parse, c).callers[c] == Done(Returned(p))
    ensures OwnReply(s, parse, c, p)
    ensures p.PublicKey? && s.userKey.None? ==> Taken(s, parse, c).userKey == Some(p.key)
  {
    hide ReplyOf, Shaken, HandshakeLogged, ReceiptsLogged;
    var pc := s.callers[c];
    assert !pc.m.Connect? ==> pc.m == MethodOf(pc.op);
    assert s.answered[pc.id].id == pc.id;
    hide Inv, Routed, CellSound;
  }

  /** A caller that returns a payload returns the cached user key, or the kind of payload
      it asked for, read from the response to its own request. */
  lemma ReturnedIsOwnReply(s: State, parse: Parser, e: Event, t: State, c: Caller, p: Payload)
    requires Inv(s) && Step(s, parse, e, t)
    requires c in t.callers && t.callers[c] == Done(Returned(p)) && !(c in s.callers && s.callers[c] == t.callers[c])
    ensures OwnReply(s, parse, c, p) ||
      (c in s.callers && s.callers[c] == Start(UserKey) && s.userKey.Some? && p == PublicKey(s.userKey.value))
    ensures OwnReply(s, parse, c, p) && p.PublicKey? && s.userKey.None? ==> t.userKey == Some(p.key)
  {
    OthersUntouched(s, parse, e);
    assert CallerOf(e) == Some(c);
    hide Inv, Apply, Enabled, Taken, OwnReply;
    if e.Receive? {
      assert t == Taken(s, parse, c) && Enabled(s, e) by {
        ReceiveTakes(s, parse, e, t);
      }
      ReceiveReturns(s, parse, c, p);
    } else {
      BeginReturns(s, parse, e, c, p);
      NotWaiting(s, parse, c, p);
    }
  }

  lemma ReceiveTakes(s: State, parse: Parser, e: Event, t: State)
    requires Step(s, parse, e, t) && e.Receive?
    ensures Enabled(s, e) && t == Taken(s, parse, e.c)
  {
  }

  lemma BeginReturns(s: State, parse: Parser, e: Event, c: Caller, p: Payload)
    requires Enabled(s, e) && !e.Receive? && CallerOf(e) == Some(c)
    requires c in Apply(s, parse, e).callers && Apply(s, parse, e).callers[c] == Done(Returned(p))
    ensures c in s.callers && s.callers[c] == Start(UserKey) && s.userKey.Some? && p == PublicKey(s.userKey.value)
  {
    hide Taken, MethodOf;
  }

  lemma NotWaiting(s: State, parse: Parser, c: Caller, p: Payload)
    requires c in s.callers && !s.callers[c].Waiting?
    ensures !OwnReply(s, parse, c, p)
  {
  }

  /** Dispatching a response touches no request but its own. */
  lemma DispatchLeavesOthers(s: State, parse: Parser, msg: Message, id: Id)
    requires Inv(s) && Enabled(s, Dispatch(msg)) && id != msg.id
    ensures
      var t := Apply(s, parse, Dispatch(msg));
      && (id in t.pending <==> id in s.pending) && (id in t.answered <==> id in s.answered)
      && (id in s.answered ==> t.answered[id] == s.answered[id]) && t.callers == s.callers
  {
  }

  /** The first response to a request that is still waiting is the one its caller can take;
      any later one, and any for an unknown id, changes nothing. */
  lemma FirstReplyIsFinal(s: State, parse: Parser, msg: Message)
    requires Inv(s) && Enabled(s, Dispatch(msg))
    ensures
      var t := Apply(s, parse, Dispatch(msg));
      if msg.id !in s.owner || msg.id in s.answered then t == s else
        && t.answered == s.answered[msg.id := msg] && msg.id !in t.pending
        && forall c :: c in s.callers && s.callers[c].Waiting? && s.callers[c].id == msg.id ==> Enabled(t, Receive(c))
  {
    hide CellSound, Shaken, HandshakeLogged, ReceiptsLogged;
    assert msg.id in s.pending <==> msg.id in s.owner && msg.id !in s.answered;
  }

  /** A request that fails or times out unanswered leaves its pending entry behind. */
  lemma FailureLeavesEntry(s: State, parse: Parser, e: Event)
    requires Inv(s) && Enabled(s, e) && (e.SendFails? || e.Abandon?)
    requires Registered(s.callers[e.c]) && s.callers[e.c].id !in s.answered
    ensures s.callers[e.c].id in Apply(s, parse, e).pending
    ensures Apply(s, parse, e).callers[e.c] == Done(Failed)
  {
    hide CellSound, Shaken, HandshakeLogged, ReceiptsLogged;
    StepMoves(s, parse, e);
    assert s.callers[e.c].id in s.pending;
  }

  /** A connect that ends without an acknowledgement leaves the handshake retryable: any
      caller at the handshake may connect next, with any fresh id. */
  lemma FailedConnectRetryable(s: State, parse: Parser, e: Event, d: Caller, id: Id)
    requires Inv(s) && Enabled(s, e) && CallerOf(e).Some? && CallerOf(e).value in s.callers
    requires Connecting(s.callers[CallerOf(e).value]) && !Registered(Apply(s, parse, e).callers[CallerOf(e).value])
    requires !Apply(s, parse, e).handshook
    requires d in s.callers && s.callers[d].AtHandshake? && id !in s.owner
    ensures Enabled(Apply(s, parse, e), BeginConnect(d, id))
  {
    hide ReplyOf, Shaken, HandshakeLogged, ReceiptsLogged, GivenUp, Taken;
    StepMoves(s, parse, e);
    assert CallerOf(e).value != d;
  }

  /** How many steps the caller that holds the handshake cell still has before it frees it. */
  function CellRank(s: State): nat {
    match s.holder
    case None => 0
    case Some(d) => if d in s.callers && s.callers[d].Sending? then 2 else 1
  }

  /** While the cell is held nobody else takes it, and every step of its holder, whether
      it succeeds, fails or times out, brings it nearer to being free. */
  lemma HolderAdvances(s: State, parse: Parser, e: Event)
    requires Inv(s) && Enabled(s, e) && s.holder.Some?
    ensures
      var t := Apply(s, parse, e);
      && (t.holder == s.holder || t.holder == None)
      && CellRank(t) <= CellRank(s)
      && (CallerOf(e) == s.holder ==> CellRank(t) < CellRank(s))
  {
    var d := s.holder.value;
    assert d in s.callers && Connecting(s.callers[d]);
    assert forall c :: c in s.callers && Connecting(s.callers[c]) ==> c == d;
    hide Inv, ReplyOf, Taken, GivenUp, CellSound;
    OthersUntouched(s, parse, e);
  }

  /** No caller is stuck at the handshake: it may go on, or connect, or some other caller
      holds the cell, can take a step, and frees the cell by its second step at the latest. */
  lemma HandshakeNeverStuck(s: State, parse: Parser, c: Caller, id: Id)
    requires Inv(s) && c in s.callers && s.callers[c].AtHandshake? && id !in s.owner
    ensures || Enabled(s, PassHandshake(c)) || Enabled(s, BeginConnect(c, id))
            || (&& s.holder.Some? && s.holder != Some(c) && CellRank(s) <= 2
                && (exists e :: Enabled(s, e) && CallerOf(e) == s.holder)
                && forall e :: Enabled(s, e) && CallerOf(e) == s.holder ==>
                     CellRank(Apply(s, parse, e)) < CellRank(s))
  {
    assert !Connecting(s.callers[c]);
    if !s.handshook && s.holder.Some? {
      assert s.holder != Some(c);
      var d := s.holder.value;
      assert Connecting(s.callers[d]);
      assert Enabled(s, Abandon(d)) && CallerOf(Abandon(d)) == s.holder;
      hide Apply, Inv;
      forall e | Enabled(s, e) && CallerOf(e) == s.holder
        ensures CellRank(Apply(s, parse, e)) < CellRank(s)
      {
        HolderAdvances(s, parse, e);
      }
    }
  }
}
