/** What each operation of the remote signer asks for, and what its caller gets, request by
    request (src/nip46/signer.rs:365-382, 399-570). */
module SignerReplies {
  import opened Base
  import opened Signer

  // ---- from a response to an outcome ----

  /** A response without an error and without an approval request, whose result reads as `p`. */
  ghost predicate Carries(parse: Parser, m: Method, msg: Message, p: Payload) {
    && msg.error == None && msg.result.Some? && msg.result.value != Ascii("auth_url")
    && parse(m, msg.result.value) == Some(p)
  }

  lemma ReplyCarries(parse: Parser, m: Method, msg: Message, p: Payload)
    requires ReadsAuthUrl(parse) && !m.SwitchRelays?
    ensures ReplyOf(parse, m, msg) == Ok(p) <==> Carries(parse, m, msg, p)
  {
    ResultExact(parse, m, msg, p);
    hide ResponseToResult;
  }

  /** Where a caller that takes its message ends. */
  function After(s: State, parse: Parser, c: Caller): Pc
    requires Enabled(s, Receive(c))
  {
    Apply(s, parse, Receive(c)).callers[c]
  }

  /** `c` has the answer `msg` to the request of its operation `op` and may take it. */
  ghost predicate Answered(s: State, c: Caller, op: Op, msg: Message) {
    && Inv(s) && Enabled(s, Receive(c)) && s.callers[c].op == op && s.callers[c].m != Connect
    && s.answered[s.callers[c].id] == msg
  }

  lemma OwnMethod(s: State, c: Caller)
    requires Inv(s) && Enabled(s, Receive(c)) && s.callers[c].m != Connect
    ensures s.callers[c].m == MethodOf(s.callers[c].op)
  {
    hide Routed, Shaken, HandshakeLogged, ReceiptsLogged;
  }

  /** A signing caller returns the event exactly when its response carries a signed event; any
      other response fails it. */
  lemma SignReply(s: State, parse: Parser, c: Caller, msg: Message)
    requires ReadsAuthUrl(parse) && Answered(s, c, Sign, msg)
    ensures s.callers[c].m == SignEvent
    ensures forall event ::
      After(s, parse, c) == Done(Returned(Signed(event))) <==> Carries(parse, SignEvent, msg, Signed(event))
    ensures (forall event :: !Carries(parse, SignEvent, msg, Signed(event))) ==> After(s, parse, c) == Done(Failed)
  {
    OwnMethod(s, c);
    hide ReplyOf, ReadsAuthUrl, Carries, Inv;
    forall event {
      ReplyCarries(parse, SignEvent, msg, Signed(event));
    }
  }

  /** A caller after the user key returns the key its response carries, and the first such key
      is cached. */
  lemma UserKeyReply(s: State, parse: Parser, c: Caller, msg: Message)
    requires ReadsAuthUrl(parse) && Answered(s, c, UserKey, msg)
    ensures s.callers[c].m == GetPublicKey
    ensures forall key ::
      After(s, parse, c) == Done(Returned(PublicKey(key))) <==> Carries(parse, GetPublicKey, msg, PublicKey(key))
    ensures (forall key :: !Carries(parse, GetPublicKey, msg, PublicKey(key))) ==> After(s, parse, c) == Done(Failed)
    ensures forall key :: Carries(parse, GetPublicKey, msg, PublicKey(key)) ==>
      Apply(s, parse, Receive(c)).userKey == if s.userKey.None? then Some(key) else s.userKey
  {
    OwnMethod(s, c);
    hide ReplyOf, ReadsAuthUrl, Carries, Inv;
    forall key {
      ReplyCarries(parse, GetPublicKey, msg, PublicKey(key));
    }
  }

  /** An encrypting caller returns the ciphertext its response carries. */
  lemma EncryptReply(s: State, parse: Parser, c: Caller, msg: Message)
    requires ReadsAuthUrl(parse) && Answered(s, c, Encrypt, msg)
    ensures s.callers[c].m == Nip44Encrypt
    ensures forall text ::
      After(s, parse, c) == Done(Returned(Ciphertext(text))) <==> Carries(parse, Nip44Encrypt, msg, Ciphertext(text))
    ensures (forall text :: !Carries(parse, Nip44Encrypt, msg, Ciphertext(text))) ==> After(s, parse, c) == Done(Failed)
  {
    OwnMethod(s, c);
    hide ReplyOf, ReadsAuthUrl, Carries, Inv;
    forall text {
      ReplyCarries(parse, Nip44Encrypt, msg, Ciphertext(text));
    }
  }

  /** A decrypting caller returns the plaintext its response carries. */
  lemma DecryptReply(s: State, parse: Parser, c: Caller, msg: Message)
    requires ReadsAuthUrl(parse) && Answered(s, c, Decrypt, msg)
    ensures s.callers[c].m == Nip44Decrypt
    ensures forall text ::
      After(s, parse, c) == Done(Returned(Plaintext(text))) <==> Carries(parse, Nip44Decrypt, msg, Plaintext(text))
    ensures (forall text :: !Carries(parse, Nip44Decrypt, msg, Plaintext(text))) ==> After(s, parse, c) == Done(Failed)
  {
    OwnMethod(s, c);
    hide ReplyOf, ReadsAuthUrl, Carries, Inv;
    forall text {
      ReplyCarries(parse, Nip44Decrypt, msg, Plaintext(text));
    }
  }

  /** `refresh_relays` reports nothing to change exactly when its response has no result. */
  lemma RefreshReply(s: State, parse: Parser, c: Caller, msg: Message)
    requires Answered(s, c, Refresh, msg)
    ensures s.callers[c].m == SwitchRelays
    ensures After(s, parse, c) == if msg.result.None? then Done(Returned(RelayList([]))) else Done(Failed)
  {
    OwnMethod(s, c);
    hide Inv;
  }

  /** A connecting caller goes on to its operation exactly when its response acknowledges. */
  lemma ConnectReply(s: State, parse: Parser, c: Caller)
    requires ReadsAuthUrl(parse) && Enabled(s, Receive(c)) && s.callers[c].m == Connect
    ensures
      var Waiting(op, _, id) := s.callers[c];
      After(s, parse, c) == if Carries(parse, Connect, s.answered[id], Ack) then Ready(op) else Done(Failed)
  {
    ReplyCarries(parse, Connect, s.answered[s.callers[c].id], Ack);
    hide ReplyOf, ReadsAuthUrl, Carries;
  }

  // ---- what is asked for ----

  /** The request each operation sends. */
  lemma OwnRequest(s: State, parse: Parser, c: Caller, id: Id)
    requires Enabled(s, Register(c, id))
    ensures Apply(s, parse, Register(c, id)).callers[c].Sending?
    ensures
      var Sending(op, m, own) := Apply(s, parse, Register(c, id)).callers[c];
      && op == s.callers[c].op && own == id
      && (op == UserKey ==> m == GetPublicKey) && (op == Sign ==> m == SignEvent)
      && (op == Encrypt ==> m == Nip44Encrypt) && (op == Decrypt ==> m == Nip44Decrypt)
      && (op == Refresh ==> m == SwitchRelays)
  {
  }

  /** A cached user key is returned at once, without a handshake or a request; the handshake
      is for signers with a secret, and not for `refresh_relays`. */
  lemma Beginning(s: State, parse: Parser, c: Caller)
    requires Enabled(s, Begin(c))
    ensures
      var t, op := Apply(s, parse, Begin(c)), s.callers[c].op;
      && t == s.(callers := t.callers)
      && (op == UserKey && s.userKey.Some? ==> t.callers == s.callers[c := Done(Returned(PublicKey(s.userKey.value)))])
      && (op != UserKey || s.userKey.None? ==>
            t.callers == s.callers[c := if s.hasSecret && op != Refresh then AtHandshake(op) else Ready(op)])
  {
  }

  // ---- whole calls ----

  /** The events, one after the other, are possible from `s` and lead to `t`. */
  ghost predicate Leads(s: State, parse: Parser, events: seq<Event>, t: State)
    decreases |events|
  {
    if events == [] then s == t else
      Enabled(s, events[0]) && Leads(Apply(s, parse, events[0]), parse, events[1..], t)
  }

  lemma {:induction false} LeadsOn(s: State, parse: Parser, events: seq<Event>, t: State, more: seq<Event>, u: State)
    requires Leads(s, parse, events, t) && Leads(t, parse, more, u)
    ensures Leads(s, parse, events + more, u)
    decreases |events|
  {
    hide Enabled, Apply;
    if events == [] {
      assert events + more == more;
    } else {
      assert (events + more)[1..] == events[1..] + more;
      LeadsOn(Apply(s, parse, events[0]), parse, events[1..], t, more, u);
    }
  }

  lemma {:induction false} LeadsKeepsInv(s: State, parse: Parser, events: seq<Event>, t: State)
    requires Inv(s) && Leads(s, parse, events, t)
    ensures Inv(t)
    decreases |events|
  {
    hide Enabled, Apply, Inv;
    if events != [] {
      StepKeepsInv(s, parse, events[0]);
      LeadsKeepsInv(Apply(s, parse, events[0]), parse, events[1..], t);
    }
  }

  /** A request: it is sent, the signer answers, the answer arrives and is taken. */
  function RoundTrip(c: Caller, msg: Message): seq<Event> {
    [SendOk(c), Reply(msg), Dispatch(msg), Receive(c)]
  }

  lemma OneStep(s: State, parse: Parser, e: Event)
    requires Enabled(s, e)
    ensures Leads(s, parse, [e], Apply(s, parse, e))
  {
    hide Enabled, Apply;
    assert [e][1..] == [];
    assert Leads(Apply(s, parse, e), parse, [], Apply(s, parse, e));
  }

  lemma SendStep(s: State, parse: Parser, c: Caller)
    requires Enabled(s, SendOk(c))
    ensures
      var Sending(op, m, id), t := s.callers[c], Apply(s, parse, SendOk(c));
      t == s.(callers := s.callers[c := Waiting(op, m, id)], sent := t.sent, log := t.log) && id in t.sent
  {
  }

  lemma ArrivalSteps(s: State, parse: Parser, msg: Message) returns (t: State)
    requires msg.id in s.sent && msg.id in s.pending
    ensures t == s.(network := t.network, pending := t.pending, answered := s.answered[msg.id := msg])
    ensures Leads(s, parse, [Reply(msg)] + [Dispatch(msg)], t)
  {
    var a := Apply(s, parse, Reply(msg));
    t := Apply(a, parse, Dispatch(msg));
    OneStep(s, parse, Reply(msg));
    OneStep(a, parse, Dispatch(msg));
    LeadsOn(s, parse, [Reply(msg)], a, [Dispatch(msg)], t);
  }

  lemma StillPending(s: State, c: Caller)
    requires Inv(s) && c in s.callers && Registered(s.callers[c]) && s.callers[c].id !in s.answered
    ensures s.callers[c].id in s.pending
  {
    hide CellSound, Shaken, HandshakeLogged, ReceiptsLogged;
  }

  lemma Unanswered(s: State, id: Id)
    requires Inv(s) && id !in s.owner
    ensures id !in s.answered
  {
    hide CellSound, Shaken, HandshakeLogged, ReceiptsLogged;
  }

  /** `u` is `s` with the answer to the request of `c` in the hands of `c`. */
  ghost predicate AnswerArrived(s: State, u: State, c: Caller, msg: Message) {
    && c in s.callers && s.callers[c].Sending?
    && var Sending(op, m, id) := s.callers[c];
    && Inv(u) && Enabled(u, Receive(c)) && u.callers == s.callers[c := Waiting(op, m, id)] && u.answered[id] == msg
    && u.hasSecret == s.hasSecret && u.handshook == s.handshook && u.userKey == s.userKey && u.owner == s.owner
    && u.answered.Keys == s.answered.Keys + {id}
  }

  /** Whatever else is under way, a registered request whose answer arrives is answered. */
  lemma RequestCompletes(s: State, parse: Parser, c: Caller, msg: Message) returns (u: State)
    requires Inv(s) && c in s.callers && s.callers[c].Sending? && s.callers[c].id == msg.id && msg.id !in s.answered
    ensures AnswerArrived(s, u, c, msg)
    ensures Leads(s, parse, RoundTrip(c, msg), Apply(u, parse, Receive(c)))
  {
    hide Inv, Leads;
    StillPending(s, c);
    SendStep(s, parse, c);
    OneStep(s, parse, SendOk(c));
    var a := Apply(s, parse, SendOk(c));
    hide Apply;
    u := ArrivalSteps(a, parse, msg);
    OneStep(u, parse, Receive(c));
    var arrival := [Reply(msg)] + [Dispatch(msg)];
    LeadsOn(s, parse, [SendOk(c)], a, arrival, u);
    LeadsKeepsInv(s, parse, [SendOk(c)] + arrival, u);
    LeadsOn(s, parse, [SendOk(c)] + arrival, u, [Receive(c)], Apply(u, parse, Receive(c)));
    assert [SendOk(c)] + arrival + [Receive(c)] == RoundTrip(c, msg);
  }

  /** A new caller gets as far as the handshake, or past it when there is none to make. */
  lemma Arrives(s: State, parse: Parser, c: Caller, op: Op) returns (t: State)
    requires c !in s.callers && (op == UserKey ==> s.userKey.None?)
    ensures t == s.(callers := s.callers[c := if s.hasSecret && op != Refresh then AtHandshake(op) else Ready(op)])
    ensures Leads(s, parse, [Call(c, op)] + [Begin(c)], t)
  {
    var a := Apply(s, parse, Call(c, op));
    t := Apply(a, parse, Begin(c));
    OneStep(s, parse, Call(c, op));
    OneStep(a, parse, Begin(c));
    LeadsOn(s, parse, [Call(c, op)], a, [Begin(c)], t);
    assert t.callers == s.callers[c := if s.hasSecret && op != Refresh then AtHandshake(op) else Ready(op)];
  }

  /** Past the handshake, the caller's own request is answered. */
  lemma Calls(s: State, parse: Parser, c: Caller, msg: Message) returns (u: State)
    requires Inv(s) && c in s.callers && s.callers[c].Ready? && msg.id !in s.owner
    ensures Answered(u, c, s.callers[c].op, msg)
    ensures Leads(s, parse, [Register(c, msg.id)] + RoundTrip(c, msg), Apply(u, parse, Receive(c)))
    ensures u.callers.Keys == s.callers.Keys + {c}
    ensures forall d :: d in s.callers && d != c ==> u.callers[d] == s.callers[d]
  {
    hide Inv, Leads, RoundTrip;
    Unanswered(s, msg.id);
    var a := Apply(s, parse, Register(c, msg.id));
    OneStep(s, parse, Register(c, msg.id));
    StepKeepsInv(s, parse, Register(c, msg.id));
    OwnRequest(s, parse, c, msg.id);
    u := RequestCompletes(a, parse, c, msg);
    hide Apply;
    LeadsOn(s, parse, [Register(c, msg.id)], a, RoundTrip(c, msg), Apply(u, parse, Receive(c)));
  }

  lemma Opens(s: State, parse: Parser, c: Caller, id: Id) returns (t: State)
    requires Inv(s) && Enabled(s, BeginConnect(c, id))
    ensures Inv(t) && id !in t.answered && t.callers == s.callers[c := Sending(s.callers[c].op, Connect, id)]
    ensures t.owner == s.owner[id := c] && Leads(s, parse, [BeginConnect(c, id)], t)
  {
    hide Inv, Leads;
    Unanswered(s, id);
    t := Apply(s, parse, BeginConnect(c, id));
    OneStep(s, parse, BeginConnect(c, id));
    StepKeepsInv(s, parse, BeginConnect(c, id));
  }

  lemma Acknowledged(s: State, parse: Parser, c: Caller) returns (t: State)
    requires Enabled(s, Receive(c)) && s.callers[c].m.Connect?
    requires ReplyOf(parse, Connect, s.answered[s.callers[c].id]) == Ok(Ack)
    ensures t == Apply(s, parse, Receive(c)) && t.handshook && t.owner == s.owner
    ensures t.callers == s.callers[c := Ready(s.callers[c].op)]
  {
    TakenAck(s, parse, c);
    t := Taken(s, parse, c);
    hide Taken, ReplyOf;
  }

  /** With the handshake cell free, a caller at the handshake that is answered with an
      acknowledgement passes it, and sets it for all. */
  lemma Connects(s: State, parse: Parser, c: Caller, ack: Message) returns (t: State)
    requires ReadsAuthUrl(parse) && Inv(s) && c in s.callers && s.callers[c].AtHandshake?
    requires !s.handshook && s.holder == None && ack.id !in s.owner && Carries(parse, Connect, ack, Ack)
    ensures Leads(s, parse, [BeginConnect(c, ack.id)] + RoundTrip(c, ack), t)
    ensures Inv(t) && t.handshook && t.callers == s.callers[c := Ready(s.callers[c].op)]
    ensures t.owner == s.owner[ack.id := c]
  {
    hide Inv, Leads, ReadsAuthUrl, Carries, RoundTrip;
    var a := Opens(s, parse, c, ack.id);
    hide Enabled;
    var u := RequestCompletes(a, parse, c, ack);
    StepKeepsInv(u, parse, Receive(c));
    ReplyCarries(parse, Connect, ack, Ack);
    hide Apply;
    t := Acknowledged(u, parse, c);
    LeadsOn(s, parse, [BeginConnect(c, ack.id)], a, RoundTrip(c, ack), t);
  }

  /** How a caller passes the handshake: not at all, at once, or by a connect of its own. */
  function HandshakeEvents(s: State, c: Caller, op: Op, ack: Message): seq<Event> {
    if !s.hasSecret || op == Refresh then []
    else if s.handshook then [PassHandshake(c)]
    else [BeginConnect(c, ack.id)] + RoundTrip(c, ack)
  }

  function CallEvents(s: State, c: Caller, op: Op, ack: Message, msg: Message): seq<Event> {
    ([Call(c, op)] + [Begin(c)]) + HandshakeEvents(s, c, op, ack) + ([Register(c, msg.id)] + RoundTrip(c, msg))
  }

  lemma Handshakes(s: State, parse: Parser, c: Caller, op: Op, ack: Message, id: Id) returns (t: State)
    requires ReadsAuthUrl(parse) && Inv(s) && c in s.callers && ack.id !in s.owner && id !in s.owner && id != ack.id
    requires s.callers[c] == if s.hasSecret && op != Refresh then AtHandshake(op) else Ready(op)
    requires s.hasSecret && op != Refresh && !s.handshook ==> s.holder == None && Carries(parse, Connect, ack, Ack)
    ensures Leads(s, parse, HandshakeEvents(s, c, op, ack), t)
    ensures Inv(t) && t.callers == s.callers[c := Ready(op)] && id !in t.owner
  {
    hide Inv;
    if !s.hasSecret || op == Refresh {
      t := s;
    } else if s.handshook {
      t := Apply(s, parse, PassHandshake(c));
      OneStep(s, parse, PassHandshake(c));
      StepKeepsInv(s, parse, PassHandshake(c));
    } else {
      t := Connects(s, parse, c, ack);
    }
  }

  /** No call has to fail: from any reachable state, whatever the other callers are doing, a
      new call gets its answer `msg`, after the acknowledgement `ack` of a connect of its own
      when the handshake is still to be made and nobody is making it. What it returns
      then is in `SignReply`, `UserKeyReply`, `EncryptReply`, `DecryptReply`, `RefreshReply`. */
  lemma CallCompletes(s: State, parse: Parser, c: Caller, op: Op, ack: Message, msg: Message) returns (u: State)
    requires ReadsAuthUrl(parse) && Inv(s) && c !in s.callers && (op == UserKey ==> s.userKey.None?)
    requires ack.id !in s.owner && msg.id !in s.owner && msg.id != ack.id
    requires s.hasSecret && op != Refresh && !s.handshook ==> s.holder == None && Carries(parse, Connect, ack, Ack)
    ensures Answered(u, c, op, msg)
    ensures Leads(s, parse, CallEvents(s, c, op, ack, msg), Apply(u, parse, Receive(c)))
    ensures u.callers.Keys == s.callers.Keys + {c}
    ensures forall d :: d in s.callers && d != c ==> u.callers[d] == s.callers[d]
  {
    hide Inv, Leads, Carries, ReadsAuthUrl, Apply;
    var start := [Call(c, op)] + [Begin(c)];
    var a := Arrives(s, parse, c, op);
    LeadsKeepsInv(s, parse, start, a);
    var shake := HandshakeEvents(s, c, op, ack);
    assert HandshakeEvents(a, c, op, ack) == shake;
    var b := Handshakes(a, parse, c, op, ack, msg.id);
    LeadsOn(s, parse, start, a, shake, b);
    u := Calls(b, parse, c, msg);
    LeadsOn(s, parse, start + shake, b, [Register(c, msg.id)] + RoundTrip(c, msg), Apply(u, parse, Receive(c)));
  }

  /** In particular a signing call gets its event. */
  lemma SignCompletes(s: State, parse: Parser, c: Caller, ack: Message, msg: Message, event: Bytes) returns (t: State)
    requires ReadsAuthUrl(parse) && Inv(s) && c !in s.callers
    requires ack.id !in s.owner && msg.id !in s.owner && msg.id != ack.id
    requires s.hasSecret && !s.handshook ==> s.holder == None && Carries(parse, Connect, ack, Ack)
    requires Carries(parse, SignEvent, msg, Signed(event))
    ensures Leads(s, parse, CallEvents(s, c, Sign, ack, msg), t)
    ensures t.callers == s.callers[c := Done(Returned(Signed(event)))]
  {
    hide Inv, Leads, Carries, ReadsAuthUrl, CallEvents;
    var u := CallCompletes(s, parse, c, Sign, ack, msg);
    t := Apply(u, parse, Receive(c));
    SignReply(u, parse, c, msg);
    OthersUntouched(u, parse, Receive(c));
    hide Apply;
    assert t.callers[c] == Done(Returned(Signed(event)));
  }
}
