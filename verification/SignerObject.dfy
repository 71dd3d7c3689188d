/** The signer object (src/nip46/signer.rs): the stretches of code its tasks run between
    two suspension points. A request's task and the response handler share a one-shot
    channel; `View` is what the state machine in `Signer` sees of all that, and each method
    takes one of its steps. */
module SignerObject {
  import opened Base
  import opened Signer

  /** A one-shot channel, empty until its single message is sent. */
  class OneShot {
    var message: Option<Message>
    /** The request it was opened for. */
    ghost const id: Id

    constructor (ghost id: Id)
      ensures message == None && this.id == id
    {
      message := None;
      this.id := id;
    }
  }

  /** The channels themselves. */
  ghost function Opened(channels: map<Id, OneShot>): set<OneShot> {
    set id | id in channels :: channels[id]
  }

  lemma OpenedPush(channels: map<Id, OneShot>, id: Id, channel: OneShot)
    requires id !in channels
    ensures Opened(channels[id := channel]) == Opened(channels) + {channel}
  {
    var more := channels[id := channel];
    assert more[id] == channel;
    forall o | o in Opened(channels)
      ensures o in Opened(more)
    {
      var i :| i in channels && channels[i] == o;
      assert more[i] == o;
    }
  }

  /** Each request has a channel of its own, whose sending end is in the pending map as long
      as the request is awaited. */
  ghost predicate Wired(channels: map<Id, OneShot>, pending: map<Id, OneShot>, owner: map<Id, Caller>,
                        awaited: map<Id, Caller>, answered: map<Id, Message>) {
    && channels.Keys == owner.Keys && pending.Keys == awaited.Keys && answered.Keys <= owner.Keys
    && (forall id :: id in channels ==> channels[id].id == id)
    && (forall id :: id in pending ==> id in channels && pending[id] == channels[id])
  }

  /** Each task holds the receiving end of its own request's channel. */
  ghost predicate Linked(callers: map<Caller, Pc>, receivers: map<Caller, OneShot>, channels: map<Id, OneShot>) {
    forall c :: c in callers && Registered(callers[c]) ==>
      c in receivers && callers[c].id in channels && receivers[c] == channels[callers[c].id]
  }

  lemma WiredPush(channels: map<Id, OneShot>, pending: map<Id, OneShot>, owner: map<Id, Caller>,
                  awaited: map<Id, Caller>, answered: map<Id, Message>, channel: OneShot, c: Caller)
    requires Wired(channels, pending, owner, awaited, answered) && channel.id !in owner
    ensures Wired(channels[channel.id := channel], pending[channel.id := channel], owner[channel.id := c],
                  awaited[channel.id := c], answered)
  {
  }

  lemma WiredIds(channels: map<Id, OneShot>, pending: map<Id, OneShot>, owner: map<Id, Caller>,
                 awaited: map<Id, Caller>, answered: map<Id, Message>)
    requires Wired(channels, pending, owner, awaited, answered)
    ensures channels.Keys == owner.Keys && answered.Keys <= owner.Keys
  {
  }

  lemma LinkedPush(callers: map<Caller, Pc>, receivers: map<Caller, OneShot>, channels: map<Id, OneShot>, id: Id,
                   channel: OneShot)
    requires Linked(callers, receivers, channels) && id !in channels
    ensures Linked(callers, receivers, channels[id := channel])
  {
  }

  lemma LinkedHold(callers: map<Caller, Pc>, receivers: map<Caller, OneShot>, channels: map<Id, OneShot>, c: Caller,
                   pc: Pc)
    requires Linked(callers, receivers, channels) && Registered(pc) && pc.id in channels
    ensures Linked(callers[c := pc], receivers[c := channels[pc.id]], channels)
  {
  }

  /** A task that moves on within its request, or ends it, keeps its channel. */
  lemma LinkedMove(callers: map<Caller, Pc>, receivers: map<Caller, OneShot>, channels: map<Id, OneShot>, c: Caller,
                   pc: Pc)
    requires Linked(callers, receivers, channels)
    requires Registered(pc) ==> c in callers && Registered(callers[c]) && callers[c].id == pc.id
    ensures Linked(callers[c := pc], receivers, channels)
  {
  }

  lemma WiredTake(channels: map<Id, OneShot>, pending: map<Id, OneShot>, owner: map<Id, Caller>,
                  awaited: map<Id, Caller>, answered: map<Id, Message>, msg: Message)
    requires Wired(channels, pending, owner, awaited, answered)
    ensures msg.id in pending <==> msg.id in awaited
    ensures msg.id in pending ==> msg.id in channels
    ensures msg.id in pending ==> channels[msg.id] == pending[msg.id] && pending[msg.id] in Opened(channels)
    ensures msg.id in pending ==> forall i :: i in channels && i != msg.id ==> channels[i] != pending[msg.id]
    ensures msg.id in pending ==>
      Wired(channels, pending - {msg.id}, owner, awaited - {msg.id}, answered[msg.id := msg])
  {
  }

  class BunkerSigner {
    const hasSecret: bool
    const parse: Parser
    /** The sending ends, by request id. */
    var pending: map<Id, OneShot>
    /** The receiving end each task holds. */
    var receivers: map<Caller, OneShot>
    /** The `handshook` cell and the task now initialising it. */
    var handshook: bool
    var holder: Option<Caller>
    /** The `user_pubkey` cell. */
    var userKey: Option<Key>
    /** Where each task is. */
    var callers: map<Caller, Pc>
    /** Every channel ever opened, who opened it, whose sending end is still pending, and
        the messages sent through them. */
    ghost var channels: map<Id, OneShot>
    ghost var owner: map<Id, Caller>
    ghost var awaited: map<Id, Caller>
    ghost var answered: map<Id, Message>
    ghost var sent: set<Id>
    ghost var network: set<Message>
    ghost var log: seq<LogItem>

    ghost function View(): Signer.State
      reads this
    {
      Signer.State(hasSecret, awaited, owner, answered, sent, network, handshook, holder, userKey, callers, log)
    }

    /** Every channel holds the answer to its request once there is one. */
    ghost predicate Delivered()
      reads this`channels, this`answered, Opened(channels)
    {
      forall id :: id in channels ==> channels[id].message == if id in answered then Some(answered[id]) else None
    }

    ghost predicate Consistent()
      reads this, Opened(channels)
    {
      && Wired(channels, pending, owner, awaited, answered) && Linked(callers, receivers, channels)
      && Delivered()
    }

    ghost predicate Valid()
      reads this, Opened(channels)
    {
      Consistent() && Inv(View())
    }

    /** From a `bunker://` URI, with or without an app secret. */
    constructor FromUri(hasSecret: bool, parse: Parser)
      ensures this.hasSecret == hasSecret && this.parse == parse
      ensures Init(View()) && Valid() && !handshook && userKey == None && channels == map[]
    {
      this.hasSecret, this.parse := hasSecret, parse;
      pending, receivers, callers := map[], map[], map[];
      handshook, holder, userKey := false, None, None;
      channels, owner, awaited, answered := map[], map[], map[], map[];
      sent, network, log := {}, {}, [];
      new;
      InitInv(View());
    }

    /** From a stored pairing: no secret, the handshake preset, the user key when known. */
    constructor Paired(userKey: Option<Key>, parse: Parser)
      ensures !hasSecret && this.parse == parse
      ensures Init(View()) && Valid() && handshook && this.userKey == userKey && channels == map[]
    {
      this.hasSecret, this.parse := false, parse;
      pending, receivers, callers := map[], map[], map[];
      handshook, holder, this.userKey := true, None, userKey;
      channels, owner, awaited, answered := map[], map[], map[], map[];
      sent, network, log := {}, {}, [];
      new;
      InitInv(View());
    }

    /** A task moves on within its request, or ends it. */
    method MoveTo(c: Caller, pc: Pc)
      requires Consistent() && c in callers
      requires Registered(pc) ==> Registered(callers[c]) && callers[c].id == pc.id
      modifies this`callers
      ensures Consistent() && callers == old(callers)[c := pc]
    {
      LinkedMove(callers, receivers, channels, c, pc);
      hide Wired, Linked;
      callers := callers[c := pc];
    }

    /** Take the sending end for the message's id out of the map, and send. */
    method Deliver(msg: Message)
      requires Consistent() && msg.id in pending
      modifies this`pending, this`awaited, this`answered, Opened(channels)
      ensures Consistent() && awaited == old(awaited) - {msg.id} && answered == old(answered)[msg.id := msg]
    {
      hide Wired, Linked, Opened;
      WiredTake(channels, pending, owner, awaited, answered, msg);
      var tx := pending[msg.id];
      pending, awaited := pending - {msg.id}, awaited - {msg.id};
      tx.message := Some(msg);
      answered := answered[msg.id := msg];
    }

    /** A decrypted response arrives: if a request waits for its id, complete it. */
    method DispatchResponse(msg: Message)
      requires Valid() && Enabled(View(), Dispatch(msg))
      modifies this`pending, this`awaited, this`answered, Opened(channels)
      ensures Valid() && Step(old(View()), parse, Dispatch(msg), View())
    {
      WiredTake(channels, pending, owner, awaited, answered, msg);
      hide Inv, Consistent;
      if msg.id in pending {
        Deliver(msg);
      }
      StepInv(old(View()), parse, Dispatch(msg), View());
    }

    /** The start of every operation: `user_public_key` looks in its cell first, and
        `ensure_handshake` returns at once without a secret. */
    method BeginOp(c: Caller)
      requires Valid() && Enabled(View(), Begin(c))
      modifies this`callers
      ensures Valid() && Step(old(View()), parse, Begin(c), View())
    {
      hide Inv, Wired, Linked;
      var op := callers[c].op;
      if op.UserKey? && userKey.Some? {
        MoveTo(c, Done(Returned(PublicKey(userKey.value))));
      } else if op.Refresh? || !hasSecret {
        MoveTo(c, Ready(op));
      } else {
        MoveTo(c, AtHandshake(op));
      }
      StepInv(old(View()), parse, Begin(c), View());
    }

    /** `get_or_try_init` on the handshake cell: go on when it is set, wait while another
        task initialises it, or become the one that does and register a connect. */
    method EnsureHandshake(c: Caller, id: Id) returns (moved: bool)
      requires Valid() && c in callers && callers[c].AtHandshake? && id !in owner
      modifies this`callers, this`receivers, this`pending, this`holder, this`channels, this`owner,
        this`awaited
      ensures Valid() && fresh(Opened(channels) - old(Opened(channels)))
      ensures old(handshook) ==> moved && Step(old(View()), parse, PassHandshake(c), View())
      ensures !old(handshook) && old(holder) == None ==> moved && Step(old(View()), parse, BeginConnect(c, id), View())
      ensures !old(handshook) && old(holder).Some? ==> !moved && View() == old(View())
    {
      hide Inv, Wired, Linked;
      var op := callers[c].op;
      if handshook {
        MoveTo(c, Ready(op));
        StepInv(old(View()), parse, PassHandshake(c), View());
        return true;
      }
      if holder.Some? {
        return false;
      }
      RegisterRequest(c, op, Connect, id);
      holder := Some(c);
      StepInv(old(View()), parse, BeginConnect(c, id), View());
      moved := true;
    }

    /** Open a channel and insert its sending end. */
    method OpenChannel(c: Caller, id: Id) returns (channel: OneShot)
      requires Consistent() && id !in owner
      modifies this`pending, this`channels, this`owner, this`awaited
      ensures Consistent() && fresh(channel)
      ensures channels == old(channels)[id := channel] && Opened(channels) == old(Opened(channels)) + {channel}
      ensures owner == old(owner)[id := c] && awaited == old(awaited)[id := c]
    {
      WiredIds(channels, pending, owner, awaited, answered);
      channel := new OneShot(id);
      WiredPush(channels, pending, owner, awaited, answered, channel, c);
      LinkedPush(callers, receivers, channels, id, channel);
      assert id !in channels && id !in answered;
      hide Wired, Linked, Opened;
      pending := pending[id := channel];
      channels := channels[id := channel];
      owner, awaited := owner[id := c], awaited[id := c];
      OpenedPush(old(channels), id, channel);
    }

    /** A task takes the receiving end of a request of its own. */
    method Hold(c: Caller, channel: OneShot, pc: Pc)
      requires Consistent() && Registered(pc) && pc.id in channels && channels[pc.id] == channel
      modifies this`callers, this`receivers
      ensures Consistent() && callers == old(callers)[c := pc]
    {
      LinkedHold(callers, receivers, channels, c, pc);
      hide Wired, Linked;
      receivers := receivers[c := channel];
      callers := callers[c := pc];
    }

    /** The start of a request: its channel is registered before anything is sent. */
    method RegisterRequest(c: Caller, op: Op, m: Method, id: Id)
      requires Consistent() && c in callers && id !in owner
      modifies this`callers, this`receivers, this`pending, this`channels, this`owner, this`awaited
      ensures Consistent() && id in channels && fresh(channels[id])
      ensures Opened(channels) == old(Opened(channels)) + {channels[id]}
      ensures callers == old(callers)[c := Sending(op, m, id)]
      ensures awaited == old(awaited)[id := c] && owner == old(owner)[id := c]
    {
      hide Consistent, Opened;
      var channel := OpenChannel(c, id);
      Hold(c, channel, Sending(op, m, id));
    }

    /** `rpc` for the operation itself. */
    method BeginRpc(c: Caller, id: Id)
      requires Valid() && Enabled(View(), Register(c, id))
      modifies this`callers, this`receivers, this`pending, this`channels, this`owner, this`awaited
      ensures Valid() && fresh(Opened(channels) - old(Opened(channels)))
      ensures Step(old(View()), parse, Register(c, id), View())
    {
      hide Inv;
      var op := callers[c].op;
      RegisterRequest(c, op, MethodOf(op), id);
      StepInv(old(View()), parse, Register(c, id), View());
    }

    /** The send returns. `accepted` says some relay took the event; a failed send may
        still have `reached` the signer. */
    method FinishSend(c: Caller, accepted: bool, ghost reached: bool)
      requires Valid() && Enabled(View(), SendOk(c))
      modifies this`callers, this`holder, this`sent, this`log
      ensures Valid()
      ensures Step(old(View()), parse, if accepted then SendOk(c) else SendFails(c, reached), View())
    {
      hide Inv, Wired, Linked;
      ghost var e := if accepted then SendOk(c) else SendFails(c, reached);
      var Sending(op, m, id) := callers[c];
      if accepted || reached {
        sent := sent + {id};
        log := log + [Sent(m, id)];
      }
      if accepted {
        MoveTo(c, Waiting(op, m, id));
      } else {
        Fail(c);
      }
      StepInv(old(View()), parse, e, View());
    }

    /** A task ends with an error. The pending entry is not removed. */
    method Fail(c: Caller)
      requires Consistent() && c in callers && !callers[c].Done?
      modifies this`callers, this`holder, this`log
      ensures Consistent() && View() == GivenUp(old(View()), c)
    {
      hide Wired, Linked;
      if Connecting(callers[c]) {
        holder := None;
        log := log + [ConnectEnded(callers[c].id, false)];
      }
      MoveTo(c, Done(Failed));
    }

    /** A timeout, an error before sending, or a dropped future. */
    method GiveUp(c: Caller)
      requires Valid() && Enabled(View(), Abandon(c))
      modifies this`callers, this`holder, this`log
      ensures Valid() && Step(old(View()), parse, Abandon(c), View())
    {
      hide Inv, Wired, Linked;
      Fail(c);
      StepInv(old(View()), parse, Abandon(c), View());
    }

    /** The receiving end yields the message: end the connect, or return from the operation. */
    method TakeReply(c: Caller)
      requires Valid() && Enabled(View(), Receive(c))
      modifies this`callers, this`holder, this`handshook, this`userKey, this`log
      ensures Valid() && Step(old(View()), parse, Receive(c), View())
    {
      hide ReplyOf, Inv, Taken;
      assert receivers[c] == channels[callers[c].id];
      var msg := receivers[c].message.value;
      hide Wired, Linked;
      if callers[c].m.Connect? {
        FinishConnect(c, msg);
      } else {
        FinishCall(c, msg);
      }
      StepInv(old(View()), parse, Receive(c), View());
    }

    /** The handshake cell is set and released, and its task goes on. */
    method SetHandshake(c: Caller)
      requires Consistent() && c in callers && callers[c].Waiting?
      modifies this`callers, this`holder, this`handshook, this`log
      ensures Consistent() && handshook && holder == None
      ensures log == old(log) + [ConnectEnded(old(callers)[c].id, true)]
      ensures callers == old(callers)[c := Ready(old(callers)[c].op)]
    {
      hide Wired, Linked;
      handshook, holder := true, None;
      log := log + [ConnectEnded(callers[c].id, true)];
      MoveTo(c, Ready(callers[c].op));
    }

    /** The rest of `ensure_handshake`: only an acknowledgement sets the cell. */
    method FinishConnect(c: Caller, msg: Message)
      requires Consistent() && Enabled(View(), Receive(c)) && callers[c].m.Connect? && msg == answered[callers[c].id]
      modifies this`callers, this`holder, this`handshook, this`log
      ensures Consistent() && View() == Taken(old(View()), parse, c)
    {
      hide ReplyOf, Wired, Linked, Taken, GivenUp;
      var Waiting(_, m, id) := callers[c];
      ghost var before := View();
      log := log + [Received(id, msg)];
      var result := ReplyOf(parse, m, msg);
      if result == Ok(Ack) {
        TakenAck(before, parse, c);
        SetHandshake(c);
      } else {
        TakenNoAck(before, parse, c);
        Fail(c);
      }
    }

    /** The rest of an operation: return the payload it asked for; a user key is cached. */
    method FinishCall(c: Caller, msg: Message)
      requires Consistent() && Enabled(View(), Receive(c)) && !callers[c].m.Connect? && msg == answered[callers[c].id]
      modifies this`callers, this`holder, this`userKey, this`log
      ensures Consistent() && View() == Taken(old(View()), parse, c)
    {
      hide ReplyOf, Wired, Linked;
      var Waiting(op, m, id) := callers[c];
      log := log + [Received(id, msg)];
      var result := ReplyOf(parse, m, msg);
      if result.Ok? && Answers(op, result.value) {
        if op.UserKey? && userKey.None? {
          userKey := Some(result.value.key);
        }
        MoveTo(c, Done(Returned(result.value)));
      } else {
        Fail(c);
      }
    }
  }
}
