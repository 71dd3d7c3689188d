/** Two more facts about every run of the signer: acknowledgements are real, and the
    handshake cell is not held for long. */
module SignerRuns {
  import opened Base
  import opened Signer

  // ---- acknowledgements ----

  /** The acknowledged connect that ends at `k` was sent, and the message its caller took for
      it reads as an acknowledgement. */
  ghost predicate RealAck(parse: Parser, log: seq<LogItem>, k: nat)
    requires k < |log| && log[k].ConnectEnded?
  {
    exists i, j :: 0 <= i < j < k && log[i] == Sent(Connect, log[k].id) && log[j].Received? && log[j].id == log[k].id
      && ReplyOf(parse, Connect, log[j].msg) == Ok(Ack)
  }

  ghost predicate AcksReal(parse: Parser, log: seq<LogItem>) {
    forall k :: 0 <= k < |log| && IsAck(log[k]) ==> RealAck(parse, log, k)
  }

  /** Whoever waits for a response has sent the request. */
  ghost predicate WaitersSent(s: State) {
    forall c :: c in s.callers && s.callers[c].Waiting? ==> Sent(s.callers[c].m, s.callers[c].id) in s.log
  }

  ghost predicate Honest(parse: Parser, s: State) {
    AcksReal(parse, s.log) && WaitersSent(s)
  }

  lemma AcksAppend(parse: Parser, log: seq<LogItem>, tail: seq<LogItem>)
    requires AcksReal(parse, log)
    requires forall k :: |log| <= k < |log + tail| && IsAck((log + tail)[k]) ==> RealAck(parse, log + tail, k)
    ensures AcksReal(parse, log + tail)
  {
    var more := log + tail;
    hide ReplyOf;
    forall k | 0 <= k < |log| && IsAck(more[k])
      ensures RealAck(parse, more, k)
    {
      assert IsAck(log[k]);
      var i, j :| 0 <= i < j < k && log[i] == Sent(Connect, log[k].id) && log[j].Received? && log[j].id == log[k].id
        && ReplyOf(parse, Connect, log[j].msg) == Ok(Ack);
      assert more[i] == log[i] && more[j] == log[j];
    }
  }

  /** The log grows, by an acknowledgement only when a connecting caller takes one. */
  lemma LogGrows(s: State, parse: Parser, e: Event)
    requires Enabled(s, e)
    ensures s.log <= Apply(s, parse, e).log
    ensures !e.Receive? ==> forall k :: |s.log| <= k < |Apply(s, parse, e).log| ==> !IsAck(Apply(s, parse, e).log[k])
  {
    hide ReplyOf, Taken, GivenUp, Moved;
  }

  lemma ReceiveIsReal(s: State, parse: Parser, c: Caller)
    requires Enabled(s, Receive(c)) && Honest(parse, s)
    ensures AcksReal(parse, Taken(s, parse, c).log)
  {
    var Waiting(op, m, id) := s.callers[c];
    var t := Taken(s, parse, c);
    var got := Received(id, s.answered[id]);
    var tail := t.log[|s.log|..];
    assert t.log == s.log + tail && tail[0] == got;
    assert Sent(m, id) in s.log;
    var i :| 0 <= i < |s.log| && s.log[i] == Sent(m, id);
    forall k | |s.log| <= k < |t.log| && IsAck(t.log[k])
      ensures RealAck(parse, t.log, k)
    {
      assert m == Connect && ReplyOf(parse, Connect, s.answered[id]) == Ok(Ack) && t.log[k].id == id;
      assert t.log[i] == Sent(Connect, id) && t.log[|s.log|] == got && k == |s.log| + 1;
    }
    hide Taken, ReplyOf;
    AcksAppend(parse, s.log, tail);
  }

  lemma WaitersStay(s: State, parse: Parser, e: Event)
    requires Enabled(s, e) && WaitersSent(s)
    ensures WaitersSent(Apply(s, parse, e))
  {
    var t := Apply(s, parse, e);
    LogGrows(s, parse, e);
    OthersUntouched(s, parse, e);
    forall c | c in t.callers && t.callers[c].Waiting?
      ensures Sent(t.callers[c].m, t.callers[c].id) in t.log
    {
      if CallerOf(e) == Some(c) {
        OnlySendWaits(s, parse, e, c);
      } else {
        assert t.callers[c] == s.callers[c];
      }
    }
  }

  lemma OnlySendWaits(s: State, parse: Parser, e: Event, c: Caller)
    requires Enabled(s, e) && CallerOf(e) == Some(c)
    requires c in Apply(s, parse, e).callers && Apply(s, parse, e).callers[c].Waiting?
    ensures e == SendOk(c)
    ensures Sent(Apply(s, parse, e).callers[c].m, Apply(s, parse, e).callers[c].id) in Apply(s, parse, e).log
  {
    hide ReplyOf, Taken, GivenUp;
  }

  lemma StepKeepsHonest(s: State, parse: Parser, e: Event, t: State)
    requires Step(s, parse, e, t) && Honest(parse, s)
    ensures Honest(parse, t)
  {
    LogGrows(s, parse, e);
    if e.Receive? {
      ReceiveIsReal(s, parse, e.c);
    } else {
      hide Apply, Enabled;
      assert t.log == s.log + t.log[|s.log|..];
      AcksAppend(parse, s.log, t.log[|s.log|..]);
    }
    WaitersStay(s, parse, e);
  }

  lemma {:induction false} EveryStateHonest(parse: Parser, states: seq<State>, events: seq<Event>, i: nat)
    requires Run(parse, states, events) && i < |states|
    ensures Honest(parse, states[i])
  {
    hide Step, Honest;
    if i == 0 {
      assert Honest(parse, states[0]) by {
        StartHonest(parse, states[0]);
      }
    } else {
      EveryStateHonest(parse, states, events, i - 1);
      assert Step(states[i - 1], parse, events[i - 1], states[i]);
      StepKeepsHonest(states[i - 1], parse, events[i - 1], states[i]);
    }
  }

  lemma StartHonest(parse: Parser, s: State)
    requires Init(s)
    ensures Honest(parse, s)
  {
  }

  /** `log[j]` comes after a connect was sent and a response to it, which acknowledges it,
      was taken. */
  ghost predicate AfterRealAck(parse: Parser, log: seq<LogItem>, j: int) {
    exists a, b :: 0 <= a < b < j && b < |log| && log[b].Received? && log[a] == Sent(Connect, log[b].id)
      && log[b].msg.error == None && log[b].msg.result.Some? && parse(Connect, log[b].msg.result.value) == Some(Ack)
  }

  /** The handshake is real: with an app secret, whatever needs it is sent only after a
      connect was sent and its own acknowledging response was taken. */
  lemma HandshakeIsReal(parse: Parser, states: seq<State>, events: seq<Event>, i: nat, j: nat)
    requires Run(parse, states, events) && i < |states| && states[i].hasSecret
    requires j < |states[i].log| && states[i].log[j].Sent?
    requires states[i].log[j].m in {GetPublicKey, SignEvent, Nip44Encrypt, Nip44Decrypt}
    ensures AfterRealAck(parse, states[i].log, j)
  {
    hide Run;
    EveryStateHonest(parse, states, events, i);
    HandshakeOrder(parse, states, events, i);
    hide ReplyOf, WaitersSent;
    var log := states[i].log;
    var k :| 0 <= k < j && log[k].ConnectEnded? && log[k].acked;
    RealAckBefore(parse, log, k, j);
  }

  lemma RealAckBefore(parse: Parser, log: seq<LogItem>, k: nat, j: nat)
    requires AcksReal(parse, log) && k < j < |log| && log[k].ConnectEnded? && log[k].acked
    ensures AfterRealAck(parse, log, j)
  {
    hide ReplyOf;
    assert IsAck(log[k]) && RealAck(parse, log, k);
    var a, b :| 0 <= a < b < k && log[a] == Sent(Connect, log[k].id) && log[b].Received? && log[b].id == log[k].id
      && ReplyOf(parse, Connect, log[b].msg) == Ok(Ack);
    AckReads(parse, log[b].msg);
  }

  lemma AckReads(parse: Parser, msg: Message)
    requires ReplyOf(parse, Connect, msg) == Ok(Ack)
    ensures msg.error == None && msg.result.Some? && parse(Connect, msg.result.value) == Some(Ack)
  {
  }

  // ---- the handshake cell ----

  /** How many of the events are steps of `d`. */
  function StepsOf(events: seq<Event>, d: Caller): nat {
    if events == [] then 0 else
      StepsOf(events[..|events| - 1], d) + if CallerOf(events[|events| - 1]) == Some(d) then 1 else 0
  }

  /** In every run: as long as a caller holds the handshake cell it takes at most one step,
      the send. Its next one, be it a reply, an error or the timeout, frees the cell. */
  lemma {:induction false} HolderSteps(parse: Parser, states: seq<State>, events: seq<Event>, i: nat, j: nat, d: Caller)
    requires Run(parse, states, events) && i <= j < |states|
    requires forall k :: i <= k <= j ==> states[k].holder == Some(d)
    ensures StepsOf(events[i..j], d) + CellRank(states[j]) <= CellRank(states[i]) <= 2
    ensures StepsOf(events[i..j], d) <= 1
    decreases j
  {
    hide Step, Init, Inv;
    if i < j {
      HolderSteps(parse, states, events, i, j - 1, d);
      EveryStateKeepsInv(parse, states, events, j - 1);
      assert Step(states[j - 1], parse, events[j - 1], states[j]);
      assert events[i..j][..j - 1 - i] == events[i..j - 1];
      StepRank(states[j - 1], parse, events[j - 1], states[j]);
    }
  }

  lemma StepRank(s: State, parse: Parser, e: Event, t: State)
    requires Step(s, parse, e, t) && Inv(s) && s.holder.Some?
    ensures CellRank(t) <= CellRank(s) && (CallerOf(e) == s.holder ==> CellRank(t) < CellRank(s))
  {
    hide Apply, Inv;
    HolderAdvances(s, parse, e);
  }
}
