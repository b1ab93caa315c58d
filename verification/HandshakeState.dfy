/** The receive loop's handling of a packet, with its next-event loop, on mutable fields. */
module HandshakeState {
  import opened Common
  import opened Handshake
  import opened SwpEvents

  class Peer {
    const me: Side
    const nonce: string
    var tcp: TcpState
    var remote: Option<Side>
    var remoteNonce: string
    var sndNonce: string
    var pending: bool
    var retry: Retry
    var attempts: nat
    var stopped: bool
    ghost var Ever: bool

    ghost function View(): Endpoint
      reads this
    {
      Endpoint(me, nonce, tcp, remote, remoteNonce, sndNonce, pending, retry, attempts, stopped, Ever)
    }

    constructor (me: Side, nonce: string)
      ensures View() == NewEndpoint(me, nonce)
    {
      this.me, this.nonce, tcp, remote, remoteNonce, sndNonce := me, nonce, Listen, None, "", "";
      pending, retry, attempts, stopped, Ever := false, Idle, 0, false, false;
    }

    method Ack(event: TcpEvent) returns (sent: set<Packet>)
      modifies this`sndNonce
      ensures Result(View(), sent) == AckWith(old(View()), event)
    {
      sent := {Packet(me, nonce, remoteNonce, event, Fresh)};
      if sndNonce == "" {
        sndNonce := remoteNonce;
      }
    }

    /** doTcpAction; `ok` is false where the source panics. */
    method DoTcpAction(act: Action, p: Packet) returns (ok: bool, sent: set<Packet>, next: TcpEvent)
      modifies this`remoteNonce, this`pending, this`sndNonce
      ensures ok == DoAction(old(View()), act, p).Acted?
      ensures ok ==> Acted(View(), sent, next) == DoAction(old(View()), act, p)
    {
      ok, sent, next := true, {}, EventNil;
      match act
      case NoAction =>
      case SendDataAck => sent := Ack(EventDataAck);
      case SendSyn => sent := Ack(EventSyn);
      case SendSynAck =>
        if remoteNonce != "" && remoteNonce != p.fromNonce {
          ok := false;
        } else {
          remoteNonce := p.fromNonce;
          sent := Ack(EventSynAck);
        }
      case SendEstabAck =>
        if remoteNonce != "" || !pending {
          ok := false;
        } else {
          remoteNonce, pending := p.fromNonce, false;
          sent := Ack(EventEstabAck);
        }
      case SendFin => sent := Ack(EventFin);
      case SendFinAck => sent := Ack(EventFinAck);
      case DoAppClose =>
        sent := Ack(EventFinAck);
        next := EventApplicationClosed;
    }

    /** One event through the state machine, the retry setup and the action. */
    method DoEvent(event: TcpEvent, p: Packet) returns (ok: bool, sent: set<Packet>, next: TcpEvent)
      modifies this
      ensures ok == Pass(old(View()), event, p).Acted?
      ensures ok ==> Acted(View(), sent, next) == Pass(old(View()), event, p)
    {
      var before := tcp;
      var u := UpdateTcp(tcp, event, p.fromState);
      tcp := u.state;
      Ever := Ever || tcp == Established;
      if before != tcp {
        if IsRetryState(tcp) {
          retry := Armed(tcp, u.act, p);
        } else {
          retry := Idle;
        }
      }
      ok, sent, next := DoTcpAction(u.act, p);
    }

    /** Events until none is raised. */
    method DoEvents(p: Packet) returns (ok: bool, sent: set<Packet>, passes: nat)
      modifies this
      ensures ok == Handle(old(View()), p.event, p).Handled?
      ensures ok ==> Handled(View(), sent, passes) == Handle(old(View()), p.event, p)
    {
      ok, sent, passes := true, {}, 0;
      var event, more := p.event, true;
      ghost var whole := Handle(View(), p.event, p);
      ContinuesStart(whole);
      while more
        invariant ok
        invariant more ==> Continues(whole, Handle(View(), event, p), sent, passes)
        invariant !more ==> whole == Handled(View(), sent, passes)
        decreases more, if event == EventFin then 1 else 0
      {
        var news, next;
        ghost var e := View();
        PassNext(e, event, p);
        ok, news, next := DoEvent(event, p);
        ContinuesStep(whole, e, event, p, sent, passes);
        if !ok {
          return;
        }
        event, sent, passes, more := next, sent + news, passes + 1, next != EventNil;
      }
    }

    /** Lock onto the first peer that sends a SYN. */
    method LockOnto(p: Packet)
      modifies this`remote, this`remoteNonce
      ensures View() == LockOn(old(View()), p)
    {
      if p.event == EventSyn && (tcp == Fresh || tcp == Listen) && remote == None {
        remote, remoteNonce := Some(p.from), p.fromNonce;
      }
    }

    /** The session filters. */
    method Admits(p: Packet) returns (ok: bool)
      ensures ok == Admitted(View(), p)
    {
      if remote.Some? && p.from != remote.value {
        return false;
      }
      if (p.destNonce != "" || InSession(tcp)) && p.destNonce != nonce {
        return false;
      }
      ok := remoteNonce == "" || p.fromNonce == remoteNonce;
    }

    /** A packet: lock on, filter, then its events; the loop is left in Closed. */
    method ReceivePacket(p: Packet) returns (ok: bool, sent: set<Packet>, passes: nat)
      modifies this
      ensures ok == Receive(old(View()), p).Handled?
      ensures ok ==> Handled(View(), sent, passes) == Receive(old(View()), p) && passes <= 2
    {
      ghost var e := View();
      AtMostTwoPasses(e, p);
      ReceiveIs(e, p);
      ok, sent, passes := true, {}, 0;
      if stopped {
        return;
      }
      LockOnto(p);
      var mine := Admits(p);
      if !mine || p.event == EventData {
        return;
      }
      ghost var h := Handle(View(), p.event, p);
      ok, sent, passes := DoEvents(p);
      if ok {
        assert h == Handled(View(), sent, passes);
        stopped := tcp == Closed;
      }
    }

    /** A connect request: a SYN, unless the session is past that. */
    method ConnectRequest() returns (sent: set<Packet>)
      modifies this`remote, this`pending, this`tcp
      ensures Result(View(), sent) == Connect(old(View()))
    {
      sent := {};
      if stopped {
        return;
      }
      if remote.Some? && remote.value != Other(me) {
        return;
      }
      remote := Some(Other(me));
      if tcp != Listen && tcp != SynSent {
        return;
      }
      pending := true;
      sent := {Packet(me, nonce, "", EventSyn, Fresh)};
      tcp := SynSent;
    }

    /** The retry timer goes off; `ok` is false where the source panics. */
    method CheckRetry() returns (ok: bool, sent: set<Packet>)
      modifies this
      ensures ok == RetryCheck(old(View())).Result?
      ensures ok ==> Result(View(), sent) == RetryCheck(old(View()))
    {
      ok, sent := true, {};
      if stopped || retry.Idle? {
        return;
      }
      if retry.state != tcp {
        retry := Idle;
        return;
      }
      attempts := attempts + 1;
      if attempts > 10 {
        retry, stopped := Idle, true;
        return;
      }
      var next;
      ok, sent, next := DoTcpAction(retry.act, retry.pack);
    }
  }

  lemma ReceiveIs(e: Endpoint, p: Packet)
    ensures var f := LockOn(e, p);
      && (e.stopped ==> Receive(e, p) == Handled(e, {}, 0))
      && (!e.stopped && (!Admitted(f, p) || p.event == EventData) ==> Receive(e, p) == Handled(f, {}, 0))
      && (!e.stopped && Admitted(f, p) && p.event != EventData ==> Receive(e, p) == Leave(Handle(f, p.event, p)))
  {
  }

  /** The receive loop is left in Closed. */
  function Leave(h: Handled): Handled {
    match h
    case HandlePanic => HandlePanic
    case Handled(g, sent, n) => Handled(g.(stopped := g.tcp == Closed), sent, n)
  }

  /** What is still to come, on top of what has been sent. */
  ghost predicate Continues(whole: Handled, rest: Handled, sent: set<Packet>, passes: nat) {
    match rest
    case HandlePanic => whole == HandlePanic
    case Handled(e, more, n) => whole == Handled(e, sent + more, passes + n)
  }

  lemma ContinuesStart(whole: Handled)
    ensures Continues(whole, whole, {}, 0)
  {
    if whole.Handled? {
      assert {} + whole.sent == whole.sent;
    }
  }

  lemma ContinuesStep(whole: Handled, e: Endpoint, event: TcpEvent, p: Packet, sent: set<Packet>, passes: nat)
    requires Continues(whole, Handle(e, event, p), sent, passes)
    ensures match Pass(e, event, p)
      case Failed => whole == HandlePanic
      case Acted(f, news, next) =>
        if next == EventNil then whole == Handled(f, sent + news, passes + 1)
        else Continues(whole, Handle(f, next, p), sent + news, passes + 1)
  {
    match Pass(e, event, p)
    case Failed =>
    case Acted(f, news, next) =>
      if next != EventNil {
        match Handle(f, next, p)
        case HandlePanic =>
        case Handled(g, more, n) => assert sent + (news + more) == (sent + news) + more;
      }
  }
}
