/**
 That a session opens and closes: the packets of the exchange written out, and from every state
 that any run reaches with both ends alive, a way to the point where both are established.
 */
module HandshakeProgress {
  import opened Common
  import opened SwpEvents
  import opened Handshake

  function Syn(na: string): Packet {
    Packet(Connector, na, "", EventSyn, Fresh)
  }

  function SynAck(na: string, nb: string): Packet {
    Packet(Listener, nb, na, EventSynAck, Fresh)
  }

  function EstabAck(na: string, nb: string): Packet {
    Packet(Connector, na, nb, EventEstabAck, Fresh)
  }

  // ---------- the exchange ----------

  /** The four steps that open a session, from the start: a SYN, a SYN ACK and an EstabAck later
      both ends are established and hold each other's nonce, and nothing else was sent. */
  lemma SessionOpens(na: string, nb: string)
    requires na != "" && nb != ""
    ensures var run := [Opens, Arrives(Listener, Packet(Connector, na, "", EventSyn, Fresh)),
                        Arrives(Connector, Packet(Listener, nb, na, EventSynAck, Fresh)),
                        Arrives(Listener, Packet(Connector, na, nb, EventEstabAck, Fresh))];
      var s := After(na, nb, run);
      && s.a.tcp == Established && s.b.tcp == Established
      && s.a.remoteNonce == nb && s.b.remoteNonce == na
      && s.net == {Syn(na), SynAck(na, nb), EstabAck(na, nb)}
  {
    var t1, t2 := Opens, Arrives(Listener, Syn(na));
    var t3, t4 := Arrives(Connector, SynAck(na, nb)), Arrives(Listener, EstabAck(na, nb));
    FirstSteps(na, nb);
    ThirdStep(na, nb);
    FourthStep(na, nb);
    TwoSteps(na, nb, [], t1, t2);
    TwoSteps(na, nb, [t1, t2], t3, t4);
    ConcatNothing([t1, t2]);
    assert [t1, t2] + [t3, t4] == [t1, t2, t3, t4];
  }

  /** The two ends half way: the listener waits, its timer armed. */
  function HalfOpen(na: string, nb: string): System {
    var a := NewEndpoint(Connector, na).(remote := Some(Listener), pending := true, tcp := SynSent);
    var b := NewEndpoint(Listener, nb).(remote := Some(Connector), remoteNonce := na, sndNonce := na,
                                        tcp := SynReceived, retry := Armed(SynReceived, SendSynAck, Syn(na)));
    System(a, b, {Syn(na), SynAck(na, nb)}, false)
  }

  lemma FirstStep(na: string, nb: string)
    ensures var a := NewEndpoint(Connector, na).(remote := Some(Listener), pending := true, tcp := SynSent);
      Next(Start(na, nb), Opens) == System(a, NewEndpoint(Listener, nb), {Syn(na)}, false)
  {
    assert {} + {Syn(na)} == {Syn(na)};
  }

  lemma FirstSteps(na: string, nb: string)
    requires na != "" && nb != ""
    ensures Next(Next(Start(na, nb), Opens), Arrives(Listener, Syn(na))) == HalfOpen(na, nb)
  {
    FirstStep(na, nb);
    SynReceives(LockOn(NewEndpoint(Listener, nb), Syn(na)), Syn(na));
  }

  /** The connector is established, the listener not yet. */
  function AlmostOpen(na: string, nb: string): System {
    var h := HalfOpen(na, nb);
    System(h.a.(tcp := Established, ever := true, remoteNonce := nb, sndNonce := nb, pending := false), h.b,
           {Syn(na), SynAck(na, nb), EstabAck(na, nb)}, false)
  }

  lemma ThirdStep(na: string, nb: string)
    requires na != "" && nb != ""
    ensures Next(HalfOpen(na, nb), Arrives(Connector, SynAck(na, nb))) == AlmostOpen(na, nb)
  {
    SynAckEstablishes(HalfOpen(na, nb).a, SynAck(na, nb));
  }

  lemma FourthStep(na: string, nb: string)
    requires na != "" && nb != ""
    ensures var s := Next(AlmostOpen(na, nb), Arrives(Listener, EstabAck(na, nb)));
      && s.a == AlmostOpen(na, nb).a && s.b.tcp == Established && s.b.remoteNonce == na
      && s.net == AlmostOpen(na, nb).net
  {
    ListenerEstablishes(AlmostOpen(na, nb).b, EstabAck(na, nb));
  }

  lemma AfterSnoc(na: string, nb: string, run: seq<Step>, t: Step)
    ensures After(na, nb, run + [t]) == Next(After(na, nb, run), t)
  {
    SplitLast(run, [t]);
    ConcatNothing(run);
  }

  // ---------- what every run keeps besides ----------

  predicate ConnectorMore(a: Endpoint, nb: string) {
    && (a.remote.Some? ==> a.remote.value == Listener)
    && (a.tcp == Established ==> a.sndNonce == nb)
    && (a.tcp == Listen || a.tcp == SynSent ==> !a.ever)
  }

  predicate ListenerMore(b: Endpoint) {
    && (b.remote.Some? ==> b.remote.value == Connector)
    && (b.tcp == Listen ==> b.remoteNonce == "")
    && (b.tcp == SynReceived || b.tcp == Established ==> b.sndNonce == b.remoteNonce)
    && (b.retry.Armed? <==> b.tcp == SynReceived && !b.stopped)
  }

  /** The further facts: who is locked onto whom, when the timer runs, and that a listener that
      waits for the connector has sent its SYN ACK. */
  predicate More(s: System, na: string, nb: string) {
    && ConnectorMore(s.a, nb) && ListenerMore(s.b)
    && (s.b.tcp == SynReceived ==> SynAck(na, nb) in s.net)
  }

  lemma ConnectorReceivesMore(a: Endpoint, p: Packet, na: string, nb: string)
    requires ConnectorOk(a, na, nb) && ConnectorMore(a, nb) && FromListener(p, na, nb, true)
    ensures Receive(a, p).Handled? && ConnectorMore(Receive(a, p).e, nb)
  {
    assert LockOn(a, p) == a;
    if !a.stopped && Admitted(a, p) && p.event != EventData {
      if p.event == EventFin {
        FinCloses(a, p);
      } else if a.tcp == SynSent && p.event == EventSynAck {
        SynAckEstablishes(a, p);
      } else if a.tcp == Established && p.event == EventKeepAlive {
        KeepAliveAcked(a, p);
      } else {
        ConnectorQuiet(a, p, na, nb);
        NothingHappens(a, p);
      }
    }
  }

  /** A SYN that finds the listener waiting is answered. */
  lemma SynAnswered(b: Endpoint, p: Packet, na: string, nb: string)
    requires ListenerOk(b, na, nb) && ListenerMore(b) && b.tcp == Listen && !b.stopped && na != ""
    requires p.from == Connector && p.fromNonce == na && p.event == EventSyn && (p.destNonce == "" || p.destNonce == nb)
    ensures var h := Receive(b, p);
      && h.Handled? && h.e.tcp == SynReceived && h.e.remoteNonce == na && h.e.retry.Armed?
      && h.e.sndNonce == na && h.e.remote == Some(Connector) && !h.e.stopped && h.sent == {SynAck(na, nb)}
  {
    SynReceives(LockOn(b, p), p);
  }

  lemma ListenerReceivesMore(b: Endpoint, p: Packet, na: string, nb: string, aEver: bool)
    requires ListenerOk(b, na, nb) && ListenerMore(b) && na != ""
    requires FromConnector(p, na, nb, aEver) && p.from == Connector
    ensures var h := Receive(b, p);
      && h.Handled? && ListenerMore(h.e)
      && (h.e.tcp == SynReceived && b.tcp != SynReceived ==> SynAck(na, nb) in h.sent)
  {
    if !b.stopped && b.tcp == Listen && p.event == EventSyn {
      SynAnswered(b, p, na, nb);
    } else if !b.stopped && Admitted(b, p) && p.event != EventData {
      assert LockOn(b, p) == b;
      if p.event == EventFin {
        FinCloses(b, p);
      } else if b.tcp == SynReceived && Establishes(p) {
        ListenerEstablishes(b, p);
      } else if b.tcp == Established && p.event == EventKeepAlive {
        KeepAliveAcked(b, p);
      } else {
        ListenerQuiet(b, p, na, nb, aEver);
        NothingHappens(b, p);
      }
    }
  }

  lemma ArrivesMore(s: System, side: Side, p: Packet, na: string, nb: string)
    requires Inv(s, na, nb) && More(s, na, nb) && na != "" && p in s.net && p.from == Other(side)
    ensures More(Put(s, side, Outcome(Receive(At(s, side), p))), na, nb)
  {
    if side == Connector {
      ConnectorReceivesMore(s.a, p, na, nb);
    } else {
      ListenerReceivesMore(s.b, p, na, nb, s.a.ever);
    }
  }

  /** A waiting listener repeats its SYN ACK, or gives up. */
  lemma RetryKeeps(b: Endpoint, na: string, nb: string)
    requires ListenerOk(b, na, nb) && ListenerMore(b)
    ensures RetryCheck(b).Result? && ListenerMore(RetryCheck(b).e) && RetryCheck(b).e.tcp == b.tcp
  {
  }

  lemma RetriesMore(s: System, side: Side, na: string, nb: string)
    requires Inv(s, na, nb) && More(s, na, nb)
    ensures More(Put(s, side, RetryCheck(At(s, side))), na, nb)
  {
    if side == Connector {
      assert RetryCheck(s.a) == Result(s.a, {});
    } else {
      RetryKeeps(s.b, na, nb);
    }
  }

  lemma StepMore(s: System, t: Step, na: string, nb: string)
    requires Inv(s, na, nb) && More(s, na, nb) && na != ""
    ensures More(Next(s, t), na, nb)
  {
    match t
    case Opens =>
    case Arrives(side, p) =>
      if p in s.net && p.from == Other(side) {
        ArrivesMore(s, side, p, na, nb);
      }
    case Retries(side) => RetriesMore(s, side, na, nb);
    case Reports(side) =>
    case Emits(side, event) =>
  }

  lemma {:induction false} RunMore(na: string, nb: string, run: seq<Step>)
    requires na != "" && nb != ""
    ensures More(After(na, nb, run), na, nb)
  {
    if run != [] {
      RunMore(na, nb, run[..|run| - 1]);
      RunInv(na, nb, run[..|run| - 1]);
      StepMore(After(na, nb, run[..|run| - 1]), run[|run| - 1], na, nb);
    }
  }

  // ---------- every step of the exchange, wherever it happens ----------

  /** A connect request of a connector that is not established puts a SYN into the network. */
  lemma OpensSendsSyn(na: string, nb: string, run: seq<Step>)
    requires na != "" && nb != ""
    requires var a := After(na, nb, run).a; !a.stopped && (a.tcp == Listen || a.tcp == SynSent)
    ensures var t := After(na, nb, run + [Opens]);
      && Packet(Connector, na, "", EventSyn, Fresh) in t.net
      && t.a.tcp == SynSent && t.a.pending && !t.a.stopped && t.b == After(na, nb, run).b
  {
    RunInv(na, nb, run);
    RunMore(na, nb, run);
    AfterSnoc(na, nb, run, Opens);
  }

  /** A listener that waits for the connector repeats its SYN ACK, up to ten times; then it gives up. */
  lemma RetriesSendSynAck(na: string, nb: string, run: seq<Step>)
    requires na != "" && nb != ""
    requires var b := After(na, nb, run).b; b.tcp == SynReceived && !b.stopped
    ensures var b, t := After(na, nb, run).b, Next(After(na, nb, run).(net := {}), Retries(Listener));
      && t.b.tcp == SynReceived && t.b.attempts == b.attempts + 1
      && if b.attempts < 10
         then t.net == {Packet(Listener, nb, na, EventSynAck, Fresh)} && !t.b.stopped
         else t.net == {} && t.b.stopped
  {
    RunInv(na, nb, run);
    RunMore(na, nb, run);
  }

  // ---------- from anywhere to an open session ----------

  /** A waiting connector that the SYN ACK reaches is established. */
  lemma SynAckArrives(s: System, na: string, nb: string)
    requires Inv(s, na, nb) && More(s, na, nb) && na != "" && nb != ""
    requires s.a.tcp == SynSent && !s.a.stopped && SynAck(na, nb) in s.net
    ensures var t := Next(s, Arrives(Connector, SynAck(na, nb)));
      t.a.tcp == Established && !t.a.stopped && t.a.sndNonce == nb && t.b == s.b
  {
    SynAckEstablishes(s.a, SynAck(na, nb));
  }

  /** An established connector's keepalive establishes a waiting listener. */
  lemma ReportEstablishes(s: System, na: string, nb: string)
    requires Inv(s, na, nb) && More(s, na, nb) && na != "" && nb != ""
    requires s.a.tcp == Established && !s.a.stopped && s.b.tcp == SynReceived && !s.b.stopped
    ensures var p := Packet(Connector, na, nb, EventKeepAlive, Established);
      var t := Next(Next(s, Reports(Connector)), Arrives(Listener, p));
      t.a == s.a && t.b.tcp == Established && !t.b.stopped
  {
    var p := Packet(Connector, na, nb, EventKeepAlive, Established);
    ListenerEstablishes(s.b, p);
  }

  lemma SynArrives(s: System, na: string, nb: string)
    requires Inv(s, na, nb) && More(s, na, nb) && na != ""
    requires s.b.tcp == Listen && !s.b.stopped && Syn(na) in s.net
    ensures var t := Next(s, Arrives(Listener, Syn(na)));
      t.a == s.a && t.b.tcp == SynReceived && !t.b.stopped
  {
    SynAnswered(s.b, Syn(na), na, nb);
  }

  ghost predicate Alive(s: System) {
    !s.a.stopped && !s.b.stopped
  }

  /** One or two steps that lead from `run` closer to both ends being established. */
  lemma Closer(na: string, nb: string, run: seq<Step>) returns (more: seq<Step>)
    requires na != "" && nb != "" && Alive(After(na, nb, run)) && Distance(After(na, nb, run)) > 0
    ensures 1 <= |more| <= 2
    ensures Alive(After(na, nb, run + more)) && Distance(After(na, nb, run + more)) < Distance(After(na, nb, run))
  {
    var s := After(na, nb, run);
    RunInv(na, nb, run);
    RunMore(na, nb, run);
    if s.a.tcp == Listen {
      more := [Opens];
      OpensSendsSyn(na, nb, run);
    } else if s.b.tcp == Listen {
      more := [Opens, Arrives(Listener, Syn(na))];
      OpensSendsSyn(na, nb, run);
      RunInv(na, nb, run + [Opens]);
      RunMore(na, nb, run + [Opens]);
      SynArrives(After(na, nb, run + [Opens]), na, nb);
      TwoSteps(na, nb, run, more[0], more[1]);
    } else if s.a.tcp == SynSent {
      more := [Arrives(Connector, SynAck(na, nb))];
      SynAckArrives(s, na, nb);
      AfterSnoc(na, nb, run, more[0]);
    } else {
      more := [Reports(Connector), Arrives(Listener, Packet(Connector, na, nb, EventKeepAlive, Established))];
      ReportEstablishes(s, na, nb);
      TwoSteps(na, nb, run, more[0], more[1]);
    }
  }

  lemma TwoSteps(na: string, nb: string, run: seq<Step>, t1: Step, t2: Step)
    ensures After(na, nb, run + [t1, t2]) == Next(Next(After(na, nb, run), t1), t2)
    ensures After(na, nb, run + [t1]) == Next(After(na, nb, run), t1)
  {
    AfterSnoc(na, nb, run, t1);
    AfterSnoc(na, nb, run + [t1], t2);
    SnocTwo(run, t1, t2);
  }

  /** How many of the four transitions are still to come. */
  function Distance(s: System): nat {
    (if s.a.tcp == Listen then 2 else if s.a.tcp == SynSent then 1 else 0)
    + (if s.b.tcp == Listen then 2 else if s.b.tcp == SynReceived then 1 else 0)
  }

  /** Whatever was lost or repeated so far, as long as neither end has stopped there is a way on that
      leaves both established, each with the other's nonce. */
  lemma {:induction false} CanOpen(na: string, nb: string, run: seq<Step>) returns (more: seq<Step>)
    requires na != "" && nb != "" && Alive(After(na, nb, run))
    ensures var s := After(na, nb, run + more);
      && s.a.tcp == Established && s.b.tcp == Established
      && s.a.remoteNonce == nb && s.b.remoteNonce == na
    decreases Distance(After(na, nb, run))
  {
    RunInv(na, nb, run);
    more := [];
    ConcatNothing(run);
    if Distance(After(na, nb, run)) > 0 {
      var first := Closer(na, nb, run);
      var rest := CanOpen(na, nb, run + first);
      more := first + rest;
      ConcatAssoc(run, first, rest);
    }
  }

  // ---------- other ways to open ----------

  /** The first SYN locks a listener onto its sender for good, even one addressed to another session. */
  lemma FirstSynLocks(e: Endpoint, p: Packet)
    requires e.tcp == Listen && e.remote == None && e.remoteNonce == "" && !e.stopped && p.event == EventSyn
    ensures var h := Receive(e, p);
      && h.Handled? && h.e.remote == Some(p.from) && h.e.remoteNonce == p.fromNonce
      && (h.e.tcp == SynReceived <==> p.destNonce == "" || p.destNonce == e.nonce)
  {
    var f := LockOn(e, p);
    if Admitted(f, p) {
      SynReceives(f, p);
    }
  }

  /** An end that has sent its SYN, not yet answered. */
  function Opening(me: Side, nonce: string): Endpoint {
    NewEndpoint(me, nonce).(remote := Some(Other(me)), pending := true, tcp := SynSent)
  }

  lemma ConnectIs(me: Side, nonce: string)
    ensures Connect(NewEndpoint(me, nonce))
         == Result(Opening(me, nonce), {Packet(me, nonce, "", EventSyn, Fresh)})
  {
  }

  /** A SYN that meets a SYN is acknowledged. */
  lemma SynMeetsSyn(me: Side, nonce: string, other: string)
    requires other != ""
    ensures var p := Packet(Other(me), other, "", EventSyn, Fresh);
      var f := Opening(me, nonce).(tcp := SynReceived, retry := Armed(SynReceived, SendEstabAck, p),
                                   remoteNonce := other, sndNonce := other, pending := false);
      Receive(Opening(me, nonce), p) == Handled(f, {Packet(me, nonce, other, EventEstabAck, Fresh)}, 1)
  {
  }

  /** Two ends that connect to each other at the same time are both established when each has got the
      other's SYN and then the other's acknowledgement. */
  lemma BothConnect(me: Side, nonce: string, other: string)
    requires nonce != "" && other != ""
    ensures var e := Connect(NewEndpoint(me, nonce)).e;
      var f := Receive(e, Packet(Other(me), other, "", EventSyn, Fresh));
      && f.Handled? && f.sent == {Packet(me, nonce, other, EventEstabAck, Fresh)}
      && var g := Receive(f.e, Packet(Other(me), other, nonce, EventEstabAck, Fresh));
         g.Handled? && g.e.tcp == Established && g.e.remoteNonce == other
  {
    ConnectIs(me, nonce);
    SynMeetsSyn(me, nonce, other);
    var f := Receive(Opening(me, nonce), Packet(Other(me), other, "", EventSyn, Fresh)).e;
    ListenerEstablishes(f, Packet(Other(me), other, nonce, EventEstabAck, Fresh));
  }

  /** An end that is told to connect before it listens sends a SYN too, and repeats it. */
  lemma FreshConnects(e: Endpoint, p: Packet)
    requires e.tcp == Fresh
    ensures var h := Handle(e, EventStartConnect, p);
      && h.Handled? && h.e.tcp == SynSent && h.e.retry == Armed(SynSent, SendSyn, p)
      && h.sent == {Packet(e.me, e.nonce, e.remoteNonce, EventSyn, Fresh)}
    ensures Handle(e, EventStartListen, p) == Handled(Moved(e, Listen).(retry := Idle), {}, 1)
  {
  }

  // ---------- other sessions ----------

  function NonceOf(side: Side, na: string, nb: string): string {
    if side == Connector then na else nb
  }

  /** An established end takes no notice of packets of any other session: from another end, with
      another nonce, or addressed to another one. */
  lemma OthersIgnored(na: string, nb: string, run: seq<Step>, side: Side, p: Packet)
    requires na != "" && nb != "" && At(After(na, nb, run), side).tcp == Established
    requires p.fromNonce != NonceOf(Other(side), na, nb) || p.destNonce != NonceOf(side, na, nb)
    ensures var e := At(After(na, nb, run), side);
      Receive(e, p) == Handled(e, {}, 0)
  {
    RunInv(na, nb, run);
  }

  /** An end that is locked onto its peer, in whatever state, takes no notice of anybody else. */
  lemma StrangersIgnored(e: Endpoint, p: Packet)
    requires e.remote.Some? && p.from != e.remote.value
    ensures Receive(e, p) == Handled(e, {}, 0)
  {
  }

  // ---------- closing ----------

  /** What the sender half of an end that has not stopped emits goes to the session. */
  lemma EmitsFin(s: System, side: Side)
    requires !At(s, side).stopped && At(s, side).me == side
    ensures var e, t := At(s, side), Next(s, Emits(side, EventFin));
      && Packet(side, e.nonce, e.sndNonce, EventFin, Fresh) in t.net
      && t.a == s.a && t.b == s.b
  {
  }

  /** An end that a FIN of its session reaches. */
  lemma FinReceived(e: Endpoint, p: Packet)
    requires e.tcp == Listen || e.tcp == SynSent || e.tcp == SynReceived || e.tcp == Established
    requires p.event == EventFin && !e.stopped && Admitted(e, p)
    ensures var h := Receive(e, p);
      && h.Handled? && h.e.tcp == Closed && h.e.stopped
      && Packet(e.me, e.nonce, e.remoteNonce, EventFinAck, Fresh) in h.sent
  {
    assert LockOn(e, p) == e;
    FinCloses(e, p);
  }

  lemma FinAdmitted(s: System, side: Side, p: Packet, na: string, nb: string)
    requires Inv(s, na, nb) && More(s, na, nb) && p in s.net && p.from == Other(side)
    requires p.destNonce == NonceOf(side, na, nb) && !At(s, side).stopped
    ensures var e := At(s, side);
      && Admitted(e, p) && e.me == side && e.nonce == NonceOf(side, na, nb)
      && (e.tcp == Listen || e.tcp == SynSent || e.tcp == SynReceived || e.tcp == Established)
  {
  }

  /** A FIN of the session that reaches an end which has not stopped closes it for good, and is
      answered with a FIN ACK. */
  lemma FinArrives(na: string, nb: string, run: seq<Step>, side: Side, p: Packet)
    requires na != "" && nb != ""
    requires var s := After(na, nb, run);
      && p in s.net && p.from == Other(side) && p.event == EventFin && !At(s, side).stopped
      && p.destNonce == NonceOf(side, na, nb)
    ensures var s := After(na, nb, run);
      var t := Next(s, Arrives(side, p));
      && At(t, side).tcp == Closed && At(t, side).stopped && At(t, Other(side)) == At(s, Other(side))
      && Packet(side, NonceOf(side, na, nb), At(s, side).remoteNonce, EventFinAck, Fresh) in t.net
  {
    var s := After(na, nb, run);
    RunInv(na, nb, run);
    RunMore(na, nb, run);
    FinAdmitted(s, side, p, na, nb);
    FinReceived(At(s, side), p);
  }

  lemma KnowEachOther(s: System, na: string, nb: string, side: Side)
    requires Inv(s, na, nb) && More(s, na, nb) && s.a.tcp == Established && s.b.tcp == Established
    ensures var e := At(s, side);
      e.me == side && e.nonce == NonceOf(side, na, nb) && e.sndNonce == NonceOf(Other(side), na, nb)
  {
  }

  /** With both ends established, either can close the other. */
  lemma EitherCloses(na: string, nb: string, run: seq<Step>, side: Side)
    requires na != "" && nb != "" && Alive(After(na, nb, run))
    requires var s := After(na, nb, run); s.a.tcp == Established && s.b.tcp == Established
    ensures var fin := Packet(side, NonceOf(side, na, nb), NonceOf(Other(side), na, nb), EventFin, Fresh);
      var t := After(na, nb, run + [Emits(side, EventFin), Arrives(Other(side), fin)]);
      At(t, Other(side)).tcp == Closed
  {
    var fin := Packet(side, NonceOf(side, na, nb), NonceOf(Other(side), na, nb), EventFin, Fresh);
    var s := After(na, nb, run);
    RunInv(na, nb, run);
    RunMore(na, nb, run);
    KnowEachOther(s, na, nb, side);
    EmitsFin(s, side);
    TwoSteps(na, nb, run, Emits(side, EventFin), Arrives(Other(side), fin));
    FinArrives(na, nb, run + [Emits(side, EventFin)], Other(side), fin);
  }

  lemma AnswerCloses(e: Endpoint, q: Packet)
    requires e.tcp == CloseInitiatorHasSentFin && (q.event == EventFinAck || q.event == EventFin)
    ensures Handle(e, q.event, q) == Handled(e.(tcp := Closed, retry := Idle), {}, 1)
  {
  }

  lemma CloseStarts(e: Endpoint, p: Packet)
    requires e.tcp == Established
    ensures var f := e.(tcp := CloseInitiatorHasSentFin, retry := Armed(CloseInitiatorHasSentFin, SendFin, p));
      Handle(e, EventStartClose, p) == Handled(Learn(f), {AckPacket(e, EventFin)}, 1)
  {
  }

  /** An end that starts closing sends a FIN and keeps repeating it until the answer, of either kind,
      closes it. */
  lemma StartCloseEnds(e: Endpoint, p: Packet, q: Packet)
    requires e.tcp == Established && (q.event == EventFinAck || q.event == EventFin)
    ensures var h := Handle(e, EventStartClose, p);
      && h.Handled? && h.e.tcp == CloseInitiatorHasSentFin && h.e.retry == Armed(CloseInitiatorHasSentFin, SendFin, p)
      && h.sent == {Packet(e.me, e.nonce, e.remoteNonce, EventFin, Fresh)}
      && Handle(h.e, q.event, q) == Handled(h.e.(tcp := Closed, retry := Idle), {}, 1)
  {
    CloseStarts(e, p);
    AnswerCloses(Handle(e, EventStartClose, p).e, q);
  }
}
