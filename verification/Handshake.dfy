/**
 Opening a session: a connector and a listener over a network that may lose, repeat and reorder
 packets. Packets carry the session nonces of both ends; an endpoint drops what does not belong
 to its session, runs the packet's event through the TCP-like state machine, and carries out the
 action this yields, which may raise a further event.
 */
module Handshake {
  import opened Common
  import opened SwpEvents

  datatype TcpState = Fresh | Closed | Listen | SynReceived | SynSent | Established
                    | CloseInitiatorHasSentFin | CloseResponderGotFin

  datatype Action = NoAction | SendSyn | SendSynAck | SendEstabAck | SendFin | SendFinAck | DoAppClose | SendDataAck

  datatype Update = Update(state: TcpState, act: Action)

  /** UpdateTcp. `from` is the state the sender of a keepalive reports. */
  function UpdateTcp(s: TcpState, e: TcpEvent, from: TcpState): Update {
    match s
    case Closed => Update(Closed, SendFinAck)
    case Fresh =>
      (match e
       case EventStartListen => Update(Listen, NoAction)
       case EventStartConnect => Update(SynSent, SendSyn)
       case _ => Update(s, NoAction))
    case Listen =>
      (match e
       case EventSyn => Update(SynReceived, SendSynAck)
       case EventFin => Update(CloseResponderGotFin, DoAppClose)
       case _ => Update(s, NoAction))
    case SynReceived =>
      (match e
       case EventEstabAck => Update(Established, NoAction)
       case EventKeepAlive => Update(if from == Established then Established else s, NoAction)
       case EventFin => Update(CloseResponderGotFin, DoAppClose)
       case _ => Update(s, NoAction))
    case SynSent =>
      (match e
       case EventSynAck => Update(Established, SendEstabAck)
       case EventSyn => Update(SynReceived, SendEstabAck)
       case EventFin => Update(CloseResponderGotFin, DoAppClose)
       case _ => Update(s, NoAction))
    case Established =>
      (match e
       case EventKeepAlive => Update(s, SendDataAck)
       case EventStartClose => Update(CloseInitiatorHasSentFin, SendFin)
       case EventFin => Update(CloseResponderGotFin, DoAppClose)
       case _ => Update(s, NoAction))
    case CloseInitiatorHasSentFin =>
      (match e
       case EventFinAck => Update(Closed, NoAction)
       case EventFin => Update(Closed, NoAction)
       case _ => Update(s, NoAction))
    case CloseResponderGotFin =>
      (match e
       case EventApplicationClosed => Update(Closed, NoAction)
       case _ => Update(s, NoAction))
  }

  /** Session states in which a packet must name the session: the number is at least Established's. */
  predicate InSession(s: TcpState) {
    s == Established || s == CloseInitiatorHasSentFin || s == CloseResponderGotFin
  }

  predicate IsRetryState(s: TcpState) {
    s == SynSent || s == SynReceived || s == CloseInitiatorHasSentFin
  }

  // ---------- endpoints ----------

  datatype Side = Connector | Listener

  datatype Packet = Packet(from: Side, fromNonce: string, destNonce: string, event: TcpEvent, fromState: TcpState)

  datatype Retry = Idle | Armed(state: TcpState, act: Action, pack: Packet)

  /** `remote` is the peer locked onto; `sndNonce` is the peer's nonce as the sender half knows it;
      history: `ever`, the endpoint has been Established. */
  datatype Endpoint = Endpoint(me: Side, nonce: string, tcp: TcpState, remote: Option<Side>, remoteNonce: string,
                               sndNonce: string, pending: bool, retry: Retry, attempts: nat, stopped: bool, ever: bool)

  datatype Result = Panic | Result(e: Endpoint, sent: set<Packet>)

  function Other(s: Side): Side {
    if s == Connector then Listener else Connector
  }

  /** An ack carries the nonce of the session to the peer; the sender half learns it on the way. */
  function AckWith(e: Endpoint, event: TcpEvent): Result {
    var p := Packet(e.me, e.nonce, e.remoteNonce, event, Fresh);
    Result(e.(sndNonce := if e.sndNonce == "" then e.remoteNonce else e.sndNonce), {p})
  }

  datatype Acted = Failed | Acted(e: Endpoint, sent: set<Packet>, next: TcpEvent)

  function Then(r: Result, next: TcpEvent): Acted {
    match r
    case Panic => Failed
    case Result(e, sent) => Acted(e, sent, next)
  }

  /** doTcpAction: what the action sends, and the event it raises. */
  function DoAction(e: Endpoint, act: Action, p: Packet): Acted {
    match act
    case NoAction => Acted(e, {}, EventNil)
    case SendDataAck => Then(AckWith(e, EventDataAck), EventNil)
    case SendSyn => Then(AckWith(e, EventSyn), EventNil)
    case SendSynAck =>
      if e.remoteNonce != "" && e.remoteNonce != p.fromNonce then Failed
      else Then(AckWith(e.(remoteNonce := p.fromNonce), EventSynAck), EventNil)
    case SendEstabAck =>
      if e.remoteNonce != "" || !e.pending then Failed
      else Then(AckWith(e.(remoteNonce := p.fromNonce, pending := false), EventEstabAck), EventNil)
    case SendFin => Then(AckWith(e, EventFin), EventNil)
    case SendFinAck => Then(AckWith(e, EventFinAck), EventNil)
    case DoAppClose => Then(AckWith(e, EventFinAck), EventApplicationClosed)
  }

  function SetupRetry(e: Endpoint, before: TcpState, p: Packet, act: Action): Endpoint {
    if before == e.tcp then e
    else if IsRetryState(e.tcp) then e.(retry := Armed(e.tcp, act, p), attempts := e.attempts)
    else e.(retry := Idle)
  }

  function Moved(e: Endpoint, s: TcpState): Endpoint {
    e.(tcp := s, ever := e.ever || s == Established)
  }

  /** One pass of the next-event loop. */
  function Pass(e: Endpoint, event: TcpEvent, p: Packet): Acted {
    var u := UpdateTcp(e.tcp, event, p.fromState);
    DoAction(SetupRetry(Moved(e, u.state), e.tcp, p, u.act), u.act, p)
  }

  lemma PassNext(e: Endpoint, event: TcpEvent, p: Packet)
    ensures Pass(e, event, p).Acted? && Pass(e, event, p).next != EventNil
            ==> event == EventFin && Pass(e, event, p).next == EventApplicationClosed
                && Pass(e, event, p).e.tcp == CloseResponderGotFin
  {
  }

  datatype Handled = HandlePanic | Handled(e: Endpoint, sent: set<Packet>, passes: nat)

  /** The next-event loop, with the number of passes it takes. */
  function Handle(e: Endpoint, event: TcpEvent, p: Packet): Handled
    decreases if event == EventFin then 1 else 0
  {
    match Pass(e, event, p)
    case Failed => HandlePanic
    case Acted(f, sent, next) =>
      if next == EventNil then Handled(f, sent, 1)
      else
        PassNext(e, event, p);
        match Handle(f, next, p)
        case HandlePanic => HandlePanic
        case Handled(g, more, n) => Handled(g, sent + more, n + 1)
  }

  /** Lock onto the first peer that sends a SYN. */
  function LockOn(e: Endpoint, p: Packet): Endpoint {
    if p.event == EventSyn && (e.tcp == Fresh || e.tcp == Listen) && e.remote == None
    then e.(remote := Some(p.from), remoteNonce := p.fromNonce)
    else e
  }

  /** The packet belongs to this session. */
  predicate Admitted(e: Endpoint, p: Packet) {
    && (e.remote.Some? ==> p.from == e.remote.value)
    && (p.destNonce != "" || InSession(e.tcp) ==> p.destNonce == e.nonce)
    && (e.remoteNonce != "" ==> p.fromNonce == e.remoteNonce)
  }

  /** A packet arrives; the receive loop ends in Closed. */
  function Receive(e: Endpoint, p: Packet): Handled {
    var f := LockOn(e, p);
    if e.stopped then Handled(e, {}, 0)
    else if !Admitted(f, p) || p.event == EventData then Handled(f, {}, 0)
    else match Handle(f, p.event, p)
      case HandlePanic => HandlePanic
      case Handled(g, sent, n) => Handled(g.(stopped := g.tcp == Closed), sent, n)
  }

  /** A connect request, possibly repeated because the SYN was lost. */
  function Connect(e: Endpoint): Result {
    if e.stopped || (e.remote.Some? && e.remote.value != Other(e.me)) || (e.tcp != Listen && e.tcp != SynSent)
    then Result(if e.stopped || e.remote.Some? then e else e.(remote := Some(Other(e.me))), {})
    else Result(e.(remote := Some(Other(e.me)), pending := true, tcp := SynSent),
                {Packet(e.me, e.nonce, "", EventSyn, Fresh)})
  }

  /** The retry timer: repeat the action that entered the state, ten times at most. */
  function RetryCheck(e: Endpoint): Result {
    if e.stopped || e.retry.Idle? then Result(e, {})
    else if e.retry.state != e.tcp then Result(e.(retry := Idle), {})
    else if e.attempts + 1 > 10 then Result(e.(attempts := e.attempts + 1, retry := Idle, stopped := true), {})
    else match DoAction(e.(attempts := e.attempts + 1), e.retry.act, e.retry.pack)
      case Failed => Panic
      case Acted(f, sent, _) => Result(f, sent)
  }

  /** The sender half reports the state once it knows the session. */
  function KeepAlive(e: Endpoint): Result {
    if e.stopped || e.sndNonce == "" then Result(e, {})
    else Result(e, {Packet(e.me, e.nonce, e.sndNonce, EventKeepAlive, e.tcp)})
  }

  /** The application closes, or session traffic passes: a FIN, data or a data ack. */
  function Emit(e: Endpoint, event: TcpEvent): Result {
    if e.stopped || !(event == EventFin || event == EventData || event == EventDataAck) then Result(e, {})
    else Result(e, {Packet(e.me, e.nonce, e.sndNonce, event, Fresh)})
  }

  // ---------- the two ends and the network ----------

  /** `net` is every packet ever sent; any of them may arrive at any time, or never. */
  datatype System = System(a: Endpoint, b: Endpoint, net: set<Packet>, panicked: bool)

  datatype Step = Opens | Arrives(side: Side, p: Packet) | Retries(side: Side) | Reports(side: Side)
                | Emits(side: Side, event: TcpEvent)

  function NewEndpoint(me: Side, nonce: string): Endpoint {
    Endpoint(me, nonce, Listen, None, "", "", false, Idle, 0, false, false)
  }

  function Start(na: string, nb: string): System {
    System(NewEndpoint(Connector, na), NewEndpoint(Listener, nb), {}, false)
  }

  function Put(s: System, side: Side, r: Result): System {
    match r
    case Panic => s.(panicked := true)
    case Result(e, sent) => if side == Connector then s.(a := e, net := s.net + sent)
        else s.(b := e, net := s.net + sent)
  }

  function At(s: System, side: Side): Endpoint {
    if side == Connector then s.a else s.b
  }

  function Outcome(h: Handled): Result {
    match h
    case HandlePanic => Panic
    case Handled(e, sent, _) => Result(e, sent)
  }

  /** Only the connector opens actively. */
  function Next(s: System, t: Step): System {
    match t
    case Opens => Put(s, Connector, Connect(s.a))
    case Arrives(side, p) =>
      if p in s.net && p.from == Other(side) then Put(s, side, Outcome(Receive(At(s, side), p))) else s
    case Retries(side) => Put(s, side, RetryCheck(At(s, side)))
    case Reports(side) => Put(s, side, KeepAlive(At(s, side)))
    case Emits(side, event) => Put(s, side, Emit(At(s, side), event))
  }

  function After(na: string, nb: string, run: seq<Step>): System {
    if run == [] then Start(na, nb) else Next(After(na, nb, run[..|run| - 1]), run[|run| - 1])
  }

  // ---------- what a packet takes ----------

  /** The next-event loop takes one pass, or two when a FIN closes the application. */
  lemma HandlePasses(e: Endpoint, p: Packet)
    ensures var h := Handle(e, p.event, p);
      h.Handled? ==> h.passes <= 2 && (h.passes == 2 ==> p.event == EventFin && h.e.tcp == Closed)
  {
    PassNext(e, p.event, p);
    if Pass(e, p.event, p).Acted? {
      PassNext(Pass(e, p.event, p).e, EventApplicationClosed, p);
    }
  }

  lemma AtMostTwoPasses(e: Endpoint, p: Packet)
    ensures var h := Receive(e, p);
      h.Handled? ==> h.passes <= 2 && (h.passes == 2 ==> p.event == EventFin && h.e.tcp == Closed)
  {
    HandlePasses(LockOn(e, p), p);
  }

  // ---------- the invariant ----------

  /** Events that packets carry; the others are raised locally. */
  predicate OnWire(e: TcpEvent) {
    && e != EventNil && e != EventStartListen && e != EventStartConnect && e != EventStartClose
    && e != EventApplicationClosed
  }

  predicate FromConnector(p: Packet, na: string, nb: string, aEver: bool) {
    && p.fromNonce == na && (p.destNonce == "" || p.destNonce == nb) && OnWire(p.event) && p.event != EventSynAck
    && (p.event == EventEstabAck || (p.event == EventKeepAlive && p.fromState == Established) ==> aEver)
  }

  predicate FromListener(p: Packet, na: string, nb: string, known: bool) {
    && p.fromNonce == nb && (p.destNonce == "" || p.destNonce == na)
    && OnWire(p.event) && p.event != EventSyn && p.event != EventEstabAck
    && (p.event == EventSynAck ==> known)
  }

  predicate NetOk(net: set<Packet>, na: string, nb: string, aEver: bool, known: bool) {
    forall p :: p in net ==>
      && (p.from == Connector ==> FromConnector(p, na, nb, aEver))
      && (p.from == Listener ==> FromListener(p, na, nb, known))
  }

  predicate ConnectorOk(a: Endpoint, na: string, nb: string) {
    && a.me == Connector && a.nonce == na && a.retry == Idle
    && (a.tcp == Listen || a.tcp == SynSent || a.tcp == Established || a.tcp == Closed)
    && (a.remoteNonce == "" || a.remoteNonce == nb) && (a.sndNonce == "" || a.sndNonce == nb)
    && (a.tcp == Listen || a.tcp == SynSent ==> a.remoteNonce == "")
    && (a.tcp == SynSent ==> a.pending)
    && (a.tcp == Established ==> a.remoteNonce == nb && a.ever)
    && (a.tcp == Closed ==> a.stopped)
  }

  predicate RetryOk(r: Retry, na: string) {
    r.Armed? ==> r.state == SynReceived && r.act == SendSynAck && r.pack.from == Connector && r.pack.fromNonce == na
  }

  predicate ListenerOk(b: Endpoint, na: string, nb: string) {
    && b.me == Listener && b.nonce == nb && RetryOk(b.retry, na)
    && (b.tcp == Listen || b.tcp == SynReceived || b.tcp == Established || b.tcp == Closed)
    && (b.remoteNonce == "" || b.remoteNonce == na) && (b.sndNonce == "" || b.sndNonce == na)
    && (b.tcp == SynReceived || b.tcp == Established ==> b.remoteNonce == na)
    && (b.tcp == Established ==> b.ever)
    && (b.tcp == Closed ==> b.stopped)
  }

  /** `na` and `nb` are the nonces of the two ends. */
  predicate Inv(s: System, na: string, nb: string) {
    && ConnectorOk(s.a, na, nb) && ListenerOk(s.b, na, nb)
    && NetOk(s.net, na, nb, s.a.ever, s.b.remoteNonce == na)
    && (s.a.ever ==> s.b.remoteNonce == na) && (s.b.ever ==> s.a.ever)
    && !s.panicked
  }

  // ---------- the cases that occur ----------

  function Learn(e: Endpoint): Endpoint {
    e.(sndNonce := if e.sndNonce == "" then e.remoteNonce else e.sndNonce)
  }

  function AckPacket(e: Endpoint, event: TcpEvent): Packet {
    Packet(e.me, e.nonce, e.remoteNonce, event, Fresh)
  }

  lemma FinCloses(e: Endpoint, p: Packet)
    requires e.tcp == Listen || e.tcp == SynSent || e.tcp == SynReceived || e.tcp == Established
    ensures Handle(e, EventFin, p) == Handled(Learn(e.(tcp := Closed, retry := Idle)), {AckPacket(e, EventFinAck)}, 2)
  {
    var f := Learn(e.(tcp := CloseResponderGotFin, retry := Idle));
    assert Pass(e, EventFin, p) == Acted(f, {AckPacket(e, EventFinAck)}, EventApplicationClosed);
    assert Pass(f, EventApplicationClosed, p) == Acted(f.(tcp := Closed), {}, EventNil);
    assert {AckPacket(e, EventFinAck)} + {} == {AckPacket(e, EventFinAck)};
  }

  lemma NothingHappens(e: Endpoint, p: Packet)
    requires UpdateTcp(e.tcp, p.event, p.fromState) == Update(e.tcp, NoAction)
    ensures Handle(e, p.event, p) == Handled(Moved(e, e.tcp), {}, 1)
  {
  }

  lemma KeepAliveAcked(e: Endpoint, p: Packet)
    requires e.tcp == Established && p.event == EventKeepAlive
    ensures Handle(e, p.event, p) == Handled(Learn(e.(ever := true)), {AckPacket(e, EventDataAck)}, 1)
  {
  }

  lemma SynAckEstablishes(e: Endpoint, p: Packet)
    requires e.tcp == SynSent && p.event == EventSynAck && e.remoteNonce == "" && e.pending
    ensures var f := e.(tcp := Established, ever := true, retry := Idle, remoteNonce := p.fromNonce, pending := false);
            Handle(e, p.event, p) == Handled(Learn(f), {AckPacket(f, EventEstabAck)}, 1)
  {
  }

  lemma SynReceives(e: Endpoint, p: Packet)
    requires e.tcp == Listen && p.event == EventSyn && (e.remoteNonce == "" || e.remoteNonce == p.fromNonce)
    ensures var f := e.(tcp := SynReceived, retry := Armed(SynReceived, SendSynAck, p), remoteNonce := p.fromNonce);
            Handle(e, p.event, p) == Handled(Learn(f), {AckPacket(f, EventSynAck)}, 1)
  {
  }

  lemma ListenerEstablishes(e: Endpoint, p: Packet)
    requires e.tcp == SynReceived
    requires p.event == EventEstabAck || (p.event == EventKeepAlive && p.fromState == Established)
    ensures Handle(e, p.event, p) == Handled(e.(tcp := Established, ever := true, retry := Idle), {}, 1)
  {
  }

  /** What an event may do to the connector, and what it may send. */
  predicate ConnectorStep(a: Endpoint, e: Endpoint, sent: set<Packet>, event: TcpEvent, na: string, nb: string) {
    && ConnectorOk(e.(stopped := e.tcp == Closed), na, nb) && (a.ever ==> e.ever)
    && (e.ever && !a.ever ==> event == EventSynAck)
    && (forall q :: q in sent ==> q.from == Connector && FromConnector(q, na, nb, e.ever))
  }

  lemma ConnectorFin(a: Endpoint, na: string, nb: string)
    requires ConnectorOk(a, na, nb) && !a.stopped
    ensures ConnectorStep(a, Learn(a.(tcp := Closed, retry := Idle)), {AckPacket(a, EventFinAck)}, EventFin, na, nb)
  {
  }

  lemma ConnectorSynAck(a: Endpoint, na: string, nb: string)
    requires ConnectorOk(a, na, nb) && !a.stopped && a.tcp == SynSent
    ensures var f := a.(tcp := Established, ever := true, retry := Idle, remoteNonce := nb, pending := false);
            ConnectorStep(a, Learn(f), {AckPacket(f, EventEstabAck)}, EventSynAck, na, nb)
  {
  }

  lemma ConnectorKeepAlive(a: Endpoint, na: string, nb: string)
    requires ConnectorOk(a, na, nb) && !a.stopped && a.tcp == Established
    ensures ConnectorStep(a, Learn(a.(ever := true)), {AckPacket(a, EventDataAck)}, EventKeepAlive, na, nb)
  {
  }

  lemma ConnectorRests(a: Endpoint, event: TcpEvent, na: string, nb: string)
    requires ConnectorOk(a, na, nb) && !a.stopped
    ensures ConnectorStep(a, Moved(a, a.tcp), {}, event, na, nb)
  {
  }

  lemma ConnectorQuiet(a: Endpoint, p: Packet, na: string, nb: string)
    requires ConnectorOk(a, na, nb) && !a.stopped && FromListener(p, na, nb, true) && p.event != EventFin
    requires !(a.tcp == SynSent && p.event == EventSynAck) && !(a.tcp == Established && p.event == EventKeepAlive)
    ensures UpdateTcp(a.tcp, p.event, p.fromState) == Update(a.tcp, NoAction)
  {
  }

  lemma ConnectorHandles(a: Endpoint, p: Packet, na: string, nb: string)
    requires ConnectorOk(a, na, nb) && !a.stopped && FromListener(p, na, nb, true)
    ensures var h := Handle(a, p.event, p);
            h.Handled? && ConnectorStep(a, h.e, h.sent, p.event, na, nb)
  {
    if p.event == EventFin {
      FinCloses(a, p);
      ConnectorFin(a, na, nb);
    } else if a.tcp == SynSent && p.event == EventSynAck {
      SynAckEstablishes(a, p);
      ConnectorSynAck(a, na, nb);
    } else if a.tcp == Established && p.event == EventKeepAlive {
      KeepAliveAcked(a, p);
      ConnectorKeepAlive(a, na, nb);
    } else {
      ConnectorQuiet(a, p, na, nb);
      NothingHappens(a, p);
      ConnectorRests(a, p.event, na, nb);
    }
  }

  lemma ConnectorReceives(a: Endpoint, p: Packet, na: string, nb: string, known: bool)
    requires ConnectorOk(a, na, nb) && FromListener(p, na, nb, known)
    requires (a.ever ==> known)
    ensures var h := Receive(a, p);
      && h.Handled? && ConnectorOk(h.e, na, nb) && (a.ever ==> h.e.ever) && (h.e.ever ==> known)
      && (forall q :: q in h.sent ==> q.from == Connector && FromConnector(q, na, nb, h.e.ever))
  {
    assert LockOn(a, p) == a;
    if !a.stopped && Admitted(a, p) && p.event != EventData {
      ConnectorHandles(a, p, na, nb);
    }
  }

  /** What an event may do to the listener, and what it may send. */
  predicate ListenerStep(b: Endpoint, e: Endpoint, sent: set<Packet>, aEver: bool, na: string, nb: string) {
    && ListenerOk(e.(stopped := e.tcp == Closed), na, nb)
    && (e.ever ==> aEver) && (b.remoteNonce == na ==> e.remoteNonce == na)
    && (forall q :: q in sent ==> q.from == Listener && FromListener(q, na, nb, e.remoteNonce == na))
  }

  lemma ListenerFin(b: Endpoint, aEver: bool, na: string, nb: string)
    requires ListenerOk(b, na, nb) && !b.stopped && (b.ever ==> aEver)
    ensures ListenerStep(b, Learn(b.(tcp := Closed, retry := Idle)), {AckPacket(b, EventFinAck)}, aEver, na, nb)
  {
  }

  lemma ListenerSyn(b: Endpoint, p: Packet, aEver: bool, na: string, nb: string)
    requires ListenerOk(b, na, nb) && !b.stopped && (b.ever ==> aEver)
    requires p.from == Connector && p.fromNonce == na
    ensures var f := b.(tcp := SynReceived, retry := Armed(SynReceived, SendSynAck, p), remoteNonce := na);
            ListenerStep(b, Learn(f), {AckPacket(f, EventSynAck)}, aEver, na, nb)
  {
  }

  lemma ListenerEstab(b: Endpoint, na: string, nb: string)
    requires ListenerOk(b, na, nb) && !b.stopped && b.tcp == SynReceived
    ensures ListenerStep(b, b.(tcp := Established, ever := true, retry := Idle), {}, true, na, nb)
  {
  }

  lemma ListenerKeepAlive(b: Endpoint, aEver: bool, na: string, nb: string)
    requires ListenerOk(b, na, nb) && !b.stopped && b.tcp == Established && (b.ever ==> aEver)
    ensures ListenerStep(b, Learn(b.(ever := true)), {AckPacket(b, EventDataAck)}, aEver, na, nb)
  {
  }

  lemma ListenerRests(b: Endpoint, aEver: bool, na: string, nb: string)
    requires ListenerOk(b, na, nb) && !b.stopped && (b.ever ==> aEver)
    ensures ListenerStep(b, Moved(b, b.tcp), {}, aEver, na, nb)
  {
  }

  predicate Establishes(p: Packet) {
    p.event == EventEstabAck || (p.event == EventKeepAlive && p.fromState == Established)
  }

  lemma ListenerQuiet(b: Endpoint, p: Packet, na: string, nb: string, aEver: bool)
    requires ListenerOk(b, na, nb) && !b.stopped && FromConnector(p, na, nb, aEver) && p.event != EventFin
    requires !(b.tcp == Listen && p.event == EventSyn) && !(b.tcp == SynReceived && Establishes(p))
    requires !(b.tcp == Established && p.event == EventKeepAlive)
    ensures UpdateTcp(b.tcp, p.event, p.fromState) == Update(b.tcp, NoAction)
  {
  }

  lemma ListenerHandles(b: Endpoint, p: Packet, na: string, nb: string, aEver: bool)
    requires ListenerOk(b, na, nb) && !b.stopped && FromConnector(p, na, nb, aEver) && p.from == Connector
    requires b.ever ==> aEver
    ensures var h := Handle(b, p.event, p);
            h.Handled? && ListenerStep(b, h.e, h.sent, aEver, na, nb)
  {
    if p.event == EventFin {
      FinCloses(b, p);
      ListenerFin(b, aEver, na, nb);
    } else if b.tcp == Listen && p.event == EventSyn {
      SynReceives(b, p);
      ListenerSyn(b, p, aEver, na, nb);
    } else if b.tcp == SynReceived && Establishes(p) {
      ListenerEstablishes(b, p);
      ListenerEstab(b, na, nb);
    } else if b.tcp == Established && p.event == EventKeepAlive {
      KeepAliveAcked(b, p);
      ListenerKeepAlive(b, aEver, na, nb);
    } else {
      ListenerQuiet(b, p, na, nb, aEver);
      NothingHappens(b, p);
      ListenerRests(b, aEver, na, nb);
    }
  }

  lemma ListenerReceives(b: Endpoint, p: Packet, na: string, nb: string, aEver: bool)
    requires ListenerOk(b, na, nb) && FromConnector(p, na, nb, aEver) && p.from == Connector
    requires (b.ever ==> aEver)
    ensures var h := Receive(b, p);
      && h.Handled? && ListenerOk(h.e, na, nb)
      && (h.e.ever ==> aEver) && (b.remoteNonce == na ==> h.e.remoteNonce == na)
      && (forall q :: q in h.sent ==> q.from == Listener && FromListener(q, na, nb, h.e.remoteNonce == na))
  {
    if !b.stopped && Admitted(LockOn(b, p), p) && p.event != EventData {
      ListenerHandles(LockOn(b, p), p, na, nb, aEver);
    }
  }

  // ---------- every run ----------

  lemma ArrivesKeeps(s: System, side: Side, p: Packet, na: string, nb: string)
    requires Inv(s, na, nb) && p in s.net && p.from == Other(side)
    ensures Inv(Put(s, side, Outcome(Receive(At(s, side), p))), na, nb)
  {
    if side == Connector {
      ConnectorReceives(s.a, p, na, nb, s.b.remoteNonce == na);
    } else {
      ListenerReceives(s.b, p, na, nb, s.a.ever);
    }
  }

  lemma OpensKeeps(s: System, na: string, nb: string)
    requires Inv(s, na, nb)
    ensures Inv(Put(s, Connector, Connect(s.a)), na, nb)
  {
  }

  /** A listener that stays in its invariant and sends true claims keeps the whole. */
  lemma ListenerPuts(s: System, b: Endpoint, sent: set<Packet>, na: string, nb: string)
    requires Inv(s, na, nb) && ListenerOk(b, na, nb) && (b.ever ==> s.a.ever)
    requires s.b.remoteNonce == na ==> b.remoteNonce == na
    requires forall q :: q in sent ==> q.from == Listener && FromListener(q, na, nb, b.remoteNonce == na)
    ensures Inv(Put(s, Listener, Result(b, sent)), na, nb)
  {
  }

  /** A retry of the listener leaves it as it was, gives up, or repeats the SYN ACK. */
  lemma ListenerRetries(b: Endpoint, na: string, nb: string) returns (e: Endpoint, sent: set<Packet>)
    requires ListenerOk(b, na, nb)
    ensures RetryCheck(b) == Result(e, sent) && ListenerOk(e, na, nb)
    ensures e.ever == b.ever && e.remoteNonce == b.remoteNonce
    ensures forall q :: q in sent ==> q.from == Listener && FromListener(q, na, nb, b.remoteNonce == na)
  {
    e, sent := b, {};
    if !b.stopped && b.retry.Armed? {
      if b.retry.state != b.tcp {
        e := b.(retry := Idle);
      } else if b.attempts + 1 > 10 {
        e := b.(attempts := b.attempts + 1, retry := Idle, stopped := true);
      } else {
        e, sent := Learn(b.(attempts := b.attempts + 1)), {AckPacket(b, EventSynAck)};
      }
    }
  }

  lemma RetriesKeeps(s: System, side: Side, na: string, nb: string)
    requires Inv(s, na, nb)
    ensures Inv(Put(s, side, RetryCheck(At(s, side))), na, nb)
  {
    if side == Listener {
      var e, sent := ListenerRetries(s.b, na, nb);
      ListenerPuts(s, e, sent, na, nb);
    } else {
      assert RetryCheck(s.a) == Result(s.a, {});
    }
  }

  lemma ReportsKeeps(s: System, side: Side, na: string, nb: string)
    requires Inv(s, na, nb)
    ensures Inv(Put(s, side, KeepAlive(At(s, side))), na, nb)
  {
  }

  lemma EmitsKeeps(s: System, side: Side, event: TcpEvent, na: string, nb: string)
    requires Inv(s, na, nb)
    ensures Inv(Put(s, side, Emit(At(s, side), event)), na, nb)
  {
  }

  lemma {:induction false} RunInv(na: string, nb: string, run: seq<Step>)
    requires na != "" && nb != ""
    ensures Inv(After(na, nb, run), na, nb)
    decreases |run|
  {
    if run != [] {
      var s, t := After(na, nb, run[..|run| - 1]), run[|run| - 1];
      RunInv(na, nb, run[..|run| - 1]);
      match t
      case Opens => OpensKeeps(s, na, nb);
      case Arrives(side, p) =>
        if p in s.net && p.from == Other(side) {
          ArrivesKeeps(s, side, p, na, nb);
        }
      case Retries(side) => RetriesKeeps(s, side, na, nb);
      case Reports(side) => ReportsKeeps(s, side, na, nb);
      case Emits(side, event) => EmitsKeeps(s, side, event, na, nb);
    }
  }

  /** In every run: an established end holds the other's nonce; the listener has been established
      only if the connector has; no action panics; a closed end has left its loop. */
  lemma RunHandshake(na: string, nb: string, run: seq<Step>)
    requires na != "" && nb != ""
    ensures var s := After(na, nb, run);
      && (s.a.tcp == Established ==> s.a.remoteNonce == nb) && (s.b.tcp == Established ==> s.b.remoteNonce == na)
      && (s.b.tcp == Established || s.b.ever ==> s.a.ever)
      && (s.a.ever ==> s.b.remoteNonce == na)
      && !s.panicked
  {
    RunInv(na, nb, run);
  }

  /** Closed is permanent: whatever happens after any run leaves a closed end closed. */
  lemma {:induction false} ClosedForever(na: string, nb: string, run: seq<Step>, more: seq<Step>)
    requires na != "" && nb != ""
    ensures After(na, nb, run).a.tcp == Closed ==> After(na, nb, run + more).a.tcp == Closed
    ensures After(na, nb, run).b.tcp == Closed ==> After(na, nb, run + more).b.tcp == Closed
    decreases |more|
  {
    ConcatNothing(run);
    if more != [] {
      var n := |more| - 1;
      ClosedForever(na, nb, run, more[..n]);
      SplitLast(run, more);
      RunInv(na, nb, run + more[..n]);
      ClosedStep(After(na, nb, run + more[..n]), more[n], na, nb);
    }
  }

  lemma ClosedStep(s: System, t: Step, na: string, nb: string)
    requires Inv(s, na, nb)
    ensures s.a.tcp == Closed ==> Next(s, t).a.tcp == Closed
    ensures s.b.tcp == Closed ==> Next(s, t).b.tcp == Closed
  {
  }
}
