/**
 Two endpoints, each with a sender and a receiver, joined by a network that may lose,
 duplicate, delay and reorder packets: `net` is the set of everything ever sent, and any
 member of it may arrive at any time, any number of times, or never.

 Both ends use the same window. Checksums are taken to catch every corrupted packet, so a
 packet arrives as it was sent or not at all, and the session filters have been passed.
 */
module SwpSession {
  import opened Common
  import opened SwpEvents
  import opened SwpTypes
  import opened Retree
  import S = SwpSender
  import R = SwpReceiver

  datatype Side = A | B

  function Other(x: Side): Side {
    if x == A then B else A
  }

  /** `recvLastFrameClientConsumed` is the receiver's word to the sender for keepalives. */
  datatype Endpoint = Endpoint(snd: S.Sender, rcv: R.Receiver, flow: S.Flow, recvLastFrameClientConsumed: int)

  datatype Msg = Msg(dest: Side, pack: Packet)

  datatype System = System(a: Endpoint, b: Endpoint, net: set<Msg>)

  function End(s: System, x: Side): Endpoint {
    if x == A then s.a else s.b
  }

  /** The cases of the send and receive loops. */
  datatype Action =
    | Push(data: seq<byte>, deadline: int)    // a packet accepted from BlockingSend
    | Tick(now: int, deadlines: seq<int>)     // the regular wake-up
    | Arrive(pack: Packet)                    // something addressed to this side arrives
    | ReadMessages                            // delivery on ReadMessagesCh
    | Read(room: nat)                         // a ReadRequest with room for this many bytes
    | ControlAck(event: TcpEvent)             // doTcpAction or its retry answers with `event`
    | KeepAlive
    | Syn
    | Fin

  /** The new endpoint and what it sent; None stands for a panic. */
  datatype Effect = Effect(end: Endpoint, sent: seq<Packet>)

  function Start(w: nat, windowBytes: int): System
    requires 0 < w
  {
    var e := Endpoint(S.Init(w), R.Init(w, windowBytes), S.Flow(0, 0), 0);
    System(e, e, {})
  }

  function Control(event: TcpEvent, flag: int, ackNum: int, flow: S.Flow): Packet {
    Packet(event, Frame(flag, 0, []), flag, ackNum, flow.msgCap, flow.bytesCap)
  }

  /** The receiver acknowledges what the application has consumed. */
  function Ack(e: Endpoint, event: TcpEvent): Effect {
    var rcv := R.UpdateControl(e.rcv);
    Effect(e.(rcv := rcv, flow := R.UpdateFlow(e.flow, rcv)),
           [Control(event, -99, rcv.lastFrameClientConsumed, S.Flow(rcv.availMsgCap, rcv.availBytesCap))])
  }

  /** Arrival of a packet: bookkeeping, the sender's share, then the data path. */
  function Receive(e: Endpoint, pack: Packet): Option<Effect>
    requires 0 < |e.rcv.rxq|
  {
    match R.NoteArrival(e.rcv, pack.frame)
    case None => None
    case Some(noted) =>
      var rcv := R.UpdateControl(noted);
      var e1 := e.(rcv := rcv, flow := R.UpdateFlow(e.flow, rcv), snd := S.GotPack(e.snd, pack));
      if pack.event != EventData then Some(Effect(e1, []))
      else
        var e2 := e1.(rcv := R.AcceptData(rcv, pack.frame));
        if !R.Acceptable(rcv, pack.frame) then Some(Ack(e2, EventDataAck))
        else if pack.frame.seqNum == rcv.nextFrameExpected then
          Some(Effect(e2.(recvLastFrameClientConsumed := rcv.lastFrameClientConsumed), []))
        else Some(Effect(e2, []))
  }

  /** Indices stay in range; every reachable state is like this (`AlwaysSane`). */
  ghost predicate Sane(e: Endpoint) {
    && 0 < |e.snd.txq| && 0 < |e.rcv.rxq|
    && InRange(e.snd.txq, e.snd.byDeadline) && R.OffsetsOk(e.rcv.ready)
  }

  ghost predicate Ready(e: Endpoint, act: Action) {
    && Sane(e)
    && match act
       case Push(_, _) => S.AcceptSend(e.snd)
       case Tick(now, deadlines) => |deadlines| == |S.ExpiredSlots(e.snd, now)|
       case ReadMessages => e.rcv.ready != []
       case ControlAck(event) => event != EventData
       case _ => true
  }

  ghost predicate Enabled(s: System, x: Side, act: Action) {
    Ready(End(s, x), act) && (act.Arrive? ==> Msg(x, act.pack) in s.net)
  }

  ghost function Do(e: Endpoint, act: Action): Option<Effect>
    requires Ready(e, act)
  {
    match act
    case Push(data, deadline) =>
      Some(Effect(e.(snd := S.OrigDataSend(e.snd, data, deadline, e.flow)), [S.NextPacket(e.snd, data, e.flow)]))
    case Tick(now, deadlines) =>
      Some(Effect(e.(snd := S.RetryTick(e.snd, now, deadlines, e.flow)), S.Retry(e.snd, now, deadlines, e.flow).sent))
    case Arrive(pack) => Receive(e, pack)
    case ReadMessages => Some(Ack(e.(rcv := R.DeliverAll(e.rcv)), EventDataAck))
    case Read(room) =>
      var rcv := R.Fill(e.rcv, room);
      if rcv.lastMsgConsumed != e.rcv.lastMsgConsumed then Some(Ack(e.(rcv := rcv), EventDataAck))
      else Some(Effect(e.(rcv := rcv), []))
    case ControlAck(event) => Some(Ack(e, event))
    case KeepAlive => Some(Effect(e, [Control(EventKeepAlive, -777, e.recvLastFrameClientConsumed, e.flow)]))
    case Syn => Some(Effect(e, [Control(EventSyn, -98, 0, S.Flow(0, 0))]))
    case Fin => Some(Effect(e, [Control(EventFin, -888, 0, e.flow)]))
  }

  function Apply(s: System, x: Side, eff: Effect): System {
    var net := s.net + set p | p in eff.sent :: Msg(Other(x), p);
    if x == A then System(eff.end, s.b, net) else System(s.a, eff.end, net)
  }

  datatype Move = Move(side: Side, act: Action)

  ghost predicate Panics(s: System, m: Move) {
    Enabled(s, m.side, m.act) && Do(End(s, m.side), m.act).None?
  }

  /** The state after a move; a move that is not enabled does not happen. */
  ghost function Next(s: System, m: Move): System {
    if Enabled(s, m.side, m.act) && !Panics(s, m)
    then Apply(s, m.side, Do(End(s, m.side), m.act).value)
    else s
  }

  /** The state after a run of moves from the start. */
  ghost function After(w: nat, windowBytes: int, run: seq<Move>): System
    requires 0 < w
  {
    if run == [] then Start(w, windowBytes)
    else Next(After(w, windowBytes, run[..|run| - 1]), run[|run| - 1])
  }

  // ---------- the invariant ----------

  function Max0(n: int): int {
    if n < 0 then 0 else n
  }

  /** One direction: the sender at one end and the receiver at the other. */
  ghost predicate Direction(snd: S.Sender, rcv: R.Receiver, w: nat) {
    && S.Valid(snd) && |snd.txq| == w
    && R.Valid(rcv, snd.sendHistory) && |rcv.rxq| == w
    && snd.lastSeenMsgCap <= w
    && S.Lowest(snd) <= Max0(rcv.lastMsgConsumed) + 1
    && snd.lastFrameSent <= Max0(rcv.lastMsgConsumed) + w
  }

  /** What a packet sent by an endpoint says is true of that endpoint. */
  ghost predicate Truthful(p: Packet, hist: seq<Frame>, consumed: int, w: nat) {
    && p.msgCap <= w && p.ackNum <= Max0(consumed)
    && (if p.event == EventData then 0 <= p.frame.seqNum < |hist| && hist[p.frame.seqNum] == p.frame
        else p.frame.seqNum < 0 && p.frame.cumulBytes == 0)
  }

  ghost predicate NetTruthful(net: set<Msg>, x: Side, e: Endpoint, w: nat) {
    forall m :: m in net && m.dest == Other(x) ==>
      Truthful(m.pack, e.snd.sendHistory, e.rcv.lastMsgConsumed, w)
  }

  ghost predicate LocalOk(e: Endpoint, w: nat) {
    && e.flow.msgCap <= w
    && e.recvLastFrameClientConsumed <= Max0(e.rcv.lastMsgConsumed)
  }

  ghost predicate Half(s: System, x: Side, w: nat) {
    && Direction(End(s, x).snd, End(s, Other(x)).rcv, w)
    && NetTruthful(s.net, x, End(s, x), w)
    && LocalOk(End(s, x), w)
  }

  ghost predicate Inv(s: System, w: nat) {
    0 < w && Half(s, A, w) && Half(s, B, w)
  }

  // ---------- each direction under each kind of step ----------

  lemma DirectionPush(snd: S.Sender, rcv: R.Receiver, w: nat, data: seq<byte>, deadline: int, flow: S.Flow)
    requires Direction(snd, rcv, w) && S.AcceptSend(snd)
    ensures Direction(S.OrigDataSend(snd, data, deadline, flow), rcv, w)
  {
    S.TrackedSlots(snd);
    S.OrigDataSendValid(snd, data, deadline, flow);
    R.HistoryExtends(rcv, snd.sendHistory, S.NextPacket(snd, data, flow).frame);
  }

  lemma DirectionTick(snd: S.Sender, rcv: R.Receiver, w: nat, now: int, deadlines: seq<int>, flow: S.Flow)
    requires Direction(snd, rcv, w) && |deadlines| == |S.ExpiredSlots(snd, now)|
    ensures Direction(S.RetryTick(snd, now, deadlines, flow), rcv, w)
  {
    S.RetryTickValid(snd, now, deadlines, flow);
  }

  lemma DirectionGotPack(snd: S.Sender, rcv: R.Receiver, w: nat, pack: Packet)
    requires Direction(snd, rcv, w)
    requires pack.msgCap <= w && pack.ackNum <= Max0(rcv.lastMsgConsumed)
    ensures Direction(S.GotPack(snd, pack), rcv, w)
  {
    S.GotPackValid(snd, pack);
  }

  lemma DirectionReceiver(snd: S.Sender, rcv: R.Receiver, w: nat, rcv': R.Receiver)
    requires Direction(snd, rcv, w)
    requires R.Valid(rcv', snd.sendHistory) && |rcv'.rxq| == |rcv.rxq|
    requires rcv.lastMsgConsumed <= rcv'.lastMsgConsumed
    ensures Direction(snd, rcv', w)
  {
  }

  // ---------- the network ----------

  /** Old packets stay true: histories only grow and consumption only advances. */
  lemma TruthfulStays(net: set<Msg>, x: Side, e: Endpoint, e': Endpoint, sent: seq<Packet>, net': set<Msg>, w: nat)
    requires NetTruthful(net, x, e, w)
    requires e.snd.sendHistory <= e'.snd.sendHistory
    requires e.rcv.lastMsgConsumed <= e'.rcv.lastMsgConsumed
    requires forall i :: 0 <= i < |sent| ==>
      Truthful(sent[i], e'.snd.sendHistory, e'.rcv.lastMsgConsumed, w)
    requires net' == net + set p | p in sent :: Msg(Other(x), p)
    ensures NetTruthful(net', x, e', w)
  {
    forall m | m in net' && m.dest == Other(x)
      ensures Truthful(m.pack, e'.snd.sendHistory, e'.rcv.lastMsgConsumed, w)
    {
      if m in net {
        assert Truthful(m.pack, e.snd.sendHistory, e.rcv.lastMsgConsumed, w);
      } else {
        assert m.pack in sent;
      }
    }
  }

  lemma TruthfulOther(net: set<Msg>, x: Side, e: Endpoint, sent: seq<Packet>, net': set<Msg>, w: nat)
    requires NetTruthful(net, Other(x), e, w)
    requires net' == net + set p | p in sent :: Msg(Other(x), p)
    ensures NetTruthful(net', Other(x), e, w)
  {
    forall m | m in net' && m.dest == Other(Other(x))
      ensures Truthful(m.pack, e.snd.sendHistory, e.rcv.lastMsgConsumed, w)
    {
      assert m in net;
    }
  }

  // ---------- what one endpoint may do ----------

  /** Endpoint `e` with its peer `p`, both directions. */
  ghost predicate Pair(e: Endpoint, p: Endpoint, w: nat) {
    Direction(e.snd, p.rcv, w) && Direction(p.snd, e.rcv, w) && LocalOk(e, w)
  }

  ghost predicate SentTruthful(sent: seq<Packet>, e: Endpoint, w: nat) {
    forall i :: 0 <= i < |sent| ==> Truthful(sent[i], e.snd.sendHistory, e.rcv.lastMsgConsumed, w)
  }

  ghost predicate Good(e: Endpoint, p: Endpoint, eff: Effect, w: nat) {
    && Pair(eff.end, p, w)
    && e.snd.sendHistory <= eff.end.snd.sendHistory
    && e.rcv.lastMsgConsumed <= eff.end.rcv.lastMsgConsumed
    && SentTruthful(eff.sent, eff.end, w)
  }

  lemma GoodKeepsInv(s: System, x: Side, eff: Effect, w: nat)
    requires Inv(s, w) && Good(End(s, x), End(s, Other(x)), eff, w)
    ensures Inv(Apply(s, x, eff), w)
  {
    var t := Apply(s, x, eff);
    TruthfulStays(s.net, x, End(s, x), eff.end, eff.sent, t.net, w);
    TruthfulOther(s.net, x, End(s, Other(x)), eff.sent, t.net, w);
    assert Half(t, x, w) && Half(t, Other(x), w);
  }

  lemma GoodPush(e: Endpoint, p: Endpoint, w: nat, data: seq<byte>, deadline: int)
    requires Pair(e, p, w) && S.AcceptSend(e.snd)
    ensures Good(e, p, Effect(e.(snd := S.OrigDataSend(e.snd, data, deadline, e.flow)),
                              [S.NextPacket(e.snd, data, e.flow)]), w)
  {
    DirectionPush(e.snd, p.rcv, w, data, deadline, e.flow);
  }

  lemma GoodTick(e: Endpoint, p: Endpoint, w: nat, now: int, deadlines: seq<int>)
    requires Pair(e, p, w) && |deadlines| == |S.ExpiredSlots(e.snd, now)|
    ensures Good(e, p, Effect(e.(snd := S.RetryTick(e.snd, now, deadlines, e.flow)),
                              S.Retry(e.snd, now, deadlines, e.flow).sent), w)
  {
    DirectionTick(e.snd, p.rcv, w, now, deadlines, e.flow);
    RetrySendsHistory(e.snd, now, deadlines, e.flow);
  }

  /** What a retry tick sends are frames of the history. */
  lemma RetrySendsHistory(snd: S.Sender, now: int, deadlines: seq<int>, flow: S.Flow)
    requires S.Valid(snd) && |deadlines| == |S.ExpiredSlots(snd, now)|
    ensures var sent := S.Retry(snd, now, deadlines, flow).sent;
      forall i :: 0 <= i < |sent| ==>
        && sent[i].event == EventData && sent[i].ackNum == 0 && sent[i].msgCap == flow.msgCap
        && 0 <= sent[i].frame.seqNum < |snd.sendHistory|
        && snd.sendHistory[sent[i].frame.seqNum] == sent[i].frame
  {
    var late := S.ExpiredSlots(snd, now);
    FilterMembers(S.InTime(snd.txq, now), snd.byDeadline);
    S.ReinsertSends(snd.txq, Filter(S.InTime(snd.txq, now), snd.byDeadline), late, deadlines, flow);
    forall i | 0 <= i < |late|
      ensures 0 <= SeqOf(snd.txq[late[i]]) < |snd.sendHistory|
      ensures snd.txq[late[i]].pack.event == EventData && snd.txq[late[i]].pack.ackNum == 0
      ensures snd.sendHistory[SeqOf(snd.txq[late[i]])] == snd.txq[late[i]].pack.frame
    {
      S.ExpiredExactly(snd, now, late[i]);
      TrackedFrame(snd, late[i]);
    }
  }

  lemma TrackedFrame(snd: S.Sender, x: nat)
    requires S.Valid(snd) && x in snd.bySeq
    ensures x < |snd.txq| && 0 <= SeqOf(snd.txq[x]) < |snd.sendHistory|
    ensures snd.txq[x].pack.event == EventData && snd.txq[x].pack.ackNum == 0
    ensures snd.sendHistory[SeqOf(snd.txq[x])] == snd.txq[x].pack.frame
  {
    var i :| 0 <= i < |snd.bySeq| && snd.bySeq[i] == x;
    assert S.TrackedAt(snd.txq, snd.bySeq[i], snd.sendHistory[S.Lowest(snd) + i], S.Lowest(snd) + i);
  }

  lemma GoodAck(e: Endpoint, p: Endpoint, w: nat, event: TcpEvent)
    requires Pair(e, p, w) && event != EventData
    ensures Good(e, p, Ack(e, event), w)
  {
    R.UpdateControlValid(e.rcv, p.snd.sendHistory);
    DirectionReceiver(p.snd, e.rcv, w, R.UpdateControl(e.rcv));
  }

  /** Replacing the receiver by a later one keeps the pair. */
  lemma PairReceiver(e: Endpoint, p: Endpoint, w: nat, rcv: R.Receiver)
    requires Pair(e, p, w)
    requires R.Valid(rcv, p.snd.sendHistory) && |rcv.rxq| == |e.rcv.rxq|
    requires e.rcv.lastMsgConsumed <= rcv.lastMsgConsumed
    ensures Pair(e.(rcv := rcv), p, w)
  {
    DirectionReceiver(p.snd, e.rcv, w, rcv);
  }

  lemma {:induction false} FillShape(r: R.Receiver, room: nat)
    requires R.OffsetsOk(r.ready)
    ensures R.Fill(r, room).rxq == r.rxq
    decreases |r.ready|
  {
    if r.ready != [] && room != 0 {
      var left := |r.ready[0].frame.data| - r.ready[0].offset;
      if left <= room { FillShape(R.Consume(r, left), room - left); }
    }
  }

  lemma {:induction false} DeliverShape(r: R.Receiver)
    requires R.OffsetsOk(r.ready)
    ensures R.DeliverAll(r).rxq == r.rxq
    decreases |r.ready|
  {
    if r.ready != [] {
      DeliverShape(R.Consume(r, |r.ready[0].frame.data| - r.ready[0].offset));
    }
  }

  lemma {:induction false} DrainShape(r: R.Receiver)
    requires 0 < |r.rxq|
    ensures |R.Drain(r).rxq| == |r.rxq|
    decreases R.Filled(r.rxq)
  {
    if R.Slot(r.rxq, r.nextFrameExpected).Some? {
      R.FilledClear(r.rxq, r.nextFrameExpected % |r.rxq|);
      DrainShape(R.DrainOne(r));
    }
  }

  lemma GoodRead(e: Endpoint, p: Endpoint, w: nat, rcv: R.Receiver)
    requires Pair(e, p, w)
    requires R.Valid(rcv, p.snd.sendHistory) && |rcv.rxq| == |e.rcv.rxq|
    requires e.rcv.lastMsgConsumed <= rcv.lastMsgConsumed
    ensures Good(e, p, Ack(e.(rcv := rcv), EventDataAck), w)
    ensures Good(e, p, Effect(e.(rcv := rcv), []), w)
  {
    PairReceiver(e, p, w, rcv);
    GoodAck(e.(rcv := rcv), p, w, EventDataAck);
  }

  /** The first half of an arrival: bookkeeping and the sender's share. */
  lemma ArrivalPair(e: Endpoint, p: Endpoint, w: nat, pack: Packet)
    requires Pair(e, p, w) && Truthful(pack, p.snd.sendHistory, p.rcv.lastMsgConsumed, w)
    ensures R.NoteArrival(e.rcv, pack.frame).Some?
    ensures var rcv := R.UpdateControl(R.NoteArrival(e.rcv, pack.frame).value);
      && rcv.lastMsgConsumed == e.rcv.lastMsgConsumed && |rcv.rxq| == |e.rcv.rxq|
      && pack.frame.seqNum <= rcv.largestSeqnoRcvd
      && Pair(e.(rcv := rcv, flow := R.UpdateFlow(e.flow, rcv), snd := S.GotPack(e.snd, pack)), p, w)
  {
    R.NoteArrivalValid(e.rcv, pack.frame, p.snd.sendHistory);
    var noted := R.NoteArrival(e.rcv, pack.frame).value;
    R.UpdateControlValid(noted, p.snd.sendHistory);
    DirectionReceiver(p.snd, e.rcv, w, R.UpdateControl(noted));
    DirectionGotPack(e.snd, p.rcv, w, pack);
  }

  /** The data path of an arrival. */
  lemma DataPair(e: Endpoint, p: Endpoint, w: nat, f: Frame)
    requires Pair(e, p, w) && 0 <= f.seqNum <= e.rcv.largestSeqnoRcvd
    requires p.snd.sendHistory[f.seqNum] == f
    ensures Pair(e.(rcv := R.AcceptData(e.rcv, f)), p, w)
    ensures R.AcceptData(e.rcv, f).lastMsgConsumed == e.rcv.lastMsgConsumed
    ensures e.rcv.lastFrameClientConsumed <= Max0(e.rcv.lastMsgConsumed)
  {
    R.AcceptDataValid(e.rcv, f, p.snd.sendHistory);
    DrainShape(e.rcv.(rxq := e.rcv.rxq[f.seqNum % |e.rcv.rxq| := Some(f)]));
    PairReceiver(e, p, w, R.AcceptData(e.rcv, f));
  }

  /** An arrival never panics and keeps the pair, whatever truthful packet it is. */
  lemma GoodArrive(e: Endpoint, p: Endpoint, w: nat, pack: Packet)
    requires Pair(e, p, w) && Truthful(pack, p.snd.sendHistory, p.rcv.lastMsgConsumed, w)
    ensures Receive(e, pack).Some? && Good(e, p, Receive(e, pack).value, w)
  {
    ArrivalPair(e, p, w, pack);
    var rcv := R.UpdateControl(R.NoteArrival(e.rcv, pack.frame).value);
    var e1 := e.(rcv := rcv, flow := R.UpdateFlow(e.flow, rcv), snd := S.GotPack(e.snd, pack));
    if pack.event == EventData {
      GoodData(e, e1, p, w, pack.frame);
    }
  }

  /** The data part of an arrival, once its claims have been noted in `e1`. */
  lemma GoodData(e: Endpoint, e1: Endpoint, p: Endpoint, w: nat, f: Frame)
    requires Pair(e1, p, w) && 0 < |e1.rcv.rxq| && e1.snd.sendHistory == e.snd.sendHistory
    requires e1.rcv.lastMsgConsumed == e.rcv.lastMsgConsumed
    requires 0 <= f.seqNum <= e1.rcv.largestSeqnoRcvd && f.seqNum < |p.snd.sendHistory| &&
        p.snd.sendHistory[f.seqNum] == f
    ensures var e2 := e1.(rcv := R.AcceptData(e1.rcv, f));
            && Good(e, p, Ack(e2, EventDataAck), w) && Good(e, p, Effect(e2, []), w)
            && Good(e, p, Effect(e2.(recvLastFrameClientConsumed := e1.rcv.lastFrameClientConsumed), []), w)
  {
    DataPair(e1, p, w, f);
    GoodAck(e1.(rcv := R.AcceptData(e1.rcv, f)), p, w, EventDataAck);
  }

  /** A control packet with nothing but true claims in it. */
  lemma GoodControl(e: Endpoint, p: Endpoint, w: nat, pack: Packet)
    requires Pair(e, p, w) && pack.msgCap <= w && pack.ackNum <= Max0(e.rcv.lastMsgConsumed)
    requires pack.event != EventData && pack.frame.seqNum < 0 && pack.frame.cumulBytes == 0
    ensures Good(e, p, Effect(e, [pack]), w)
  {
  }

  lemma GoodDelivery(e: Endpoint, p: Endpoint, w: nat, act: Action)
    requires Pair(e, p, w) && Ready(e, act) && (act.ReadMessages? || act.Read?)
    ensures Do(e, act).Some? && Good(e, p, Do(e, act).value, w)
  {
    if act.ReadMessages? {
      R.DeliverAllValid(e.rcv, p.snd.sendHistory);
      DeliverShape(e.rcv);
      GoodRead(e, p, w, R.DeliverAll(e.rcv));
    } else {
      R.FillValid(e.rcv, act.room, p.snd.sendHistory);
      FillShape(e.rcv, act.room);
      GoodRead(e, p, w, R.Fill(e.rcv, act.room));
    }
  }

  lemma GoodAction(e: Endpoint, p: Endpoint, w: nat, act: Action)
    requires 0 < w && Pair(e, p, w) && Ready(e, act)
    requires act.Arrive? ==> Truthful(act.pack, p.snd.sendHistory, p.rcv.lastMsgConsumed, w)
    ensures Do(e, act).Some? && Good(e, p, Do(e, act).value, w)
  {
    match act {
      case Push(data, deadline) => GoodPush(e, p, w, data, deadline);
      case Tick(now, deadlines) => GoodTick(e, p, w, now, deadlines);
      case Arrive(pack) => GoodArrive(e, p, w, pack);
      case ReadMessages => GoodDelivery(e, p, w, act);
      case Read(room) => GoodDelivery(e, p, w, act);
      case ControlAck(event) => GoodAck(e, p, w, event);
      case KeepAlive =>
        GoodControl(e, p, w, Control(EventKeepAlive, -777, e.recvLastFrameClientConsumed, e.flow));
      case Syn => GoodControl(e, p, w, Control(EventSyn, -98, 0, S.Flow(0, 0)));
      case Fin => GoodControl(e, p, w, Control(EventFin, -888, 0, e.flow));
    }
  }

  lemma Halves(s: System, x: Side, w: nat)
    requires Inv(s, w)
    ensures Half(s, x, w) && Half(s, Other(x), w) && Other(Other(x)) == x
  {
  }

  lemma PairSane(e: Endpoint, p: Endpoint, w: nat)
    requires Pair(e, p, w)
    ensures Sane(e)
  {
    assert R.ReadyOk(e.rcv.ready, e.rcv.nextFrameExpected, e.rcv.lastMsgConsumed, p.snd.sendHistory);
  }

  lemma InvPair(s: System, x: Side, w: nat)
    requires Inv(s, w)
    ensures Pair(End(s, x), End(s, Other(x)), w)
    ensures Sane(End(s, x))
    ensures NetTruthful(s.net, Other(x), End(s, Other(x)), w)
  {
    Halves(s, x, w);
    PairSane(End(s, x), End(s, Other(x)), w);
  }

  /** No move panics, and every move keeps the invariant. */
  lemma MoveKeepsInv(s: System, m: Move, w: nat)
    requires Inv(s, w)
    ensures !Panics(s, m)
    ensures Inv(Next(s, m), w)
  {
    InvPair(s, m.side, w);
    if Enabled(s, m.side, m.act) {
      if m.act.Arrive? {
        assert Msg(m.side, m.act.pack) in s.net;
      }
      GoodAction(End(s, m.side), End(s, Other(m.side)), w, m.act);
      GoodKeepsInv(s, m.side, Do(End(s, m.side), m.act).value, w);
    }
  }

  lemma StartInv(w: nat, windowBytes: int)
    requires 0 < w
    ensures Inv(Start(w, windowBytes), w)
  {
    R.InitValid(w, windowBytes);
  }

  /** Every run satisfies the invariant, at its end and so at every point of it. */
  lemma {:induction false} RunInv(w: nat, windowBytes: int, run: seq<Move>)
    requires 0 < w
    ensures Inv(After(w, windowBytes, run), w)
  {
    if run == [] {
      StartInv(w, windowBytes);
    } else {
      var before := run[..|run| - 1];
      RunInv(w, windowBytes, before);
      MoveKeepsInv(After(w, windowBytes, before), run[|run| - 1], w);
    }
  }

  // ---------- what every run guarantees, for data flowing from `x` to the other side ----------

  ghost predicate Tracked(snd: S.Sender, n: int) {
    InRange(snd.txq, snd.bySeq) && exists i :: 0 <= i < |snd.bySeq| && SeqOf(snd.txq[snd.bySeq[i]]) == n
  }

  lemma TrackedIffInInterval(snd: S.Sender, n: int)
    requires S.Valid(snd)
    ensures Tracked(snd, n) <==> S.Lowest(snd) <= n <= snd.lastFrameSent
  {
    S.TrackedSlots(snd);
    if S.Lowest(snd) <= n <= snd.lastFrameSent {
      assert SeqOf(snd.txq[snd.bySeq[n - S.Lowest(snd)]]) == n;
    }
  }

  /** Reliable, ordered, gapless, without duplicates: what was received is a prefix of what was sent. */
  lemma RunDelivers(w: nat, windowBytes: int, run: seq<Move>, x: Side)
    requires 0 < w
    ensures var s := After(w, windowBytes, run);
      var snd, rcv := End(s, x).snd, End(s, Other(x)).rcv;
      && rcv.nextFrameExpected <= |snd.sendHistory|
      && rcv.recvHistory == snd.sendHistory[..rcv.nextFrameExpected]
      && R.SlotsOk(rcv.rxq, rcv.nextFrameExpected, rcv.largestSeqnoRcvd, snd.sendHistory)
  {
    RunInv(w, windowBytes, run);
    InvPair(After(w, windowBytes, run), x, w);
  }

  /** The packets side `x` got accepted for sending, in order. */
  ghost function Pushes(w: nat, windowBytes: int, run: seq<Move>, x: Side): seq<seq<byte>>
    requires 0 < w
  {
    if run == [] then []
    else
      var before, m := run[..|run| - 1], run[|run| - 1];
      Pushes(w, windowBytes, before, x) +
      (if m.side == x && m.act.Push? && Enabled(After(w, windowBytes, before), x, m.act) then [m.act.data] else [])
  }

  /** The frames of the send history carry exactly the bytes pushed. */
  lemma {:induction false} RunPushed(w: nat, windowBytes: int, run: seq<Move>, x: Side)
    requires 0 < w
    ensures var hist := End(After(w, windowBytes, run), x).snd.sendHistory;
      R.Stream(hist, |hist|) == Flatten(Pushes(w, windowBytes, run, x))
  {
    if run != [] {
      var before, m := run[..|run| - 1], run[|run| - 1];
      RunPushed(w, windowBytes, before, x);
      MovePushes(After(w, windowBytes, before), m, x);
      if m.side == x && m.act.Push? && Enabled(After(w, windowBytes, before), x, m.act) {
        FlattenSnoc(Pushes(w, windowBytes, before, x), m.act.data);
      } else {
        ConcatNothing(Pushes(w, windowBytes, before, x));
      }
    }
  }

  lemma MovePushes(s: System, m: Move, x: Side)
    ensures var hist, hist' := End(s, x).snd.sendHistory, End(Next(s, m), x).snd.sendHistory;
      R.Stream(hist', |hist'|) == R.Stream(hist, |hist|) +
        (if m.side == x && m.act.Push? && Enabled(s, x, m.act) then m.act.data else [])
  {
    var hist, hist' := End(s, x).snd.sendHistory, End(Next(s, m), x).snd.sendHistory;
    if m.side == x && m.act.Push? && Enabled(s, x, m.act) {
      var f := S.NextPacket(End(s, x).snd, m.act.data, End(s, x).flow).frame;
      assert hist' == hist + [f];
      R.StreamExtend(hist, f, |hist|);
    }
  }

  /** The byte stream: what Reads and message deliveries handed out is a prefix of what was pushed. */
  lemma RunStreams(w: nat, windowBytes: int, run: seq<Move>, x: Side)
    requires 0 < w
    ensures var s := After(w, windowBytes, run);
      var snd, rcv := End(s, x).snd, End(s, Other(x)).rcv;
      && rcv.out <= Flatten(Pushes(w, windowBytes, run, x))
      && (rcv.lastMsgConsumed == snd.lastFrameSent ==> rcv.out == Flatten(Pushes(w, windowBytes, run, x)))
      && (rcv.lastMsgConsumed >= 0 || rcv.out != [] ==> rcv.lastByteConsumed == |rcv.out|)
  {
    RunInv(w, windowBytes, run);
    var s := After(w, windowBytes, run);
    InvPair(s, x, w);
    R.OutIsPrefix(End(s, Other(x)).rcv, End(s, x).snd.sendHistory);
    RunPushed(w, windowBytes, run, x);
  }

  /** The un-acked frames are an interval ending at the last one sent, no longer than the window,
      and once frame 0 is consumed no frame sent lies above the receiver's window. */
  lemma RunWindow(w: nat, windowBytes: int, run: seq<Move>, x: Side, n: int)
    requires 0 < w
    ensures var s := After(w, windowBytes, run);
      var snd, rcv := End(s, x).snd, End(s, Other(x)).rcv;
      && (Tracked(snd, n) <==> snd.lastFrameSent - |snd.bySeq| < n <= snd.lastFrameSent)
      && |snd.bySeq| <= w
      && snd.lastFrameSent <= Max0(rcv.lastMsgConsumed) + w
      && (rcv.lastMsgConsumed >= 0 ==> snd.lastFrameSent <= rcv.nextFrameExpected + w - 1)
  {
    RunInv(w, windowBytes, run);
    var s := After(w, windowBytes, run);
    InvPair(s, x, w);
    TrackedIffInInterval(End(s, x).snd, n);
  }

  /** Ack safety: a frame from number 1 on that is no longer tracked has been consumed. */
  lemma RunAckSafety(w: nat, windowBytes: int, run: seq<Move>, x: Side, n: int)
    requires 0 < w && 1 <= n <= End(After(w, windowBytes, run), x).snd.lastFrameSent
    requires !Tracked(End(After(w, windowBytes, run), x).snd, n)
    ensures n <= End(After(w, windowBytes, run), Other(x)).rcv.lastMsgConsumed
  {
    RunInv(w, windowBytes, run);
    var s := After(w, windowBytes, run);
    InvPair(s, x, w);
    TrackedIffInInterval(End(s, x).snd, n);
  }

  /** Both retry trees always hold the same slots, and no move panics. */
  lemma RunNeverPanics(w: nat, windowBytes: int, run: seq<Move>, m: Move)
    requires 0 < w
    ensures !Panics(After(w, windowBytes, run), m)
    ensures var snd := End(After(w, windowBytes, run), m.side).snd;
      multiset(snd.byDeadline) == multiset(snd.bySeq) && |snd.byDeadline| == |snd.bySeq|
  {
    RunInv(w, windowBytes, run);
    MoveKeepsInv(After(w, windowBytes, run), m, w);
    InvPair(After(w, windowBytes, run), m.side, w);
    S.TrackedSlots(End(After(w, windowBytes, run), m.side).snd);
  }

  /** The well-formedness condition on moves never excludes any. */
  lemma AlwaysSane(w: nat, windowBytes: int, run: seq<Move>, x: Side)
    requires 0 < w
    ensures Sane(End(After(w, windowBytes, run), x))
  {
    RunInv(w, windowBytes, run);
    InvPair(After(w, windowBytes, run), x, w);
  }
}
