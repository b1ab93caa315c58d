/**
 That the window makes headway: a frame that arrives is delivered, what is consumed is acknowledged
 and released, and every run can be brought to the point where everything sent has been read.
 */
module SwpProgress {
  import opened Common
  import opened SwpEvents
  import opened SwpTypes
  import opened SwpSession
  import opened Retree
  import S = SwpSender
  import R = SwpReceiver

  // ---------- runs, one move longer ----------

  lemma AfterSnoc(w: nat, windowBytes: int, run: seq<Move>, m: Move)
    requires 0 < w
    ensures After(w, windowBytes, run + [m]) == Next(After(w, windowBytes, run), m)
  {
    SplitLast(run, [m]);
    ConcatNothing(run);
  }

  lemma PushesSnoc(w: nat, windowBytes: int, run: seq<Move>, m: Move, x: Side)
    requires 0 < w
    ensures Pushes(w, windowBytes, run + [m], x) == Pushes(w, windowBytes, run, x) +
      (if m.side == x && m.act.Push? && Enabled(After(w, windowBytes, run), x, m.act) then [m.act.data] else [])
  {
    SplitLast(run, [m]);
    ConcatNothing(run);
  }

  // ---------- every frame sent is under way, and may arrive ----------

  /** Some data packet sent to `y` carries `f`. */
  ghost predicate Carried(net: set<Msg>, y: Side, f: Frame) {
    exists m :: m in net && m.dest == y && m.pack.event == EventData && m.pack.frame == f
  }

  ghost predicate AllCarried(s: System, x: Side) {
    var hist := End(s, x).snd.sendHistory;
    forall k :: 0 <= k < |hist| ==> Carried(s.net, Other(x), hist[k])
  }

  lemma MoveCarries(s: System, m: Move, x: Side)
    requires AllCarried(s, x)
    ensures AllCarried(Next(s, m), x)
  {
    var hist, hist' := End(s, x).snd.sendHistory, End(Next(s, m), x).snd.sendHistory;
    if m.side == x && m.act.Push? && Enabled(s, x, m.act) {
      var p := S.NextPacket(End(s, x).snd, m.act.data, End(s, x).flow);
      assert hist' == hist + [p.frame];
      assert Msg(Other(x), p) in Next(s, m).net;
    } else {
      assert hist' == hist;
    }
    forall k | 0 <= k < |hist'| ensures Carried(Next(s, m).net, Other(x), hist'[k]) {
      if k < |hist| {
        assert Carried(s.net, Other(x), hist[k]);
      }
    }
  }

  /** Whatever a run did, every frame sent is carried by a packet that may still arrive. */
  lemma {:induction false} RunCarries(w: nat, windowBytes: int, run: seq<Move>, x: Side)
    requires 0 < w
    ensures AllCarried(After(w, windowBytes, run), x)
  {
    if run != [] {
      RunCarries(w, windowBytes, run[..|run| - 1], x);
      MoveCarries(After(w, windowBytes, run[..|run| - 1]), run[|run| - 1], x);
    }
  }

  // ---------- arrival of the expected frame ----------

  /** The expected frame is received, with all that waited for it. */
  lemma ReceiveExpected(e: Endpoint, p: Packet)
    requires 0 < |e.rcv.rxq| && R.Slot(e.rcv.rxq, e.rcv.nextFrameExpected).None?
    requires R.NoteArrival(e.rcv, p.frame).Some?
    requires p.event == EventData && p.frame.seqNum == e.rcv.nextFrameExpected
    ensures Receive(e, p).Some?
    ensures var rcv := Receive(e, p).value.end.rcv;
      e.rcv.nextFrameExpected < rcv.nextFrameExpected && rcv.out == e.rcv.out
  {
    var rcv := R.UpdateControl(R.NoteArrival(e.rcv, p.frame).value);
    var frames := R.ExpectedArrives(rcv, p.frame);
  }

  /** What an enabled arrival makes of the system. */
  lemma ArriveIs(s: System, y: Side, p: Packet)
    requires Sane(End(s, y)) && Msg(y, p) in s.net && Receive(End(s, y), p).Some?
    ensures var eff, t := Receive(End(s, y), p).value, Next(s, Move(y, Arrive(p)));
      && End(t, y) == eff.end && End(t, Other(y)) == End(s, Other(y))
      && forall q :: q in eff.sent ==> Msg(Other(y), q) in t.net
  {
    assert Next(s, Move(y, Arrive(p))) == Apply(s, y, Receive(End(s, y), p).value);
  }

  lemma RcvOk(s: System, w: nat, y: Side, p: Packet)
    requires Inv(s, w) && Msg(y, p) in s.net
    ensures var rcv := End(s, y).rcv;
      && |rcv.rxq| == w && R.Slot(rcv.rxq, rcv.nextFrameExpected).None? && R.NoteArrival(rcv, p.frame).Some?
      && Sane(End(s, y))
  {
    InvPair(s, y, w);
    R.NoteArrivalValid(End(s, y).rcv, p.frame, End(s, Other(y)).snd.sendHistory);
  }

  /** The expected frame moves the other side on, past it and all that waited for it. */
  lemma ExpectedMoves(s: System, w: nat, x: Side, p: Packet)
    requires Inv(s, w) && Msg(Other(x), p) in s.net
    requires p.event == EventData && p.frame.seqNum == End(s, Other(x)).rcv.nextFrameExpected
    ensures var y := Other(x);
      var t := Next(s, Move(y, Arrive(p)));
      && End(t, x) == End(s, x)
      && End(s, y).rcv.nextFrameExpected < End(t, y).rcv.nextFrameExpected
      && End(t, y).rcv.out == End(s, y).rcv.out
  {
    RcvOk(s, w, Other(x), p);
    ReceiveExpected(End(s, Other(x)), p);
    ArriveIs(s, Other(x), p);
  }

  /** A run whose other side has received everything sent. */
  lemma {:induction false} CanReceive(w: nat, windowBytes: int, run: seq<Move>, x: Side) returns (more: seq<Move>)
    requires 0 < w
    ensures forall i :: 0 <= i < |more| ==> more[i].side == Other(x) && more[i].act.Arrive?
    ensures Pushes(w, windowBytes, run + more, x) == Pushes(w, windowBytes, run, x)
    ensures var s, t := After(w, windowBytes, run), After(w, windowBytes, run + more);
      && End(t, x) == End(s, x)
      && End(t, Other(x)).rcv.nextFrameExpected == |End(s, x).snd.sendHistory|
    decreases |End(After(w, windowBytes, run), x).snd.sendHistory|
              - End(After(w, windowBytes, run), Other(x)).rcv.nextFrameExpected
  {
    var s, y := After(w, windowBytes, run), Other(x);
    var hist, n := End(s, x).snd.sendHistory, End(s, y).rcv.nextFrameExpected;
    RunDelivers(w, windowBytes, run, x);
    more := [];
    ConcatNothing(run);
    if n < |hist| {
      var m := NextArrival(w, windowBytes, run, x);
      AfterSnoc(w, windowBytes, run, m);
      PushesSnoc(w, windowBytes, run, m, x);
      ConcatNothing(Pushes(w, windowBytes, run, x));
      RunDelivers(w, windowBytes, run + [m], x);
      var rest := CanReceive(w, windowBytes, run + [m], x);
      more := [m] + rest;
      ConcatAssoc(run, [m], rest);
    }
  }

  /** While something is missing, the next frame can arrive, and moves the other side on. */
  lemma NextArrival(w: nat, windowBytes: int, run: seq<Move>, x: Side) returns (m: Move)
    requires 0 < w
    requires var s := After(w, windowBytes, run);
      End(s, Other(x)).rcv.nextFrameExpected < |End(s, x).snd.sendHistory|
    ensures m.side == Other(x) && m.act.Arrive?
    ensures var s := After(w, windowBytes, run);
      && End(Next(s, m), x) == End(s, x)
      && End(s, Other(x)).rcv.nextFrameExpected < End(Next(s, m), Other(x)).rcv.nextFrameExpected
  {
    var s, y := After(w, windowBytes, run), Other(x);
    var hist, n := End(s, x).snd.sendHistory, End(s, y).rcv.nextFrameExpected;
    RunInv(w, windowBytes, run);
    RunCarries(w, windowBytes, run, x);
    InvPair(s, x, w);
    assert S.FrameOk(hist, n);
    assert Carried(s.net, y, hist[n]);
    var c :| c in s.net && c.dest == y && c.pack.event == EventData && c.pack.frame == hist[n];
    m := Move(y, Arrive(c.pack));
    assert c == Msg(y, c.pack);
    ExpectedMoves(s, w, x, c.pack);
  }

  /** With room for more than was ever sent, a read takes everything received. */
  lemma FillsAll(r: R.Receiver, hist: seq<Frame>) returns (room: nat)
    requires R.Valid(r, hist)
    ensures R.OffsetsOk(r.ready) && R.Fill(r, room).ready == []
  {
    R.OutIsPrefix(r, hist);
    room := |R.Stream(hist, |hist|)| - |r.out| + 1;
    R.FillValid(r, room, hist);
    R.OutIsPrefix(R.Fill(r, room), hist);
  }

  /** What a read makes of the system. */
  lemma ReadIs(s: System, y: Side, room: nat)
    requires Sane(End(s, y))
    ensures var rcv, t := R.Fill(End(s, y).rcv, room), Next(s, Move(y, Read(room)));
      && End(t, Other(y)) == End(s, Other(y))
      && (End(t, y).rcv == rcv || End(t, y).rcv == R.UpdateControl(rcv))
  {
    assert Next(s, Move(y, Read(room))) == Apply(s, y, Do(End(s, y), Read(room)).value);
  }

  lemma ReadsAll(s: System, w: nat, x: Side) returns (room: nat)
    requires Inv(s, w)
    ensures var t := Next(s, Move(Other(x), Read(room)));
      && End(t, x) == End(s, x)
      && End(t, Other(x)).rcv.nextFrameExpected == End(s, Other(x)).rcv.nextFrameExpected
      && End(t, Other(x)).rcv.ready == []
  {
    InvPair(s, Other(x), w);
    room := FillsAll(End(s, Other(x)).rcv, End(s, x).snd.sendHistory);
    FillKeeps(End(s, Other(x)).rcv, room);
    ReadIs(s, Other(x), room);
  }

  lemma {:induction false} FillKeeps(r: R.Receiver, room: nat)
    requires R.OffsetsOk(r.ready)
    ensures R.Fill(r, room).nextFrameExpected == r.nextFrameExpected
    decreases |r.ready|
  {
    if r.ready != [] && room != 0 {
      var left := |r.ready[0].frame.data| - r.ready[0].offset;
      if left <= room { FillKeeps(R.Consume(r, left), room - left); }
    }
  }

  /** Received to the end and nothing left in the queue: everything sent is consumed. */
  lemma AllConsumed(s: System, w: nat, x: Side)
    requires Inv(s, w)
    requires End(s, Other(x)).rcv.nextFrameExpected == |End(s, x).snd.sendHistory|
    requires End(s, Other(x)).rcv.ready == []
    ensures End(s, Other(x)).rcv.lastMsgConsumed == End(s, x).snd.lastFrameSent
  {
    InvPair(s, x, w);
  }

  /** Where everything sent is received, one read hands out the rest. */
  lemma CanRead(w: nat, windowBytes: int, run: seq<Move>, x: Side) returns (room: nat)
    requires 0 < w
    requires var s := After(w, windowBytes, run);
      End(s, Other(x)).rcv.nextFrameExpected == |End(s, x).snd.sendHistory|
    ensures End(After(w, windowBytes, run + [Move(Other(x), Read(room))]), Other(x)).rcv.out
         == Flatten(Pushes(w, windowBytes, run, x))
  {
    RunInv(w, windowBytes, run);
    room := ReadsAll(After(w, windowBytes, run), w, x);
    var m := Move(Other(x), Read(room));
    AfterSnoc(w, windowBytes, run, m);
    PushesSnoc(w, windowBytes, run, m, x);
    ConcatNothing(Pushes(w, windowBytes, run, x));
    RunInv(w, windowBytes, run + [m]);
    AllConsumed(After(w, windowBytes, run + [m]), w, x);
    RunStreams(w, windowBytes, run + [m], x);
  }

  /** Every run can go on, with arrivals and one read at the other side alone, until all that was
      pushed has been read, byte for byte. */
  lemma RunCanFinish(w: nat, windowBytes: int, run: seq<Move>, x: Side) returns (more: seq<Move>)
    requires 0 < w
    ensures forall i :: 0 <= i < |more| ==> more[i].side == Other(x) && (more[i].act.Arrive? || more[i].act.Read?)
    ensures End(After(w, windowBytes, run + more), Other(x)).rcv.out == Flatten(Pushes(w, windowBytes, run, x))
  {
    var arrivals := CanReceive(w, windowBytes, run, x);
    var room := CanRead(w, windowBytes, run + arrivals, x);
    more := arrivals + [Move(Other(x), Read(room))];
    ConcatAssoc(run, arrivals, [Move(Other(x), Read(room))]);
  }

  // ---------- one packet, there and read ----------

  /** What an accepted packet makes of the system. */
  lemma PushIs(s: System, x: Side, data: seq<byte>, deadline: int)
    requires Enabled(s, x, Push(data, deadline))
    ensures var t, p := Next(s, Move(x, Push(data, deadline))), S.NextPacket(End(s, x).snd, data, End(s, x).flow);
      && End(t, Other(x)) == End(s, Other(x)) && Msg(Other(x), p) in t.net
      && End(t, x).snd.sendHistory == End(s, x).snd.sendHistory + [p.frame]
      && p.msgCap == End(s, x).flow.msgCap && p.bytesCap == End(s, x).flow.bytesCap
  {
    var p := S.NextPacket(End(s, x).snd, data, End(s, x).flow);
    assert Next(s, Move(x, Push(data, deadline)))
        == Apply(s, x, Effect(End(s, x).(snd := S.OrigDataSend(End(s, x).snd, data, deadline, End(s, x).flow)), [p]));
    assert p in [p];
  }

  /** With everything consumed, nothing is queued and the next number is the one expected. */
  lemma NothingOpen(s: System, w: nat, x: Side)
    requires Inv(s, w) && End(s, Other(x)).rcv.lastMsgConsumed == End(s, x).snd.lastFrameSent
    ensures End(s, Other(x)).rcv.nextFrameExpected == End(s, x).snd.lastFrameSent + 1
         == |End(s, x).snd.sendHistory|
  {
    InvPair(s, x, w);
  }

  /** The packet `x` sends for `data` after `run`. */
  ghost function PacketFor(w: nat, windowBytes: int, run: seq<Move>, x: Side, data: seq<byte>): Packet
    requires 0 < w
  {
    var e := End(After(w, windowBytes, run), x);
    S.NextPacket(e.snd, data, e.flow)
  }

  /** A packet accepted while everything before it is consumed, arriving at the other side, is the
      last thing received there. */
  lemma PushArrives(w: nat, windowBytes: int, run: seq<Move>, x: Side, data: seq<byte>, deadline: int)
    requires 0 < w && Enabled(After(w, windowBytes, run), x, Push(data, deadline))
    requires var s := After(w, windowBytes, run); End(s, Other(x)).rcv.lastMsgConsumed == End(s, x).snd.lastFrameSent
    ensures var run' := run + [Move(x, Push(data, deadline))]
                            + [Move(Other(x), Arrive(PacketFor(w, windowBytes, run, x, data)))];
      var s, t := After(w, windowBytes, run), After(w, windowBytes, run');
      && End(t, Other(x)).rcv.nextFrameExpected == |End(t, x).snd.sendHistory|
      && End(t, Other(x)).rcv.out == End(s, Other(x)).rcv.out
      && Pushes(w, windowBytes, run', x) == Pushes(w, windowBytes, run, x) + [data]
  {
    var s, p := After(w, windowBytes, run), PacketFor(w, windowBytes, run, x, data);
    var m1, m2 := Move(x, Push(data, deadline)), Move(Other(x), Arrive(p));
    RunInv(w, windowBytes, run);
    NothingOpen(s, w, x);
    PushIs(s, x, data, deadline);
    AfterSnoc(w, windowBytes, run, m1);
    PushesSnoc(w, windowBytes, run, m1, x);
    var run1 := run + [m1];
    RunInv(w, windowBytes, run1);
    ExpectedMoves(After(w, windowBytes, run1), w, x, p);
    AfterSnoc(w, windowBytes, run1, m2);
    PushesSnoc(w, windowBytes, run1, m2, x);
    ConcatNothing(Pushes(w, windowBytes, run1, x));
    RunDelivers(w, windowBytes, run1 + [m2], x);
  }

  /** A read hands out as many bytes as there is room for, or leaves nothing in the queue. */
  lemma ReadHands(s: System, w: nat, x: Side, room: nat)
    requires Inv(s, w)
    ensures var t := Next(s, Move(Other(x), Read(room)));
      && End(t, x) == End(s, x)
      && End(t, Other(x)).rcv.nextFrameExpected == End(s, Other(x)).rcv.nextFrameExpected
      && (|End(t, Other(x)).rcv.out| == |End(s, Other(x)).rcv.out| + room || End(t, Other(x)).rcv.ready == [])
  {
    InvPair(s, Other(x), w);
    R.FillValid(End(s, Other(x)).rcv, room, End(s, x).snd.sendHistory);
    FillKeeps(End(s, Other(x)).rcv, room);
    ReadIs(s, Other(x), room);
  }

  /** A read of as many bytes as were pushed last, once all before is consumed, hands out those. */
  lemma ReadsLast(w: nat, windowBytes: int, run: seq<Move>, x: Side, before: seq<byte>, data: seq<byte>)
    requires 0 < w
    requires Flatten(Pushes(w, windowBytes, run, x)) == before + data
    requires var s := After(w, windowBytes, run);
      && End(s, Other(x)).rcv.nextFrameExpected == |End(s, x).snd.sendHistory|
      && End(s, Other(x)).rcv.out == before
    ensures End(After(w, windowBytes, run + [Move(Other(x), Read(|data|))]), Other(x)).rcv.out == before + data
  {
    var y := Other(x);
    var m := Move(y, Read(|data|));
    RunInv(w, windowBytes, run);
    ReadHands(After(w, windowBytes, run), w, x, |data|);
    AfterSnoc(w, windowBytes, run, m);
    PushesSnoc(w, windowBytes, run, m, x);
    ConcatNothing(Pushes(w, windowBytes, run, x));
    RunInv(w, windowBytes, run + [m]);
    RunStreams(w, windowBytes, run + [m], x);
    if End(After(w, windowBytes, run + [m]), y).rcv.ready == [] {
      AllConsumed(After(w, windowBytes, run + [m]), w, x);
    } else {
      SameLength(End(After(w, windowBytes, run + [m]), y).rcv.out, before + data);
    }
  }

  lemma SameLength<T>(a: seq<T>, b: seq<T>)
    requires a <= b && |a| == |b|
    ensures a == b
  {
  }

  /** A push, the arrival of its packet and a read: the other side's application has the data. */
  lemma PushedIsRead(w: nat, windowBytes: int, run: seq<Move>, x: Side, data: seq<byte>, deadline: int)
    requires 0 < w && Enabled(After(w, windowBytes, run), x, Push(data, deadline))
    requires var s := After(w, windowBytes, run); End(s, Other(x)).rcv.lastMsgConsumed == End(s, x).snd.lastFrameSent
    ensures var run' := run + [Move(x, Push(data, deadline))]
                            + [Move(Other(x), Arrive(PacketFor(w, windowBytes, run, x, data)))]
                            + [Move(Other(x), Read(|data|))];
      End(After(w, windowBytes, run'), Other(x)).rcv.out
      == End(After(w, windowBytes, run), Other(x)).rcv.out + data
  {
    var run2 := run + [Move(x, Push(data, deadline))]
                    + [Move(Other(x), Arrive(PacketFor(w, windowBytes, run, x, data)))];
    PushArrives(w, windowBytes, run, x, data, deadline);
    RunStreams(w, windowBytes, run, x);
    FlattenSnoc(Pushes(w, windowBytes, run, x), data);
    ReadsLast(w, windowBytes, run2, x, End(After(w, windowBytes, run), Other(x)).rcv.out, data);
  }

  /** From the very start, with the packet written out. */
  lemma FirstExchange(w: nat, windowBytes: int, data: seq<byte>, deadline: int)
    requires 0 < w
    ensures var run := [Move(A, Push(data, deadline)),
                        Move(B, Arrive(Packet(EventData, Frame(0, |data|, data), 0, 0, 0, 0))),
                        Move(B, Read(|data|))];
      End(After(w, windowBytes, run), B).rcv.out == data
  {
    var run: seq<Move> := [];
    var p := Packet(EventData, Frame(0, |data|, data), 0, 0, 0, 0);
    var m1, m2, m3 := Move(A, Push(data, deadline)), Move(B, Arrive(p)), Move(B, Read(|data|));
    RunInv(w, windowBytes, run);
    InvPair(Start(w, windowBytes), A, w);
    assert PacketFor(w, windowBytes, run, A, data) == p;
    PushedIsRead(w, windowBytes, run, A, data, deadline);
    assert run + [m1] + [m2] + [m3] == [m1, m2, m3];
    ConcatNothing(data);
  }

  // ---------- what is consumed is acknowledged and released ----------

  /** `p` tells the truth about `rcv`: the last frame consumed, and what there is room for. */
  ghost predicate Reports(p: Packet, rcv: R.Receiver, hist: seq<Frame>)
    requires -1 <= rcv.lastMsgConsumed <= rcv.largestSeqnoRcvd < |hist|
  {
    var heard := rcv.largestSeqnoRcvd + 1;
    && p.ackNum == Max0(rcv.lastMsgConsumed)
    && p.msgCap == |rcv.rxq| - |hist[rcv.lastMsgConsumed + 1..heard]|
    && p.bytesCap == rcv.windowBytes - (|R.Stream(hist, heard)| - |rcv.out|)
                     + (if rcv.lastByteConsumed < 0 then 0 else 1)
  }

  /** The sender half is told the same, except that a negative capacity leaves what it knew. */
  ghost predicate Publishes(flow: S.Flow, before: S.Flow, msgCap: int, bytesCap: int) {
    && flow.msgCap == (if msgCap >= 0 then msgCap else before.msgCap)
    && flow.bytesCap == (if bytesCap >= 0 then bytesCap else before.bytesCap)
  }

  lemma AckPublishes(e: Endpoint, event: TcpEvent)
    ensures var eff := Ack(e, event);
      |eff.sent| == 1 && Publishes(eff.end.flow, e.flow, eff.sent[0].msgCap, eff.sent[0].bytesCap)
  {
  }

  /** Every acknowledgement reports the receiver as it is. */
  lemma AckReports(e: Endpoint, hist: seq<Frame>, event: TcpEvent)
    requires R.Valid(e.rcv, hist)
    ensures var eff := Ack(e, event);
      && |eff.sent| == 1 && eff.sent[0].event == event && Reports(eff.sent[0], e.rcv, hist)
      && eff.end.rcv.lastMsgConsumed == e.rcv.lastMsgConsumed && eff.end.rcv.out == e.rcv.out
  {
    R.AdvertisedExactly(e.rcv, hist);
  }

  /** What a delivery that leaves receiver `rcv` sends: its report if it ended a message, else nothing. */
  ghost predicate Reported(eff: Effect, rcv: R.Receiver, ended: bool, hist: seq<Frame>) {
    && R.Valid(rcv, hist) && eff.end.rcv.lastMsgConsumed == rcv.lastMsgConsumed
    && if ended then |eff.sent| == 1 && eff.sent[0].event == EventDataAck && Reports(eff.sent[0], rcv, hist)
       else eff.sent == []
  }

  /** A read acknowledges what was consumed once it ends a message. */
  lemma ReadReports(e: Endpoint, hist: seq<Frame>, room: nat)
    requires R.Valid(e.rcv, hist) && Sane(e)
    ensures Do(e, Read(room)).Some?
    ensures var rcv := R.Fill(e.rcv, room);
      Reported(Do(e, Read(room)).value, rcv, rcv.lastMsgConsumed > e.rcv.lastMsgConsumed, hist)
  {
    R.FillValid(e.rcv, room, hist);
    AckReports(e.(rcv := R.Fill(e.rcv, room)), hist, EventDataAck);
  }

  /** Delivering messages acknowledges what was delivered. */
  lemma MessagesReport(e: Endpoint, hist: seq<Frame>)
    requires R.Valid(e.rcv, hist) && Ready(e, ReadMessages)
    ensures Do(e, ReadMessages).Some? && Reported(Do(e, ReadMessages).value, R.DeliverAll(e.rcv), true, hist)
  {
    R.DeliverAllValid(e.rcv, hist);
    AckReports(e.(rcv := R.DeliverAll(e.rcv)), hist, EventDataAck);
  }

  lemma GotPackReleases(snd: S.Sender, p: Packet, n: int)
    requires S.Valid(snd)
    ensures Tracked(S.GotPack(snd, p), n) <==> Tracked(snd, n) && n > p.ackNum
  {
    S.GotPackValid(snd, p);
    TrackedIffInInterval(snd, n);
    TrackedIffInInterval(S.GotPack(snd, p), n);
  }

  /** Whatever arrives, the frames still tracked are those beyond its acknowledgement. */
  lemma ArrivalReleases(s: System, w: nat, x: Side, p: Packet, n: int)
    requires Inv(s, w) && Msg(x, p) in s.net
    ensures Tracked(End(Next(s, Move(x, Arrive(p))), x).snd, n) <==> Tracked(End(s, x).snd, n) && n > p.ackNum
  {
    RcvOk(s, w, x, p);
    LowestConsumed(s, w, x);
    ReceiveTells(End(s, x), p);
    ArriveIs(s, x, p);
    GotPackReleases(End(s, x).snd, p, n);
  }

  /** Whatever arrives, its capacities decide from then on whether another packet may go out. */
  lemma ArrivalGates(s: System, w: nat, x: Side, p: Packet)
    requires Inv(s, w) && Msg(x, p) in s.net
    ensures var snd := End(Next(s, Move(x, Arrive(p))), x).snd;
      && InRange(snd.txq, snd.byDeadline) && 0 <= S.Lowest(snd) <= |snd.sendHistory|
      && (S.AcceptSend(snd) <==>
          && |snd.sendHistory| - S.Lowest(snd) < p.msgCap
          && snd.totalBytesSent - S.BytesBefore(snd.sendHistory, S.Lowest(snd)) < p.bytesCap)
  {
    RcvOk(s, w, x, p);
    LowestConsumed(s, w, x);
    ReceiveTells(End(s, x), p);
    ArriveIs(s, x, p);
    S.GotPackValid(End(s, x).snd, p);
    PairedRange(S.GotPack(End(s, x).snd, p));
    S.AcceptExactly(S.GotPack(End(s, x).snd, p));
  }

  lemma PairedRange(snd: S.Sender)
    requires S.Valid(snd)
    ensures InRange(snd.txq, snd.byDeadline)
  {
    S.TrackedSlots(snd);
  }

  lemma ReceiveTells(e: Endpoint, p: Packet)
    requires 0 < |e.rcv.rxq| && R.NoteArrival(e.rcv, p.frame).Some?
    ensures Receive(e, p).Some? && Receive(e, p).value.end.snd == S.GotPack(e.snd, p)
  {
  }

  /** A delivery that ends a message puts its acknowledgement into the network. */
  lemma DeliverySends(s: System, w: nat, y: Side, act: Action) returns (p: Packet)
    requires Inv(s, w) && Enabled(s, y, act) && (act.ReadMessages? || act.Read?)
    requires End(s, y).rcv.lastMsgConsumed < End(Next(s, Move(y, act)), y).rcv.lastMsgConsumed
    ensures var t := Next(s, Move(y, act));
      && End(t, Other(y)) == End(s, Other(y))
      && Msg(Other(y), p) in t.net && p.ackNum == End(t, y).rcv.lastMsgConsumed
  {
    InvPair(s, y, w);
    var hist := End(s, Other(y)).snd.sendHistory;
    if act.Read? {
      ReadReports(End(s, y), hist, act.room);
    } else {
      MessagesReport(End(s, y), hist);
    }
    var eff := Do(End(s, y), act).value;
    assert Next(s, Move(y, act)) == Apply(s, y, eff);
    p := eff.sent[0];
    assert p in eff.sent;
  }

  /** What the other side's application takes is acknowledged, and when the acknowledgement arrives
      exactly the frames after the last one consumed are still tracked. */
  lemma ConsumedIsReleased(s: System, w: nat, x: Side, act: Action, n: int) returns (p: Packet)
    requires Inv(s, w) && Enabled(s, Other(x), act) && (act.ReadMessages? || act.Read?)
    requires End(s, Other(x)).rcv.lastMsgConsumed
           < End(Next(s, Move(Other(x), act)), Other(x)).rcv.lastMsgConsumed
    ensures var t := Next(s, Move(Other(x), act));
      && Msg(x, p) in t.net && p.ackNum == End(t, Other(x)).rcv.lastMsgConsumed
      && (Tracked(End(Next(t, Move(x, Arrive(p))), x).snd, n) <==>
          End(t, Other(x)).rcv.lastMsgConsumed < n <= End(s, x).snd.lastFrameSent)
  {
    var t := Next(s, Move(Other(x), act));
    p := DeliverySends(s, w, Other(x), act);
    MoveKeepsInv(s, Move(Other(x), act), w);
    ArrivalReleases(t, w, x, p, n);
    LowestConsumed(t, w, x);
    TrackedIffInInterval(End(t, x).snd, n);
  }

  lemma LowestConsumed(s: System, w: nat, x: Side)
    requires Inv(s, w)
    ensures S.Lowest(End(s, x).snd) <= Max0(End(s, Other(x)).rcv.lastMsgConsumed) + 1 && S.Valid(End(s, x).snd)
  {
    InvPair(s, x, w);
  }

  lemma DiscardIs(e: Endpoint, p: Packet, noted: R.Receiver) returns (e': Endpoint)
    requires 0 < |e.rcv.rxq| == |noted.rxq| && R.NoteArrival(e.rcv, p.frame) == Some(noted) && p.event == EventData
    requires !(noted.nextFrameExpected <= p.frame.seqNum < noted.nextFrameExpected + |noted.rxq|)
    ensures Receive(e, p) == Some(Ack(e', EventDataAck))
    ensures e'.rcv == R.UpdateControl(noted).(discardCount := noted.discardCount + 1)
  {
    var rcv := R.UpdateControl(noted);
    e' := e.(rcv := rcv.(discardCount := rcv.discardCount + 1), flow := R.UpdateFlow(e.flow, rcv),
             snd := S.GotPack(e.snd, p));
  }

  lemma CountedValid(r: R.Receiver, hist: seq<Frame>, n: nat)
    requires R.Valid(r, hist)
    ensures R.Valid(R.UpdateControl(r).(discardCount := n), hist)
  {
  }

  lemma ReportsCounted(p: Packet, r: R.Receiver, n: nat, hist: seq<Frame>)
    requires R.Valid(r, hist) && Reports(p, R.UpdateControl(r).(discardCount := n), hist)
    ensures Reports(p, r, hist)
  {
  }

  /** A frame outside the window is answered with the same report. */
  lemma DiscardReports(e: Endpoint, hist: seq<Frame>, p: Packet)
    requires R.Valid(e.rcv, hist) && R.Known(p.frame, hist) && p.event == EventData
    requires !(e.rcv.nextFrameExpected <= p.frame.seqNum < e.rcv.nextFrameExpected + |e.rcv.rxq|)
    ensures Receive(e, p).Some? && R.NoteArrival(e.rcv, p.frame).Some?
    ensures var eff, noted := Receive(e, p).value, R.NoteArrival(e.rcv, p.frame).value;
      && R.Valid(noted, hist) && |eff.sent| == 1 && eff.sent[0].event == EventDataAck
      && Reports(eff.sent[0], noted, hist)
  {
    R.NoteArrivalValid(e.rcv, p.frame, hist);
    var noted := R.NoteArrival(e.rcv, p.frame).value;
    var e2 := DiscardIs(e, p, noted);
    CountedValid(noted, hist, noted.discardCount + 1);
    AckReports(e2, hist, EventDataAck);
    ReportsCounted(Ack(e2, EventDataAck).sent[0], noted, noted.discardCount + 1, hist);
  }

  /** A keepalive sent after an expected frame came in acknowledges what was consumed by then. */
  lemma KeepAliveReports(e: Endpoint, hist: seq<Frame>, p: Packet)
    requires R.Valid(e.rcv, hist) && R.Known(p.frame, hist) && p.event == EventData && Sane(e)
    requires p.frame.seqNum == e.rcv.nextFrameExpected
    ensures Receive(e, p).Some?
    ensures var e' := Receive(e, p).value.end;
      Sane(e') ==>
        var eff := Do(e', KeepAlive).value;
        && eff.end == e' && |eff.sent| == 1 && eff.sent[0].event == EventKeepAlive
        && eff.sent[0].ackNum == Max0(e.rcv.lastMsgConsumed)
  {
    R.NoteArrivalValid(e.rcv, p.frame, hist);
  }

  // ---------- the highest number heard of ----------

  /** The highest frame number that arrived at `y` in `run`; -1 before any. */
  ghost function Heard(w: nat, windowBytes: int, run: seq<Move>, y: Side): int
    requires 0 < w
  {
    if run == [] then -1
    else
      var before, m := run[..|run| - 1], run[|run| - 1];
      var h := Heard(w, windowBytes, before, y);
      if m.side == y && m.act.Arrive? && Enabled(After(w, windowBytes, before), y, m.act) && m.act.pack.frame.seqNum > h
      then m.act.pack.frame.seqNum else h
  }

  ghost predicate SameHearing(r: R.Receiver, r': R.Receiver) {
    r'.largestSeqnoRcvd == r.largestSeqnoRcvd && r'.windowBytes == r.windowBytes
  }

  lemma {:induction false} FillHears(r: R.Receiver, room: nat)
    requires R.OffsetsOk(r.ready)
    ensures SameHearing(r, R.Fill(r, room))
    decreases |r.ready|
  {
    if r.ready != [] && room != 0 {
      var left := |r.ready[0].frame.data| - r.ready[0].offset;
      if left <= room { FillHears(R.Consume(r, left), room - left); }
    }
  }

  lemma {:induction false} DeliverHears(r: R.Receiver)
    requires R.OffsetsOk(r.ready)
    ensures SameHearing(r, R.DeliverAll(r))
    decreases |r.ready|
  {
    if r.ready != [] {
      DeliverHears(R.Consume(r, |r.ready[0].frame.data| - r.ready[0].offset));
    }
  }

  lemma ReceiveHears(e: Endpoint, p: Packet)
    requires 0 < |e.rcv.rxq| && R.Slot(e.rcv.rxq, e.rcv.nextFrameExpected).None?
    requires R.NoteArrival(e.rcv, p.frame).Some?
    ensures Receive(e, p).Some?
    ensures var rcv := Receive(e, p).value.end.rcv;
      && rcv.windowBytes == e.rcv.windowBytes
      && rcv.largestSeqnoRcvd ==
         if p.frame.seqNum > e.rcv.largestSeqnoRcvd then p.frame.seqNum else e.rcv.largestSeqnoRcvd
  {
    var rcv := R.UpdateControl(R.NoteArrival(e.rcv, p.frame).value);
    var frames := R.AcceptDataExactly(rcv, p.frame);
  }

  lemma MoveHears(s: System, w: nat, m: Move, y: Side)
    requires Inv(s, w)
    ensures var rcv, rcv' := End(s, y).rcv, End(Next(s, m), y).rcv;
      && rcv'.windowBytes == rcv.windowBytes
      && rcv'.largestSeqnoRcvd ==
         if m.side == y && m.act.Arrive? && Enabled(s, y, m.act) && m.act.pack.frame.seqNum > rcv.largestSeqnoRcvd
         then m.act.pack.frame.seqNum else rcv.largestSeqnoRcvd
  {
    if m.side == y && Enabled(s, y, m.act) {
      match m.act {
        case Arrive(p) =>
          RcvOk(s, w, y, p);
          ReceiveHears(End(s, y), p);
          ArriveIs(s, y, p);
        case Read(room) => DeliveryHears(s, y, m.act);
        case ReadMessages => DeliveryHears(s, y, m.act);
        case _ => OthersHear(s, y, m.act);
      }
    }
  }

  lemma DeliveryHears(s: System, y: Side, act: Action)
    requires Enabled(s, y, act) && (act.Read? || act.ReadMessages?)
    ensures SameHearing(End(s, y).rcv, End(Next(s, Move(y, act)), y).rcv)
  {
    if act.Read? {
      FillHears(End(s, y).rcv, act.room);
    } else {
      DeliverHears(End(s, y).rcv);
    }
  }

  lemma OthersHear(s: System, y: Side, act: Action)
    requires Enabled(s, y, act) && !act.Read? && !act.ReadMessages? && !act.Arrive?
    ensures SameHearing(End(s, y).rcv, End(Next(s, Move(y, act)), y).rcv)
  {
  }

  /** The receiver knows the highest number that arrived, and keeps to its window of bytes. */
  lemma {:induction false} RunHears(w: nat, windowBytes: int, run: seq<Move>, y: Side)
    requires 0 < w
    ensures var rcv := End(After(w, windowBytes, run), y).rcv;
      rcv.largestSeqnoRcvd == Heard(w, windowBytes, run, y) && rcv.windowBytes == windowBytes
  {
    if run != [] {
      var before := run[..|run| - 1];
      RunHears(w, windowBytes, before, y);
      RunInv(w, windowBytes, before);
      MoveHears(After(w, windowBytes, before), w, run[|run| - 1], y);
    }
  }

  /** What an acknowledgement sent after `run` says, in terms of what arrived, what was consumed and
      what was handed out. */
  lemma RunAdvertises(w: nat, windowBytes: int, run: seq<Move>, x: Side, event: TcpEvent)
    requires 0 < w
    ensures var s := After(w, windowBytes, run);
      && |Ack(End(s, Other(x)), event).sent| == 1
      && Advertises(Ack(End(s, Other(x)), event).sent[0], w, windowBytes, Heard(w, windowBytes, run, Other(x)),
                    End(s, Other(x)).rcv, End(s, x).snd.sendHistory)
  {
    var s := After(w, windowBytes, run);
    RunHears(w, windowBytes, run, Other(x));
    RunInv(w, windowBytes, run);
    ValidEnd(s, w, x);
    AckReports(End(s, Other(x)), End(s, x).snd.sendHistory, event);
  }

  lemma ValidEnd(s: System, w: nat, x: Side)
    requires Inv(s, w)
    ensures R.Valid(End(s, Other(x)).rcv, End(s, x).snd.sendHistory) && |End(s, Other(x)).rcv.rxq| == w
  {
    InvPair(s, x, w);
  }

  /** `p` in terms of the highest number that arrived, what was consumed and what was handed out. */
  ghost predicate Advertises(p: Packet, w: nat, windowBytes: int, heard: int, rcv: R.Receiver, hist: seq<Frame>) {
    && -1 <= rcv.lastMsgConsumed <= heard < |hist| && p.ackNum == Max0(rcv.lastMsgConsumed)
    && p.msgCap == w - (heard - rcv.lastMsgConsumed)
    && p.bytesCap == windowBytes - (|R.Stream(hist, heard + 1)| - |rcv.out|)
                     + (if rcv.lastByteConsumed < 0 then 0 else 1)
  }

  // ---------- what is lost is sent again ----------

  /** The tracked frame whose deadline has passed is among those sent. */
  lemma LateIsSent(snd: S.Sender, now: int, deadlines: seq<int>, flow: S.Flow, i: nat) returns (k: nat)
    requires S.Valid(snd) && InRange(snd.txq, snd.byDeadline) && |deadlines| == |S.ExpiredSlots(snd, now)|
    requires i < |snd.bySeq| && InRange(snd.txq, snd.bySeq) && snd.txq[snd.bySeq[i]].retryDeadline <= now
    ensures var slot, sent := snd.bySeq[i], S.Retry(snd, now, deadlines, flow).sent;
      && k < |deadlines| == |sent| && 0 <= S.Lowest(snd) + i < |snd.sendHistory|
      && |S.RetryTick(snd, now, deadlines, flow).txq| == |snd.txq|
      && S.RetryTick(snd, now, deadlines, flow).txq[slot] == TxqSlot(deadlines[k], sent[k])
      && sent[k].event == EventData && sent[k].frame == snd.sendHistory[S.Lowest(snd) + i]
      && sent[k].seqRetry == snd.txq[slot].pack.seqRetry + 1
  {
    var slot := snd.bySeq[i];
    S.ExpiredExactly(snd, now, slot);
    k :| 0 <= k < |deadlines| && S.ExpiredSlots(snd, now)[k] == slot;
    S.RetryRefreshes(snd, now, deadlines, flow, k);
    assert S.TrackedAt(snd.txq, slot, snd.sendHistory[S.Lowest(snd) + i], S.Lowest(snd) + i);
  }

  /** The `i`-th tracked frame has gone out once more in `p`, which waits in its slot until `deadline`. */
  ghost predicate Resent(snd: S.Sender, snd': S.Sender, i: nat, p: Packet, deadline: int) {
    && i < |snd.bySeq| && snd.bySeq[i] < |snd.txq| == |snd'.txq| && 0 <= S.Lowest(snd) + i < |snd.sendHistory|
    && p.event == EventData && p.frame == snd.sendHistory[S.Lowest(snd) + i]
    && p.seqRetry == snd.txq[snd.bySeq[i]].pack.seqRetry + 1
    && snd'.txq[snd.bySeq[i]] == TxqSlot(deadline, p)
  }

  lemma LateGoesOut(snd: S.Sender, now: int, deadlines: seq<int>, flow: S.Flow, i: nat)
    returns (p: Packet, deadline: int)
    requires S.Valid(snd) && InRange(snd.txq, snd.byDeadline) && |deadlines| == |S.ExpiredSlots(snd, now)|
    requires i < |snd.bySeq| && InRange(snd.txq, snd.bySeq) && snd.txq[snd.bySeq[i]].retryDeadline <= now
    ensures p in S.Retry(snd, now, deadlines, flow).sent && deadline in deadlines
    ensures Resent(snd, S.RetryTick(snd, now, deadlines, flow), i, p, deadline)
  {
    var k := LateIsSent(snd, now, deadlines, flow, i);
    p, deadline := S.Retry(snd, now, deadlines, flow).sent[k], deadlines[k];
  }

  lemma TickIs(s: System, x: Side, now: int, deadlines: seq<int>)
    requires Enabled(s, x, Tick(now, deadlines))
    ensures var e, t := End(s, x), Next(s, Move(x, Tick(now, deadlines)));
      && End(t, x).snd == S.RetryTick(e.snd, now, deadlines, e.flow)
      && forall p :: p in S.Retry(e.snd, now, deadlines, e.flow).sent ==> Msg(Other(x), p) in t.net
  {
    var e := End(s, x);
    assert Next(s, Move(x, Tick(now, deadlines)))
        == Apply(s, x, Effect(e.(snd := S.RetryTick(e.snd, now, deadlines, e.flow)),
                              S.Retry(e.snd, now, deadlines, e.flow).sent));
  }

  /** A tick at which the deadline of a tracked frame has passed puts the frame into the network once
      more, and moves its deadline. */
  lemma TickResends(s: System, w: nat, x: Side, now: int, deadlines: seq<int>, i: nat)
    returns (p: Packet, deadline: int)
    requires Inv(s, w) && Enabled(s, x, Tick(now, deadlines))
    requires var snd := End(s, x).snd;
      i < |snd.bySeq| && InRange(snd.txq, snd.bySeq) && snd.txq[snd.bySeq[i]].retryDeadline <= now
    ensures var t := Next(s, Move(x, Tick(now, deadlines)));
      && Msg(Other(x), p) in t.net && deadline in deadlines
      && Resent(End(s, x).snd, End(t, x).snd, i, p, deadline)
  {
    LowestConsumed(s, w, x);
    p, deadline := LateGoesOut(End(s, x).snd, now, deadlines, End(s, x).flow, i);
    TickIs(s, x, now, deadlines);
  }
}
