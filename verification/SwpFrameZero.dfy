/**
 What a sender forgets. Frames are numbered from 0 and an acknowledgement number of 0 also means
 that nothing was consumed yet, so frame 0 can stop being tracked before it arrived; and whatever
 is no longer tracked is never sent again.
 */
module SwpFrameZero {
  import opened Common
  import opened SwpEvents
  import opened SwpTypes
  import opened Retree
  import opened SwpSession
  import S = SwpSender
  import R = SwpReceiver

  /** Some tracked frame the application has not consumed stops being tracked. */
  ghost predicate DropsUnconsumed(snd: S.Sender, pack: Packet, consumed: int) {
    exists n :: Tracked(snd, n) && !Tracked(S.GotPack(snd, pack), n) && n > consumed
  }

  /** Exactly when hearing from the peer makes the sender forget a frame too early. */
  lemma FrameZeroExactly(w: nat, windowBytes: int, run: seq<Move>, x: Side, pack: Packet)
    requires 0 < w && Msg(x, pack) in After(w, windowBytes, run).net
    ensures var s := After(w, windowBytes, run);
      var snd, rcv := End(s, x).snd, End(s, Other(x)).rcv;
      DropsUnconsumed(snd, pack, rcv.lastMsgConsumed) <==>
      (pack.ackNum >= 0 && Tracked(snd, 0) && rcv.lastMsgConsumed < 0)
  {
    RunInv(w, windowBytes, run);
    var s := After(w, windowBytes, run);
    InvPair(s, x, w);
    assert Truthful(Msg(x, pack).pack, End(s, Other(x)).snd.sendHistory, End(s, Other(x)).rcv.lastMsgConsumed, w);
    DropsOnlyZero(End(s, x).snd, End(s, Other(x)).rcv, w, pack);
  }

  lemma DropsOnlyZero(snd: S.Sender, rcv: R.Receiver, w: nat, pack: Packet)
    requires Direction(snd, rcv, w) && pack.ackNum <= Max0(rcv.lastMsgConsumed)
    ensures DropsUnconsumed(snd, pack, rcv.lastMsgConsumed) <==>
            (pack.ackNum >= 0 && Tracked(snd, 0) && rcv.lastMsgConsumed < 0)
  {
    S.GotPackValid(snd, pack);
    forall n ensures Tracked(snd, n) && !Tracked(S.GotPack(snd, pack), n) <==>
                     S.Lowest(snd) <= n <= snd.lastFrameSent && n <= pack.ackNum
    {
      TrackedIffInInterval(snd, n);
      TrackedIffInInterval(S.GotPack(snd, pack), n);
    }
    TrackedIffInInterval(snd, 0);
    if pack.ackNum >= 0 && Tracked(snd, 0) && rcv.lastMsgConsumed < 0 {
      assert Tracked(snd, 0) && !Tracked(S.GotPack(snd, pack), 0);
    }
  }

  /** One frame sent and tracked; the peer is as at the start. */
  ghost predicate OneSent(s: System, w: nat, windowBytes: int)
    requires 0 < w
  {
    && |s.a.snd.txq| == w && s.a.snd.lastFrameSent == 0 && SeqOf(s.a.snd.txq[0]) == 0
    && s.a.snd.bySeq == [0] && s.a.snd.byDeadline == [0]
    && s.a.rcv == R.Init(w, windowBytes)
    && s.b == Start(w, windowBytes).b
  }

  lemma FirstPush(w: nat, windowBytes: int, data: seq<byte>)
    requires 0 < w
    ensures OneSent(Next(Start(w, windowBytes), Move(A, Push(data, 0))), w, windowBytes)
  {
    var s := Start(w, windowBytes);
    assert Enabled(s, A, Push(data, 0));
    assert 0 % w == 0;
  }

  lemma FirstKeepAlive(s: System, w: nat, windowBytes: int)
    requires 0 < w && OneSent(s, w, windowBytes)
    ensures var t := Next(s, Move(B, KeepAlive));
      OneSent(t, w, windowBytes) && Msg(A, Control(EventKeepAlive, -777, 0, S.Flow(0, 0))) in t.net
  {
    var ka := Control(EventKeepAlive, -777, 0, S.Flow(0, 0));
    assert Sane(s.b);
    assert Do(s.b, KeepAlive) == Some(Effect(s.b, [ka]));
    assert ka in [ka];
  }

  lemma KeepAliveForgets(s: System, w: nat, windowBytes: int)
    requires 0 < w && OneSent(s, w, windowBytes)
    requires Msg(A, Control(EventKeepAlive, -777, 0, S.Flow(0, 0))) in s.net
    ensures var t := Next(s, Move(A, Arrive(Control(EventKeepAlive, -777, 0, S.Flow(0, 0)))));
      && t.a.snd.lastFrameSent == 0 && t.a.snd.bySeq == [] && t.a.snd.byDeadline == []
      && t.b == Start(w, windowBytes).b
  {
    var ka := Control(EventKeepAlive, -777, 0, S.Flow(0, 0));
    assert Enabled(s, A, Arrive(ka));
    FilterNone(S.Unacked(s.a.snd.txq, 0), [0]);
  }

  /** A run that shows it: the first frame is lost, the peer's first keepalive arrives, and the
      sender has nothing left to retry although the receiver has seen nothing. */
  lemma FrameZeroLost(w: nat, windowBytes: int, data: seq<byte>)
    requires 0 < w
    ensures var ka := Control(EventKeepAlive, -777, 0, S.Flow(0, 0));
      var s := After(w, windowBytes, [Move(A, Push(data, 0)), Move(B, KeepAlive), Move(A, Arrive(ka))]);
      && s.a.snd.lastFrameSent == 0 && s.a.snd.bySeq == [] && s.a.snd.byDeadline == []
      && s.b.rcv.nextFrameExpected == 0 && s.b.rcv.lastMsgConsumed == -1
  {
    var ka := Control(EventKeepAlive, -777, 0, S.Flow(0, 0));
    var m1, m2, m3 := Move(A, Push(data, 0)), Move(B, KeepAlive), Move(A, Arrive(ka));
    assert [m1, m2, m3][..2] == [m1, m2] && [m1, m2][..1] == [m1] && [m1][..0] == [];
    var s1 := Next(Start(w, windowBytes), m1);
    FirstPush(w, windowBytes, data);
    FirstKeepAlive(s1, w, windowBytes);
    KeepAliveForgets(Next(s1, m2), w, windowBytes);
    assert After(w, windowBytes, [m1]) == s1;
    assert After(w, windowBytes, [m1, m2]) == Next(s1, m2);
  }

  // ---------- what is forgotten stays forgotten ----------

  /** The lowest tracked number never falls. */
  lemma LowestGrows(s: System, m: Move, x: Side)
    ensures var snd, snd' := End(s, x).snd, End(Next(s, m), x).snd;
      S.Lowest(snd) <= S.Lowest(snd') && snd.lastFrameSent <= snd'.lastFrameSent
  {
  }

  lemma {:induction false} LowestGrowsOn(w: nat, windowBytes: int, run: seq<Move>, more: seq<Move>, x: Side)
    requires 0 < w
    ensures var snd, snd' := End(After(w, windowBytes, run), x).snd, End(After(w, windowBytes, run + more), x).snd;
      S.Lowest(snd) <= S.Lowest(snd') && snd.lastFrameSent <= snd'.lastFrameSent
    decreases |more|
  {
    ConcatNothing(run);
    if more != [] {
      var n := |more| - 1;
      LowestGrowsOn(w, windowBytes, run, more[..n], x);
      SplitLast(run, more);
      LowestGrows(After(w, windowBytes, run + more[..n]), more[n], x);
    }
  }

  lemma RetryFrames(snd: S.Sender, now: int, deadlines: seq<int>, flow: S.Flow, i: nat)
    requires InRange(snd.txq, snd.byDeadline) && |deadlines| == |S.ExpiredSlots(snd, now)|
    requires i < |S.Retry(snd, now, deadlines, flow).sent|
    ensures i < |S.ExpiredSlots(snd, now)| && S.ExpiredSlots(snd, now)[i] < |snd.txq|
    ensures S.Retry(snd, now, deadlines, flow).sent[i].frame == snd.txq[S.ExpiredSlots(snd, now)[i]].pack.frame
  {
    var tree := Filter(S.InTime(snd.txq, now), snd.byDeadline);
    FilterMembers(S.InTime(snd.txq, now), snd.byDeadline);
    S.ReinsertSends(snd.txq, tree, S.ExpiredSlots(snd, now), deadlines, flow);
  }

  lemma ExpiredFromLowest(snd: S.Sender, now: int, slot: nat)
    requires S.Valid(snd) && slot in S.ExpiredSlots(snd, now)
    ensures slot < |snd.txq| && SeqOf(snd.txq[slot]) >= S.Lowest(snd)
  {
    S.TrackedSlots(snd);
    S.ExpiredExactly(snd, now, slot);
    var k :| 0 <= k < |snd.bySeq| && snd.bySeq[k] == slot;
  }

  /** An endpoint sends control packets and frames from the lowest tracked one on. */
  lemma SendsFromLowest(e: Endpoint, act: Action, i: nat)
    requires S.Valid(e.snd) && Ready(e, act) && Do(e, act).Some? && i < |Do(e, act).value.sent|
    ensures var n := Do(e, act).value.sent[i].frame.seqNum; n < 0 || S.Lowest(e.snd) <= n
  {
    if act.Tick? {
      RetryFrames(e.snd, act.now, act.deadlines, e.flow, i);
      ExpiredFromLowest(e.snd, act.now, S.ExpiredSlots(e.snd, act.now)[i]);
    }
  }

  /** In every run, a frame that was sent and is no longer tracked is not sent again by any later
      move, whatever happens in between; so frame 0 forgotten is frame 0 lost, if its copies are. */
  lemma RunForgets(w: nat, windowBytes: int, run: seq<Move>, more: seq<Move>, x: Side, n: int, act: Action, i: nat)
    requires 0 < w && 0 <= n <= End(After(w, windowBytes, run), x).snd.lastFrameSent
    requires !Tracked(End(After(w, windowBytes, run), x).snd, n)
    requires Enabled(After(w, windowBytes, run + more), x, act)
    ensures Do(End(After(w, windowBytes, run + more), x), act).Some?
    ensures var sent := Do(End(After(w, windowBytes, run + more), x), act).value.sent;
      i < |sent| ==> sent[i].frame.seqNum != n
  {
    var s, t := After(w, windowBytes, run), After(w, windowBytes, run + more);
    RunInv(w, windowBytes, run);
    InvPair(s, x, w);
    TrackedIffInInterval(End(s, x).snd, n);
    LowestGrowsOn(w, windowBytes, run, more, x);
    RunInv(w, windowBytes, run + more);
    InvPair(t, x, w);
    RunNeverPanics(w, windowBytes, run + more, Move(x, act));
    if i < |Do(End(t, x), act).value.sent| {
      SendsFromLowest(End(t, x), act, i);
    }
  }
}
