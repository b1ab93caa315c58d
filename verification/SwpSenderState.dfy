/** The sender as it runs: fields and window slots changed in place by the cases of its loop. */
module SwpSenderState {
  import opened Common
  import opened SwpEvents
  import opened SwpTypes
  import opened Retree
  import opened SwpSender

  class SenderState {
    var LastFrameSent: int
    var TotalBytesSent: int
    const Txq: array<TxqSlot>
    var SentButNotAckedByDeadline: seq<nat>
    var SentButNotAckedBySeqNum: seq<nat>
    var SendHistory: seq<Frame>
    var LastSeenAvailReaderMsgCap: int
    var LastSeenAvailReaderBytesCap: int

    ghost function View(): Sender
      reads this, Txq
    {
      Sender(LastFrameSent, TotalBytesSent, Txq[..], SentButNotAckedByDeadline,
             SentButNotAckedBySeqNum, SendHistory,
             LastSeenAvailReaderMsgCap, LastSeenAvailReaderBytesCap)
    }

    constructor (sendSz: nat)
      requires 0 < sendSz
      ensures View() == Init(sendSz) && fresh(Txq)
    {
      LastFrameSent, TotalBytesSent := -1, 0;
      Txq := new TxqSlot[sendSz](_ => TxqSlot(0, Packet(EventNil, Frame(0, 0, []), 0, 0, 0, 0)));
      SentButNotAckedByDeadline, SentButNotAckedBySeqNum, SendHistory := [], [], [];
      LastSeenAvailReaderMsgCap, LastSeenAvailReaderBytesCap := sendSz, 1024 * 1024;
    }

    method ComputeInflight() returns (bytesInflight: nat, msgInflight: nat)
      requires InRange(Txq[..], SentButNotAckedByDeadline)
      ensures msgInflight == |SentButNotAckedByDeadline|
      ensures bytesInflight == BytesInflight(Txq[..], SentButNotAckedByDeadline)
    {
      bytesInflight, msgInflight := 0, 0;
      ghost var tree := SentButNotAckedByDeadline;
      while msgInflight < |SentButNotAckedByDeadline|
        invariant msgInflight <= |tree|
        invariant bytesInflight + BytesInflight(Txq[..], tree[msgInflight..]) == BytesInflight(Txq[..], tree)
      {
        var slot := Txq[SentButNotAckedByDeadline[msgInflight]];
        assert tree[msgInflight..][1..] == tree[msgInflight + 1..];
        bytesInflight := bytesInflight + |slot.pack.frame.data|;
        msgInflight := msgInflight + 1;
      }
    }

    /** First transmission of a frame the send gate let through. */
    method DoOrigDataSend(data: seq<byte>, deadline: int, flow: Flow) returns (pack: Packet)
      requires 0 < Txq.Length
      requires InRange(Txq[..], SentButNotAckedByDeadline) && InRange(Txq[..], SentButNotAckedBySeqNum)
      modifies this, Txq
      ensures pack == NextPacket(old(View()), data, flow)
      ensures View() == Sent(old(View()), TxqSlot(deadline, pack))
      ensures old(Valid(View()) && |SentButNotAckedBySeqNum| < Txq.Length) ==>
                View() == OrigDataSend(old(View()), data, deadline, flow) && Valid(View())
    {
      SentIsSend(View(), data, deadline, flow);
      LastFrameSent := LastFrameSent + 1;
      TotalBytesSent := TotalBytesSent + |data|;
      var pos := LastFrameSent % Txq.Length;
      pack := Packet(EventData, Frame(LastFrameSent, TotalBytesSent, data), 0, 0,
                     flow.msgCap, flow.bytesCap);
      Txq[pos] := TxqSlot(deadline, pack);
      assert Txq[..] == old(Txq[..])[pos := TxqSlot(deadline, pack)];
      SendHistory := SendHistory + [pack.frame];
      SentButNotAckedByDeadline := Insert(ByDeadline, Txq[..], SentButNotAckedByDeadline, pos);
      SentButNotAckedBySeqNum := Insert(BySeqNum, Txq[..], SentButNotAckedBySeqNum, pos);
    }

    /** Take every tracked frame numbered up to `seqnum` out of both trees. */
    method DeleteThroughSeqNum(seqnum: int, ghost lo: int) returns (numDel: nat)
      requires Numbered(Txq[..], SentButNotAckedBySeqNum, lo)
      requires SameSlots(Txq[..], SentButNotAckedByDeadline, SentButNotAckedBySeqNum)
      modifies this`SentButNotAckedByDeadline, this`SentButNotAckedBySeqNum
      ensures numDel == Covered(lo, |old(SentButNotAckedBySeqNum)|, seqnum)
      ensures SentButNotAckedBySeqNum == old(SentButNotAckedBySeqNum)[numDel..]
      ensures SameSlots(Txq[..], SentButNotAckedByDeadline, SentButNotAckedBySeqNum)
    {
      numDel := 0;
      ghost var bySeq := SentButNotAckedBySeqNum;
      while SentButNotAckedBySeqNum != [] && SeqOf(Txq[SentButNotAckedBySeqNum[0]]) <= seqnum
        invariant numDel <= |bySeq| && SentButNotAckedBySeqNum == bySeq[numDel..]
        invariant numDel == 0 || lo + numDel <= seqnum + 1
        invariant Numbered(Txq[..], SentButNotAckedBySeqNum, lo + numDel)
        invariant SameSlots(Txq[..], SentButNotAckedByDeadline, SentButNotAckedBySeqNum)
        decreases |SentButNotAckedBySeqNum|
      {
        var cur := SentButNotAckedBySeqNum[0];
        DeleteFirst(Txq[..], SentButNotAckedByDeadline, SentButNotAckedBySeqNum);
        SentButNotAckedBySeqNum := SentButNotAckedBySeqNum[1..];
        SentButNotAckedByDeadline := Delete(ByDeadline, Txq[..], SentButNotAckedByDeadline, cur);
        numDel := numDel + 1;
      }
    }

    /** Take every slot whose deadline has passed out of both trees, oldest deadline first. */
    method DeleteThroughDeadline(now: int) returns (retry: seq<nat>)
      requires SameSlots(Txq[..], SentButNotAckedByDeadline, SentButNotAckedBySeqNum)
      requires Sorted(BySeqNum, Txq[..], SentButNotAckedBySeqNum)
      modifies this`SentButNotAckedByDeadline, this`SentButNotAckedBySeqNum
      ensures retry == Filter(Late(Txq[..], now), old(SentButNotAckedByDeadline))
      ensures SentButNotAckedByDeadline == Filter(InTime(Txq[..], now), old(SentButNotAckedByDeadline))
      ensures Sorted(BySeqNum, Txq[..], SentButNotAckedBySeqNum)
      ensures multiset(SentButNotAckedBySeqNum) + multiset(retry) == old(multiset(SentButNotAckedBySeqNum))
    {
      retry := [];
      ghost var tree := SentButNotAckedByDeadline;
      while SentButNotAckedByDeadline != [] && Txq[SentButNotAckedByDeadline[0]].retryDeadline <= now
        invariant Expiring(Txq[..], tree, retry, SentButNotAckedByDeadline, SentButNotAckedBySeqNum, now)
        decreases |SentButNotAckedByDeadline|
      {
        var cur := SentButNotAckedByDeadline[0];
        ExpiringStep(Txq[..], tree, retry, SentButNotAckedByDeadline, SentButNotAckedBySeqNum, now);
        SentButNotAckedByDeadline := SentButNotAckedByDeadline[1..];
        SentButNotAckedBySeqNum := Delete(BySeqNum, Txq[..], SentButNotAckedBySeqNum, cur);
        retry := retry + [cur];
      }
      assert tree == retry + SentButNotAckedByDeadline;
      SplitAtDeadline(Txq[..], retry, SentButNotAckedByDeadline, now);
      SplitItems(tree, Txq[..], now);
    }

    /** Give one slot a new deadline, track it again and send it. */
    method Retransmit(slot: nat, deadline: int, flow: Flow) returns (pack: Packet)
      requires slot < Txq.Length
      requires InRange(Txq[..], SentButNotAckedByDeadline) && InRange(Txq[..], SentButNotAckedBySeqNum)
      modifies Txq, this`SentButNotAckedByDeadline, this`SentButNotAckedBySeqNum
      ensures Txq[..] == old(Txq[..])[slot := Resend(old(Txq[slot]), deadline, flow)]
      ensures SentButNotAckedByDeadline == Insert(ByDeadline, Txq[..], old(SentButNotAckedByDeadline), slot)
      ensures SentButNotAckedBySeqNum == Insert(BySeqNum, Txq[..], old(SentButNotAckedBySeqNum), slot)
      ensures pack == Txq[slot].pack
    {
      Txq[slot] := Resend(Txq[slot], deadline, flow);
      SentButNotAckedByDeadline := Insert(ByDeadline, Txq[..], SentButNotAckedByDeadline, slot);
      SentButNotAckedBySeqNum := Insert(BySeqNum, Txq[..], SentButNotAckedBySeqNum, slot);
      pack := Txq[slot].pack;
    }

    /** Retransmit each of `retry`; `full` is the sequence tree they were taken out of. */
    method RetransmitAll(retry: seq<nat>, deadlines: seq<int>, flow: Flow, ghost full: seq<nat>)
      returns (sent: seq<Packet>)
      requires Pending(Txq[..], SentButNotAckedByDeadline, SentButNotAckedBySeqNum, retry, full)
      requires |deadlines| == |retry|
      modifies Txq, this`SentButNotAckedByDeadline, this`SentButNotAckedBySeqNum
      ensures Retried(Txq[..], SentButNotAckedByDeadline, sent) ==
              old(Reinsert(Txq[..], SentButNotAckedByDeadline, retry, deadlines, flow))
      ensures SentButNotAckedBySeqNum == full
    {
      sent := [];
      ghost var goal := Reinsert(Txq[..], SentButNotAckedByDeadline, retry, deadlines, flow);
      for k := 0 to |retry|
        invariant Pending(Txq[..], SentButNotAckedByDeadline, SentButNotAckedBySeqNum, retry[k..], full)
        invariant goal == After(sent, Reinsert(Txq[..], SentButNotAckedByDeadline, retry[k..], deadlines[k..], flow))
      {
        PendingStep(Txq[..], SentButNotAckedByDeadline, SentButNotAckedBySeqNum, retry[k..], full,
                    Resend(Txq[retry[k]], deadlines[k], flow));
        AfterStep(Txq[..], SentButNotAckedByDeadline, retry[k..], deadlines[k..], flow, sent);
        assert retry[k..][1..] == retry[k + 1..] && deadlines[k..][1..] == deadlines[k + 1..];
        var pack := Retransmit(retry[k], deadlines[k], flow);
        sent := sent + [pack];
      }
      SortedUnique(BySeqNum, Txq[..], SentButNotAckedBySeqNum, full);
    }

    /** The regular wake-up: every slot whose deadline has passed goes out again. */
    method RetryTick(now: int, deadlines: seq<int>, flow: Flow) returns (sent: seq<Packet>)
      requires Valid(View()) && |deadlines| == |ExpiredSlots(View(), now)|
      modifies this, Txq
      ensures View() == SwpSender.RetryTick(old(View()), now, deadlines, flow) && Valid(View())
      ensures sent == Retry(old(View()), now, deadlines, flow).sent
    {
      ghost var s := View();
      RetryTickValid(s, now, deadlines, flow);
      TrackedSlots(s);
      SplitOrder(s.txq, s.byDeadline, s.bySeq, now);
      var retry := DeleteThroughDeadline(now);
      sent := RetransmitAll(retry, deadlines, flow, s.bySeq);
    }

    /** Anything heard from the other end; the two trees keep equal length, so no panic follows. */
    method GotPack(a: Packet) returns (numDel: nat)
      requires Valid(View())
      modifies this
      ensures View() == SwpSender.GotPack(old(View()), a) && Valid(View())
      ensures numDel == Covered(Lowest(old(View())), |old(SentButNotAckedBySeqNum)|, a.ackNum)
      ensures |SentButNotAckedBySeqNum| == |SentButNotAckedByDeadline|
    {
      ghost var s := View();
      assert Numbered(s.txq, s.bySeq, Lowest(s)) by { TrackedSlots(s); }
      LastSeenAvailReaderBytesCap := a.bytesCap;
      LastSeenAvailReaderMsgCap := a.msgCap;
      numDel := DeleteThroughSeqNum(a.ackNum, Lowest(s));
      AckedTrees(s, a.ackNum, SentButNotAckedByDeadline, SentButNotAckedBySeqNum);
      GotPackIs(s, a, SentButNotAckedByDeadline, SentButNotAckedBySeqNum);
      GotPackValid(s, a);
    }
  }

  /** `bySeq` holds frames lo, lo + 1, ... in this order. */
  ghost predicate Numbered(txq: seq<TxqSlot>, bySeq: seq<nat>, lo: int) {
    InRange(txq, bySeq) && forall i :: 0 <= i < |bySeq| ==> SeqOf(txq[bySeq[i]]) == lo + i
  }

  /** The outcome `r` of the remaining retransmissions, once `sent` has gone out. */
  ghost function After(sent: seq<Packet>, r: Retried): Retried {
    r.(sent := sent + r.sent)
  }

  /** `slots` were taken out of the sequence tree `full`; `bySeq` is what is left of it. */
  ghost predicate Pending(txq: seq<TxqSlot>, tree: seq<nat>, bySeq: seq<nat>, slots: seq<nat>, full: seq<nat>) {
    && InRange(txq, tree) && InRange(txq, slots)
    && Sorted(BySeqNum, txq, bySeq) && Sorted(BySeqNum, txq, full)
    && multiset(bySeq) + multiset(slots) == multiset(full)
  }

  /** One retransmission puts its slot back into the trees. */
  lemma PendingStep(txq: seq<TxqSlot>, tree: seq<nat>, bySeq: seq<nat>, slots: seq<nat>, full: seq<nat>,
                    slot: TxqSlot)
    requires Pending(txq, tree, bySeq, slots, full) && slots != [] && SeqOf(slot) == SeqOf(txq[slots[0]])
    ensures var txq' := txq[slots[0] := slot];
      Pending(txq', Insert(ByDeadline, txq', tree, slots[0]), Insert(BySeqNum, txq', bySeq, slots[0]),
              slots[1..], full)
  {
    RetrackOne(txq, txq[slots[0] := slot], bySeq, slots, full);
  }

  lemma AfterStep(txq: seq<TxqSlot>, tree: seq<nat>, slots: seq<nat>, deadlines: seq<int>, flow: Flow,
                  sent: seq<Packet>)
    requires InRange(txq, tree) && InRange(txq, slots) && slots != [] && |deadlines| == |slots|
    ensures var slot := Resend(txq[slots[0]], deadlines[0], flow);
      var txq' := txq[slots[0] := slot];
      After(sent, Reinsert(txq, tree, slots, deadlines, flow)) ==
      After(sent + [slot.pack], Reinsert(txq', Insert(ByDeadline, txq', tree, slots[0]), slots[1..],
          deadlines[1..], flow))
  {
  }

  lemma DeleteFirst(txq: seq<TxqSlot>, byDeadline: seq<nat>, bySeq: seq<nat>)
    requires SameSlots(txq, byDeadline, bySeq) && bySeq != []
    ensures bySeq[0] < |txq|
    ensures SameSlots(txq, Delete(ByDeadline, txq, byDeadline, bySeq[0]), bySeq[1..])
  {
    SameMembers(byDeadline, bySeq);
    assert bySeq[0] in byDeadline;
    DeleteSorted(ByDeadline, txq, byDeadline, bySeq[0]);
    DeleteItems(ByDeadline, txq, byDeadline, bySeq[0]);
    TailItems(bySeq);
  }

  lemma ExpireFirst(txq: seq<TxqSlot>, byDeadline: seq<nat>, bySeq: seq<nat>)
    requires SameSlots(txq, byDeadline, bySeq) && Sorted(BySeqNum, txq, bySeq) && byDeadline != []
    ensures byDeadline[0] < |txq|
    ensures var bySeq' := Delete(BySeqNum, txq, bySeq, byDeadline[0]);
      SameSlots(txq, byDeadline[1..], bySeq') && Sorted(BySeqNum, txq, bySeq')
  {
    SameMembers(byDeadline, bySeq);
    assert byDeadline[0] in bySeq;
    DeleteSorted(BySeqNum, txq, bySeq, byDeadline[0]);
    DeleteItems(BySeqNum, txq, bySeq, byDeadline[0]);
    TailItems(byDeadline);
  }

  /** The loop over expired slots: those taken so far are the first of the deadline tree. */
  ghost predicate Expiring(txq: seq<TxqSlot>, tree: seq<nat>, retry: seq<nat>, byDeadline: seq<nat>,
      bySeq: seq<nat>, now: int) {
    && |retry| <= |tree| && retry == tree[..|retry|] && byDeadline == tree[|retry|..]
    && (forall i :: 0 <= i < |retry| ==> Late(txq, now)(retry[i]))
    && SameSlots(txq, byDeadline, bySeq) && Sorted(BySeqNum, txq, bySeq)
  }

  lemma ExpiringStep(txq: seq<TxqSlot>, tree: seq<nat>, retry: seq<nat>, byDeadline: seq<nat>, bySeq: seq<nat>,
      now: int)
    requires Expiring(txq, tree, retry, byDeadline, bySeq, now) && byDeadline != []
    requires byDeadline[0] < |txq| && txq[byDeadline[0]].retryDeadline <= now
    ensures InRange(txq, bySeq)
    ensures Expiring(txq, tree, retry + [byDeadline[0]], byDeadline[1..],
        Delete(BySeqNum, txq, bySeq, byDeadline[0]), now)
  {
    ExpireFirst(txq, byDeadline, bySeq);
    var n := |retry|;
    SliceSnoc(tree, 0, n);
    assert tree[n..][1..] == tree[n + 1..];
  }

  /** In deadline order everything after the first slot in time is in time too. */
  lemma SplitAtDeadline(txq: seq<TxqSlot>, retry: seq<nat>, rest: seq<nat>, now: int)
    requires Sorted(ByDeadline, txq, rest)
    requires forall i :: 0 <= i < |retry| ==> Late(txq, now)(retry[i])
    requires rest == [] || txq[rest[0]].retryDeadline > now
    ensures Filter(Late(txq, now), retry + rest) == retry
    ensures Filter(InTime(txq, now), retry + rest) == rest
  {
    FilterConcat(Late(txq, now), retry, rest);
    FilterConcat(InTime(txq, now), retry, rest);
    FilterAll(Late(txq, now), retry);
    FilterNone(InTime(txq, now), retry);
    forall i | 0 <= i < |rest| ensures InTime(txq, now)(rest[i]) {
      if i > 0 { assert rest[i] == rest[1..][i - 1]; }
    }
    FilterNone(Late(txq, now), rest);
    FilterAll(InTime(txq, now), rest);
  }

  /** Changing a deadline does not move a slot in the sequence tree. */
  lemma {:induction false} SameNumbers(txq: seq<TxqSlot>, txq': seq<TxqSlot>, tree: seq<nat>)
    requires Sorted(BySeqNum, txq, tree) && |txq'| == |txq|
    requires forall x :: 0 <= x < |txq| ==> SeqOf(txq'[x]) == SeqOf(txq[x])
    ensures Sorted(BySeqNum, txq', tree)
  {
    if tree != [] {
      SameNumbers(txq, txq', tree[1..]);
    }
  }

  /** Putting one of the slots that were taken out back into the sequence tree. */
  lemma RetrackOne(txq: seq<TxqSlot>, txq': seq<TxqSlot>, bySeq: seq<nat>, slots: seq<nat>, full: seq<nat>)
    requires Sorted(BySeqNum, txq, full) && Sorted(BySeqNum, txq, bySeq) && slots != []
    requires multiset(bySeq) + multiset(slots) == multiset(full)
    requires |txq'| == |txq| && forall x :: 0 <= x < |txq| ==> SeqOf(txq'[x]) == SeqOf(txq[x])
    ensures slots[0] < |txq| && Sorted(BySeqNum, txq', full)
    ensures var bySeq' := Insert(BySeqNum, txq', bySeq, slots[0]);
      && Sorted(BySeqNum, txq', bySeq')
      && multiset(bySeq') + multiset(slots[1..]) == multiset(full)
  {
    var slot := slots[0];
    SortedOnce(BySeqNum, txq, full, slot);
    TailItems(slots);
    assert slot in multiset(full);
    SameNumbers(txq, txq', full);
    SameNumbers(txq, txq', bySeq);
    forall i | 0 <= i < |bySeq| ensures SeqOf(txq'[bySeq[i]]) != SeqOf(txq'[slot]) {
      assert bySeq[i] in multiset(bySeq) && bySeq[i] in multiset(full);
      if SeqOf(txq'[bySeq[i]]) == SeqOf(txq'[slot]) {
        SortedKey(txq', full, bySeq[i], slot);
      }
    }
    InsertSorted(BySeqNum, txq', bySeq, slot);
    InsertItems(BySeqNum, txq', bySeq, slot);
  }

  /** What is left of the trees once the covered prefix is gone is the filter of both. */
  lemma AckedTrees(s: Sender, ackNum: int, byDeadline: seq<nat>, bySeq: seq<nat>)
    requires Valid(s) && SameSlots(s.txq, byDeadline, bySeq)
    requires bySeq == s.bySeq[Covered(Lowest(s), |s.bySeq|, ackNum)..]
    ensures bySeq == Filter(Unacked(s.txq, ackNum), s.bySeq)
    ensures byDeadline == Filter(Unacked(s.txq, ackNum), s.byDeadline)
  {
    TrackedSlots(s);
    AckDropsPrefix(s.txq, s.bySeq, Lowest(s), ackNum);
    FilterSameSlots(s.txq, s.byDeadline, s.bySeq, Unacked(s.txq, ackNum));
    FilteredTree(ByDeadline, s.txq, s.byDeadline, byDeadline, Unacked(s.txq, ackNum));
  }

  lemma GotPackIs(s: Sender, a: Packet, byDeadline: seq<nat>, bySeq: seq<nat>)
    requires bySeq == Filter(Unacked(s.txq, a.ackNum), s.bySeq)
    requires byDeadline == Filter(Unacked(s.txq, a.ackNum), s.byDeadline)
    ensures SwpSender.GotPack(s, a)
         == Sender(s.lastFrameSent, s.totalBytesSent, s.txq, byDeadline, bySeq, s.sendHistory, a.msgCap, a.bytesCap)
  {
  }

  lemma {:induction false} InsertLast(txq: seq<TxqSlot>, tree: seq<nat>, slot: nat)
    requires InRange(txq, tree) && slot < |txq|
    requires forall i :: 0 <= i < |tree| ==> SeqOf(txq[tree[i]]) < SeqOf(txq[slot])
    ensures Insert(BySeqNum, txq, tree, slot) == tree + [slot]
  {
    if tree != [] {
      InsertLast(txq, tree[1..], slot);
    }
  }

  /** A frame sent, with both trees updated by insertion. */
  ghost function Sent(s: Sender, slot: TxqSlot): Sender
    requires 0 < |s.txq| && InRange(s.txq, s.byDeadline) && InRange(s.txq, s.bySeq)
  {
    var pos := SeqOf(slot) % |s.txq|;
    var txq := s.txq[pos := slot];
    s.(lastFrameSent := SeqOf(slot), totalBytesSent := slot.pack.frame.cumulBytes, txq := txq,
       byDeadline := Insert(ByDeadline, txq, s.byDeadline, pos), bySeq := Insert(BySeqNum, txq, s.bySeq, pos),
       sendHistory := s.sendHistory + [slot.pack.frame])
  }

  lemma SentIsSend(s: Sender, data: seq<byte>, deadline: int, flow: Flow)
    requires 0 < |s.txq| && InRange(s.txq, s.byDeadline) && InRange(s.txq, s.bySeq)
    ensures Valid(s) && |s.bySeq| < |s.txq| ==>
              && Sent(s, TxqSlot(deadline, NextPacket(s, data, flow))) == OrigDataSend(s, data, deadline, flow)
              && Valid(OrigDataSend(s, data, deadline, flow))
  {
    if Valid(s) && |s.bySeq| < |s.txq| {
      OrigDataSendValid(s, data, deadline, flow);
      SendInsertsLast(s, TxqSlot(deadline, NextPacket(s, data, flow)));
    }
  }

  /** The new frame has the largest number, so the sequence tree grows at its end. */
  lemma SendInsertsLast(s: Sender, slot: TxqSlot)
    requires Valid(s) && |s.bySeq| < |s.txq| && SeqOf(slot) == s.lastFrameSent + 1
    ensures var pos := SeqOf(slot) % |s.txq|;
      && InRange(s.txq, s.bySeq)
      && Insert(BySeqNum, s.txq[pos := slot], s.bySeq, pos) == s.bySeq + [pos]
  {
    TrackedSlots(s);
    NextSlotFree(s.txq, s.bySeq, s.sendHistory, Lowest(s));
    var pos := SeqOf(slot) % |s.txq|;
    InsertLast(s.txq[pos := slot], s.bySeq, pos);
  }

  /** A tree in order with the items of a filtered tree is that filtered tree. */
  lemma FilteredTree(o: Order, txq: seq<TxqSlot>, before: seq<nat>, after: seq<nat>, keep: nat -> bool)
    requires Sorted(o, txq, before) && Sorted(o, txq, after)
    requires multiset(after) == multiset(Filter(keep, before))
    ensures after == Filter(keep, before)
  {
    FilterSorted(o, txq, before, keep);
    SortedUnique(o, txq, after, Filter(keep, before));
  }
}
