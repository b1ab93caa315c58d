/**
 The sender's half of the sliding window: the window `Txq`, the two retry trees over it, and
 the send gate. `Sender` is the state as a value, with one function per case of the send loop;
 `SenderState` below is the same machine changing its fields in place.
 */
module SwpSender {
  import opened Common
  import opened SwpEvents
  import opened SwpTypes
  import opened Retree

  /** What the receiving half of this endpoint last published for the sender to advertise. */
  datatype Flow = Flow(msgCap: int, bytesCap: int)

  datatype Sender = Sender(
    lastFrameSent: int, totalBytesSent: int,
    txq: seq<TxqSlot>, byDeadline: seq<nat>, bySeq: seq<nat>,
    sendHistory: seq<Frame>,
    lastSeenMsgCap: int, lastSeenBytesCap: int)

  /** Smallest sequence number still tracked; one past `lastFrameSent` when none is. */
  function Lowest(s: Sender): int {
    s.lastFrameSent + 1 - |s.bySeq|
  }

  /** Frames are numbered from 0 and carry the running byte count. */
  ghost predicate HistoryOk(hist: seq<Frame>) {
    forall k :: 0 <= k < |hist| ==> FrameOk(hist, k)
  }

  ghost predicate FrameOk(hist: seq<Frame>, k: nat)
    requires k < |hist|
  {
    hist[k].seqNum == k && hist[k].cumulBytes == BytesBefore(hist, k) + |hist[k].data|
  }

  function BytesBefore(hist: seq<Frame>, k: nat): int
    requires k <= |hist|
  {
    if k == 0 then 0 else hist[k - 1].cumulBytes
  }

  /** The i-th tracked frame is number lo + i, in its own slot, ready to be sent again. */
  ghost predicate Tracks(txq: seq<TxqSlot>, bySeq: seq<nat>, hist: seq<Frame>, lo: int) {
    && 0 < |txq| && 0 <= lo && lo + |bySeq| == |hist| && |bySeq| <= |txq|
    && forall i :: 0 <= i < |bySeq| ==> TrackedAt(txq, bySeq[i], hist[lo + i], lo + i)
  }

  ghost predicate TrackedAt(txq: seq<TxqSlot>, x: nat, f: Frame, n: nat)
    requires 0 < |txq|
  {
    && x == n % |txq|
    && txq[x].pack.frame == f && f.seqNum == n
    && txq[x].pack.event == EventData && txq[x].pack.ackNum == 0
  }

  /** The deadline tree is in order and holds the slots of the sequence tree. */
  ghost predicate SameSlots(txq: seq<TxqSlot>, byDeadline: seq<nat>, bySeq: seq<nat>) {
    Sorted(ByDeadline, txq, byDeadline) && multiset(byDeadline) == multiset(bySeq)
  }

  ghost predicate Valid(s: Sender) {
    && |s.sendHistory| == s.lastFrameSent + 1
    && HistoryOk(s.sendHistory)
    && s.totalBytesSent == BytesBefore(s.sendHistory, |s.sendHistory|)
    && Tracks(s.txq, s.bySeq, s.sendHistory, Lowest(s))
    && SameSlots(s.txq, s.byDeadline, s.bySeq)
  }

  function Init(window: nat): (s: Sender)
    requires 0 < window
    ensures Valid(s)
  {
    var blank := TxqSlot(0, Packet(EventNil, Frame(0, 0, []), 0, 0, 0, 0));
    Sender(-1, 0, seq(window, _ => blank), [], [], [], window, 1024 * 1024)
  }

  function BytesInflight(txq: seq<TxqSlot>, tree: seq<nat>): nat
    requires InRange(txq, tree)
  {
    if tree == [] then 0
    else |txq[tree[0]].pack.frame.data| + BytesInflight(txq, tree[1..])
  }

  /** Flow control: may the next frame go out? */
  predicate AcceptSend(s: Sender)
    requires InRange(s.txq, s.byDeadline)
  {
    && s.lastSeenMsgCap - |s.byDeadline| > 0
    && s.lastSeenBytesCap - BytesInflight(s.txq, s.byDeadline) > 0
  }

  function NextPacket(s: Sender, data: seq<byte>, flow: Flow): Packet {
    Packet(EventData, Frame(s.lastFrameSent + 1, s.totalBytesSent + |data|, data), 0, 0,
           flow.msgCap, flow.bytesCap)
  }

  /** First transmission of `data`: the next number, the next slot, tracked in both trees. */
  function OrigDataSend(s: Sender, data: seq<byte>, deadline: int, flow: Flow): (r: Sender)
    requires 0 < |s.txq| && InRange(s.txq, s.byDeadline)
  {
    var pack := NextPacket(s, data, flow);
    var pos := pack.frame.seqNum % |s.txq|;
    var txq := s.txq[pos := TxqSlot(deadline, pack)];
    s.(lastFrameSent := pack.frame.seqNum,
       totalBytesSent := pack.frame.cumulBytes,
       txq := txq,
       byDeadline := Insert(ByDeadline, txq, s.byDeadline, pos),
       bySeq := s.bySeq + [pos],
       sendHistory := s.sendHistory + [pack.frame])
  }

  function Unacked(txq: seq<TxqSlot>, ackNum: int): nat -> bool {
    (x: nat) => x < |txq| && SeqOf(txq[x]) > ackNum
  }

  /** Anything heard from the other end: its capacity, and its cumulative acknowledgement. */
  function GotPack(s: Sender, a: Packet): (r: Sender) {
    s.(lastSeenMsgCap := a.msgCap,
       lastSeenBytesCap := a.bytesCap,
       byDeadline := Filter(Unacked(s.txq, a.ackNum), s.byDeadline),
       bySeq := Filter(Unacked(s.txq, a.ackNum), s.bySeq))
  }

  /** Slots whose retry deadline has passed, and the others. */
  function Late(txq: seq<TxqSlot>, now: int): nat -> bool {
    (x: nat) => x < |txq| && txq[x].retryDeadline <= now
  }

  function InTime(txq: seq<TxqSlot>, now: int): nat -> bool {
    (x: nat) => !Late(txq, now)(x)
  }

  function ExpiredSlots(s: Sender, now: int): (r: seq<nat>)
    requires InRange(s.txq, s.byDeadline)
    ensures InRange(s.txq, r)
  {
    FilterMembers(Late(s.txq, now), s.byDeadline);
    Filter(Late(s.txq, now), s.byDeadline)
  }

  /** A slot about to be sent again. */
  function Resend(slot: TxqSlot, deadline: int, flow: Flow): TxqSlot {
    TxqSlot(deadline, slot.pack.(seqRetry := slot.pack.seqRetry + 1,
                                 msgCap := flow.msgCap, bytesCap := flow.bytesCap))
  }

  datatype Retried = Retried(txq: seq<TxqSlot>, tree: seq<nat>, sent: seq<Packet>)

  /** Giving `slots` new deadlines one after the other: the window and the deadline tree
      afterwards, and what went out. */
  function Reinsert(txq: seq<TxqSlot>, tree: seq<nat>, slots: seq<nat>, deadlines: seq<int>, flow: Flow)
    : (r: Retried)
    requires InRange(txq, tree) && InRange(txq, slots) && |slots| == |deadlines|
    ensures |r.txq| == |txq| && InRange(r.txq, r.tree)
    decreases |slots|
  {
    if slots == [] then Retried(txq, tree, [])
    else
      var slot := Resend(txq[slots[0]], deadlines[0], flow);
      var txq' := txq[slots[0] := slot];
      var rest := Reinsert(txq', Insert(ByDeadline, txq', tree, slots[0]), slots[1..], deadlines[1..], flow);
      rest.(sent := [slot.pack] + rest.sent)
  }

  /** The retry tick: every slot whose deadline has passed gets a new one and goes out again. */
  function Retry(s: Sender, now: int, deadlines: seq<int>, flow: Flow): (r: Retried)
    requires InRange(s.txq, s.byDeadline) && |deadlines| == |ExpiredSlots(s, now)|
  {
    FilterMembers(InTime(s.txq, now), s.byDeadline);
    Reinsert(s.txq, Filter(InTime(s.txq, now), s.byDeadline), ExpiredSlots(s, now), deadlines, flow)
  }

  function RetryTick(s: Sender, now: int, deadlines: seq<int>, flow: Flow): (r: Sender)
    requires InRange(s.txq, s.byDeadline) && |deadlines| == |ExpiredSlots(s, now)|
  {
    var r := Retry(s, now, deadlines, flow);
    s.(txq := r.txq, byDeadline := r.tree)
  }

  // ---------- what every case of the send loop keeps ----------

  lemma TracksSorted(txq: seq<TxqSlot>, bySeq: seq<nat>, hist: seq<Frame>, lo: int)
    requires Tracks(txq, bySeq, hist, lo)
    ensures InRange(txq, bySeq) && Sorted(BySeqNum, txq, bySeq)
    ensures forall i :: 0 <= i < |bySeq| ==> SeqOf(txq[bySeq[i]]) == lo + i
  {
    SortedFromPairs(BySeqNum, txq, bySeq);
  }

  lemma SameMembers(a: seq<nat>, b: seq<nat>)
    requires multiset(a) == multiset(b)
    ensures |a| == |b|
    ensures forall x :: x in a <==> x in b
  {
    assert |multiset(a)| == |a| && |multiset(b)| == |b|;
    forall x ensures x in a <==> x in b {
      assert x in multiset(a) <==> x in multiset(b);
    }
  }

  /** Both trees hold the same slots, each slot once, and the sequence tree is in order. */
  lemma TrackedSlots(s: Sender)
    requires Valid(s)
    ensures InRange(s.txq, s.bySeq) && Sorted(BySeqNum, s.txq, s.bySeq)
    ensures forall i :: 0 <= i < |s.bySeq| ==> SeqOf(s.txq[s.bySeq[i]]) == Lowest(s) + i
    ensures |s.byDeadline| == |s.bySeq|
    ensures forall x :: x in s.byDeadline <==> x in s.bySeq
  {
    TracksSorted(s.txq, s.bySeq, s.sendHistory, Lowest(s));
    SameMembers(s.byDeadline, s.bySeq);
  }

  /** A tracked interval short of the window leaves the next slot free. */
  lemma NextSlotFree(txq: seq<TxqSlot>, bySeq: seq<nat>, hist: seq<Frame>, lo: int)
    requires Tracks(txq, bySeq, hist, lo) && |bySeq| < |txq|
    ensures |hist| % |txq| !in bySeq
  {
    forall i | 0 <= i < |bySeq| ensures bySeq[i] != |hist| % |txq| {
      assert TrackedAt(txq, bySeq[i], hist[lo + i], lo + i);
      if bySeq[i] == |hist| % |txq| {
        ModInjective(lo + i, |hist|, |txq|);
      }
    }
  }

  lemma ExtendInterval(txq: seq<TxqSlot>, bySeq: seq<nat>, hist: seq<Frame>, lo: int, slot: TxqSlot)
    requires Tracks(txq, bySeq, hist, lo) && |bySeq| < |txq|
    requires slot.pack.event == EventData && slot.pack.ackNum == 0 && SeqOf(slot) == |hist|
    ensures var pos := |hist| % |txq|;
      Tracks(txq[pos := slot], bySeq + [pos], hist + [slot.pack.frame], lo)
  {
    NextSlotFree(txq, bySeq, hist, lo);
  }

  lemma ExtendTree(txq: seq<TxqSlot>, byDeadline: seq<nat>, bySeq: seq<nat>, pos: nat, slot: TxqSlot)
    requires SameSlots(txq, byDeadline, bySeq) && pos < |txq| && pos !in bySeq && InRange(txq, bySeq)
    requires forall i :: 0 <= i < |bySeq| ==> SeqOf(txq[bySeq[i]]) < SeqOf(slot)
    ensures pos !in byDeadline
    ensures var txq' := txq[pos := slot];
      SameSlots(txq', Insert(ByDeadline, txq', byDeadline, pos), bySeq + [pos])
  {
    SameMembers(byDeadline, bySeq);
    var txq' := txq[pos := slot];
    forall i | 0 <= i < |byDeadline|
      ensures txq'[byDeadline[i]] == txq[byDeadline[i]] && SeqOf(txq[byDeadline[i]]) < SeqOf(slot)
    {
      assert byDeadline[i] in bySeq;
    }
    SortedFrame(ByDeadline, txq, txq', byDeadline);
    InsertSorted(ByDeadline, txq', byDeadline, pos);
    InsertItems(ByDeadline, txq', byDeadline, pos);
  }

  lemma ExtendHistory(hist: seq<Frame>, f: Frame)
    requires HistoryOk(hist)
    requires f.seqNum == |hist| && f.cumulBytes == BytesBefore(hist, |hist|) + |f.data|
    ensures HistoryOk(hist + [f])
    ensures BytesBefore(hist + [f], |hist| + 1) == f.cumulBytes
  {
    forall k | 0 <= k < |hist| ensures FrameOk(hist + [f], k) {
      assert FrameOk(hist, k);
    }
  }

  /** Exactly when the slot of the next frame holds no frame that may still have to be resent. */
  lemma SlotFreeExactly(s: Sender)
    requires Valid(s)
    ensures (s.lastFrameSent + 1) % |s.txq| !in s.bySeq <==> |s.bySeq| < |s.txq|
  {
    var lo, w := Lowest(s), |s.txq|;
    if |s.bySeq| < w {
      NextSlotFree(s.txq, s.bySeq, s.sendHistory, lo);
    } else {
      assert TrackedAt(s.txq, s.bySeq[0], s.sendHistory[lo], lo);
      WrapsAround(lo, w);
    }
  }

  lemma WrapsAround(lo: nat, w: nat)
    requires 0 < w
    ensures (lo + w) % w == lo % w
  {
    var k, q := lo / w, (lo + w) / w;
    assert lo == k * w + lo % w && lo + w == q * w + (lo + w) % w;
    assert (q - k - 1) * w == q * w - k * w - w;
    MultipleBeyond(q - k - 1, w);
  }

  lemma {:induction false} NothingInflight(txq: seq<TxqSlot>, tree: seq<nat>)
    requires InRange(txq, tree) && forall i :: 0 <= i < |txq| ==> txq[i].pack.frame.data == []
    ensures BytesInflight(txq, tree) == 0
  {
    if tree != [] {
      NothingInflight(txq, tree[1..]);
    }
  }

  /** A sender with `n` empty frames under way. */
  lemma {:induction false} Loaded(w: nat, n: nat) returns (s: Sender)
    requires 0 < w && n <= w
    ensures Valid(s) && |s.txq| == w && |s.bySeq| == n && s.lastSeenBytesCap > 0
    ensures forall i :: 0 <= i < w ==> s.txq[i].pack.frame.data == []
    decreases n
  {
    s := Init(w);
    if n > 0 {
      s := Loaded(w, n - 1);
      OrigDataSendValid(s, [], 0, Flow(0, 0));
      s := OrigDataSend(s, [], 0, Flow(0, 0));
    }
  }

  /** The send gate protects frames that may still have to be resent, in every state, exactly if
      the capacity the peer last announced is no larger than the sender's own window. */
  lemma GateExactly(w: nat, cap: int)
    requires 0 < w
    ensures (forall s :: Valid(s) && |s.txq| == w && s.lastSeenMsgCap == cap && AcceptSend(s)
                         ==> (s.lastFrameSent + 1) % |s.txq| !in s.bySeq)
            <==> cap <= w
  {
    if cap <= w {
      forall s | Valid(s) && |s.txq| == w && s.lastSeenMsgCap == cap && AcceptSend(s)
        ensures (s.lastFrameSent + 1) % |s.txq| !in s.bySeq {
        TrackedSlots(s);
        SlotFreeExactly(s);
      }
    } else {
      var full := Loaded(w, w);
      var s := full.(lastSeenMsgCap := cap);
      TrackedSlots(s);
      NothingInflight(s.txq, s.byDeadline);
      SlotFreeExactly(s);
      assert Valid(s) && AcceptSend(s);
    }
  }

  lemma {:induction false} InflightConcat(txq: seq<TxqSlot>, a: seq<nat>, b: seq<nat>)
    requires InRange(txq, a) && InRange(txq, b) && InRange(txq, a + b)
    ensures BytesInflight(txq, a + b) == BytesInflight(txq, a) + BytesInflight(txq, b)
  {
    if a == [] {
      ConcatNothing(b);
    } else {
      ConcatTail(a, b);
      InflightConcat(txq, a[1..], b);
    }
  }

  /** One item taken out of a tree. */
  lemma TakeOut(b: seq<nat>, x: nat) returns (i: nat)
    requires x in b
    ensures i < |b| && b[i] == x
    ensures multiset(b) == multiset{x} + multiset(b[..i] + b[i + 1..])
  {
    i :| i < |b| && b[i] == x;
    assert b == b[..i] + ([b[i]] + b[i + 1..]);
  }

  lemma InflightWithout(txq: seq<TxqSlot>, b: seq<nat>, i: nat)
    requires InRange(txq, b) && i < |b|
    ensures InRange(txq, b[..i] + b[i + 1..])
    ensures BytesInflight(txq, b) == |txq[b[i]].pack.frame.data| + BytesInflight(txq, b[..i] + b[i + 1..])
  {
    TakeDrop(b, i);
    InflightConcat(txq, b[..i], b[i..]);
    InflightConcat(txq, b[..i], b[i + 1..]);
    assert b[i..][1..] == b[i + 1..];
  }

  /** The bytes under way do not depend on the order of the tree. */
  lemma {:induction false} InflightOrderFree(txq: seq<TxqSlot>, a: seq<nat>, b: seq<nat>)
    requires InRange(txq, a) && InRange(txq, b) && multiset(a) == multiset(b)
    ensures BytesInflight(txq, a) == BytesInflight(txq, b)
    decreases |a|
  {
    SameMembers(a, b);
    if a != [] {
      assert a[0] in a;
      var i := TakeOut(b, a[0]);
      TailItems(a);
      InflightWithout(txq, b, i);
      InflightOrderFree(txq, a[1..], b[..i] + b[i + 1..]);
    }
  }

  /** The bytes under way are those of the frames still tracked. */
  lemma {:induction false} InflightTracked(txq: seq<TxqSlot>, bySeq: seq<nat>, hist: seq<Frame>, lo: int)
    requires HistoryOk(hist) && Tracks(txq, bySeq, hist, lo)
    ensures InRange(txq, bySeq)
    ensures BytesInflight(txq, bySeq) == BytesBefore(hist, |hist|) - BytesBefore(hist, lo)
    decreases |bySeq|
  {
    TracksSorted(txq, bySeq, hist, lo);
    if bySeq != [] {
      assert TrackedAt(txq, bySeq[0], hist[lo], lo) && FrameOk(hist, lo);
      ShrinkInterval(txq, bySeq, hist, lo, 1);
      InflightTracked(txq, bySeq[1..], hist, lo + 1);
    }
  }

  /** The gate is open exactly while the frames not yet acknowledged are fewer than the messages, and
      their bytes fewer than the bytes, that the other end last announced room for. */
  lemma AcceptExactly(s: Sender)
    requires Valid(s) && InRange(s.txq, s.byDeadline)
    ensures 0 <= Lowest(s) <= |s.sendHistory|
    ensures AcceptSend(s) <==>
      && |s.sendHistory| - Lowest(s) < s.lastSeenMsgCap
      && s.totalBytesSent - BytesBefore(s.sendHistory, Lowest(s)) < s.lastSeenBytesCap
  {
    TrackedSlots(s);
    InflightTracked(s.txq, s.bySeq, s.sendHistory, Lowest(s));
    InflightOrderFree(s.txq, s.byDeadline, s.bySeq);
  }

  /** A send into a free slot keeps the state valid, and neither tree referred to that slot. */
  lemma OrigDataSendValid(s: Sender, data: seq<byte>, deadline: int, flow: Flow)
    requires Valid(s) && |s.bySeq| < |s.txq|
    ensures (s.lastFrameSent + 1) % |s.txq| !in s.byDeadline
    ensures Valid(OrigDataSend(s, data, deadline, flow))
    ensures Lowest(OrigDataSend(s, data, deadline, flow)) == Lowest(s)
  {
    TrackedSlots(s);
    var slot := TxqSlot(deadline, NextPacket(s, data, flow));
    ExtendHistory(s.sendHistory, slot.pack.frame);
    NextSlotFree(s.txq, s.bySeq, s.sendHistory, Lowest(s));
    ExtendInterval(s.txq, s.bySeq, s.sendHistory, Lowest(s), slot);
    ExtendTree(s.txq, s.byDeadline, s.bySeq, |s.sendHistory| % |s.txq|, slot);
  }

  /** How many of `n` tracked frames from `lo` an acknowledgement covers. */
  function Covered(lo: int, n: nat, ackNum: int): nat {
    if ackNum < lo then 0 else if ackNum + 1 - lo > n then n else ackNum + 1 - lo
  }

  /** A cumulative acknowledgement takes away a prefix of the interval. */
  lemma {:induction false} AckDropsPrefix(txq: seq<TxqSlot>, bySeq: seq<nat>, lo: int, ackNum: int)
    requires InRange(txq, bySeq)
    requires forall i :: 0 <= i < |bySeq| ==> SeqOf(txq[bySeq[i]]) == lo + i
    ensures Filter(Unacked(txq, ackNum), bySeq) == bySeq[Covered(lo, |bySeq|, ackNum)..]
  {
    if bySeq != [] {
      AckDropsPrefix(txq, bySeq[1..], lo + 1, ackNum);
    }
  }

  lemma FilterSameSlots(txq: seq<TxqSlot>, byDeadline: seq<nat>, bySeq: seq<nat>, keep: nat -> bool)
    requires SameSlots(txq, byDeadline, bySeq)
    ensures SameSlots(txq, Filter(keep, byDeadline), Filter(keep, bySeq))
  {
    FilterSorted(ByDeadline, txq, byDeadline, keep);
    FilterMultiset(keep, bySeq);
    FilterMultiset(keep, byDeadline);
    assert multiset(Filter(keep, byDeadline)) == multiset(Filter(keep, bySeq));
  }

  lemma ShrinkInterval(txq: seq<TxqSlot>, bySeq: seq<nat>, hist: seq<Frame>, lo: int, d: nat)
    requires Tracks(txq, bySeq, hist, lo) && d <= |bySeq|
    ensures Tracks(txq, bySeq[d..], hist, lo + d)
  {
  }

  /** A sender with the first `d` tracked frames gone from both trees. */
  lemma WithoutFirst(s: Sender, d: nat, byDeadline: seq<nat>, msgCap: int, bytesCap: int)
    requires Valid(s) && d <= |s.bySeq| && SameSlots(s.txq, byDeadline, s.bySeq[d..])
    ensures Valid(s.(lastSeenMsgCap := msgCap, lastSeenBytesCap := bytesCap,
                     byDeadline := byDeadline, bySeq := s.bySeq[d..]))
    ensures |byDeadline| == |s.bySeq| - d
  {
    ShrinkInterval(s.txq, s.bySeq, s.sendHistory, Lowest(s), d);
    SameMembers(byDeadline, s.bySeq[d..]);
  }

  /** Hearing from the other end keeps the state valid, and moves the interval's lower end only. */
  lemma GotPackValid(s: Sender, a: Packet)
    requires Valid(s)
    ensures Valid(GotPack(s, a))
    ensures GotPack(s, a).bySeq == s.bySeq[Covered(Lowest(s), |s.bySeq|, a.ackNum)..]
    ensures |GotPack(s, a).byDeadline| == |GotPack(s, a).bySeq|
  {
    var d := Covered(Lowest(s), |s.bySeq|, a.ackNum);
    TrackedSlots(s);
    AckDropsPrefix(s.txq, s.bySeq, Lowest(s), a.ackNum);
    FilterSameSlots(s.txq, s.byDeadline, s.bySeq, Unacked(s.txq, a.ackNum));
    WithoutFirst(s, d, Filter(Unacked(s.txq, a.ackNum), s.byDeadline), a.msgCap, a.bytesCap);
  }

  /** Frames in `items` are pairwise different. */
  ghost predicate DistinctFrames(txq: seq<TxqSlot>, items: seq<nat>)
    requires InRange(txq, items)
  {
    forall i, j :: 0 <= i < j < |items| ==> SeqOf(txq[items[i]]) != SeqOf(txq[items[j]])
  }

  /** A slot sent again carries the same frame. */
  ghost predicate SameFrame(a: TxqSlot, b: TxqSlot) {
    a.pack.frame == b.pack.frame && a.pack.event == b.pack.event && a.pack.ackNum == b.pack.ackNum
  }

  /** No frame of `slots` is already in `tree`. */
  ghost predicate Apart(txq: seq<TxqSlot>, slots: seq<nat>, tree: seq<nat>)
    requires InRange(txq, slots) && InRange(txq, tree)
  {
    forall i, j :: 0 <= i < |slots| && 0 <= j < |tree| ==> SeqOf(txq[slots[i]]) != SeqOf(txq[tree[j]])
  }

  /** The other slots still to come keep away from the tree with the first slot in it. */
  lemma ReinsertApart(txq: seq<TxqSlot>, tree: seq<nat>, slots: seq<nat>, txq': seq<TxqSlot>)
    requires InRange(txq, tree) && InRange(txq, slots) && slots != []
    requires DistinctFrames(txq, slots) && Apart(txq, slots, tree)
    requires |txq'| == |txq| && forall x :: 0 <= x < |txq| ==> SeqOf(txq'[x]) == SeqOf(txq[x])
    ensures InRange(txq', Insert(ByDeadline, txq', tree, slots[0]))
    ensures DistinctFrames(txq', slots[1..]) && Apart(txq', slots[1..], Insert(ByDeadline, txq', tree, slots[0]))
  {
  }

  lemma ReinsertOne(txq: seq<TxqSlot>, tree: seq<nat>, slots: seq<nat>, txq': seq<TxqSlot>)
    requires Sorted(ByDeadline, txq, tree) && InRange(txq, slots) && slots != []
    requires DistinctFrames(txq, slots) && Apart(txq, slots, tree)
    requires |txq'| == |txq| && SeqOf(txq'[slots[0]]) == SeqOf(txq[slots[0]])
    requires forall x :: 0 <= x < |txq| && x != slots[0] ==> txq'[x] == txq[x]
    ensures var tree' := Insert(ByDeadline, txq', tree, slots[0]);
      && Sorted(ByDeadline, txq', tree')
      && DistinctFrames(txq', slots[1..]) && Apart(txq', slots[1..], tree')
      && multiset(tree') + multiset(slots[1..]) == multiset(tree) + multiset(slots)
  {
    SortedFrame(ByDeadline, txq, txq', tree);
    InsertSorted(ByDeadline, txq', tree, slots[0]);
    InsertItems(ByDeadline, txq', tree, slots[0]);
    TailItems(slots);
    ReinsertApart(txq, tree, slots, txq');
  }

  lemma {:induction false} ReinsertTree(txq: seq<TxqSlot>, tree: seq<nat>, slots: seq<nat>,
                                        deadlines: seq<int>, flow: Flow)
    requires Sorted(ByDeadline, txq, tree) && InRange(txq, slots) && |slots| == |deadlines|
    requires DistinctFrames(txq, slots) && Apart(txq, slots, tree)
    ensures var r := Reinsert(txq, tree, slots, deadlines, flow);
      Sorted(ByDeadline, r.txq, r.tree) && multiset(r.tree) == multiset(tree) + multiset(slots)
    decreases |slots|
  {
    if slots != [] {
      var txq' := txq[slots[0] := Resend(txq[slots[0]], deadlines[0], flow)];
      ReinsertOne(txq, tree, slots, txq');
      ReinsertTree(txq', Insert(ByDeadline, txq', tree, slots[0]), slots[1..], deadlines[1..], flow);
    }
  }

  lemma {:induction false} ReinsertWindow(txq: seq<TxqSlot>, tree: seq<nat>, slots: seq<nat>,
                                          deadlines: seq<int>, flow: Flow)
    requires InRange(txq, tree) && InRange(txq, slots) && |slots| == |deadlines|
    requires DistinctFrames(txq, slots)
    ensures var r := Reinsert(txq, tree, slots, deadlines, flow).txq;
      && (forall x :: 0 <= x < |txq| && x !in slots ==> r[x] == txq[x])
      && (forall x :: 0 <= x < |txq| && x in slots ==>
            SameFrame(r[x], txq[x]) && r[x].pack.seqRetry == txq[x].pack.seqRetry + 1)
    decreases |slots|
  {
    if slots != [] {
      var slot := slots[0];
      var txq' := txq[slot := Resend(txq[slot], deadlines[0], flow)];
      ReinsertWindow(txq', Insert(ByDeadline, txq', tree, slot), slots[1..], deadlines[1..], flow);
    }
  }

  /** The packet carries the slot's frame and the capacities of `flow`. */
  ghost predicate Carries(p: Packet, slot: TxqSlot, flow: Flow) {
    && p.event == slot.pack.event && p.frame == slot.pack.frame && p.ackNum == slot.pack.ackNum
    && p.msgCap == flow.msgCap && p.bytesCap == flow.bytesCap
  }

  /** One packet for each slot, in order, carrying that slot's frame. */
  lemma {:induction false} ReinsertSends(txq: seq<TxqSlot>, tree: seq<nat>, slots: seq<nat>,
                                         deadlines: seq<int>, flow: Flow)
    requires InRange(txq, tree) && InRange(txq, slots) && |slots| == |deadlines|
    ensures var sent := Reinsert(txq, tree, slots, deadlines, flow).sent;
      && |sent| == |slots|
      && forall i :: 0 <= i < |slots| ==> Carries(sent[i], txq[slots[i]], flow)
    decreases |slots|
  {
    if slots != [] {
      var slot := slots[0];
      var txq' := txq[slot := Resend(txq[slot], deadlines[0], flow)];
      ReinsertSends(txq', Insert(ByDeadline, txq', tree, slot), slots[1..], deadlines[1..], flow);
    }
  }

  /** Each slot keeps the packet that went out for it, under its new deadline. */
  lemma {:induction false} ReinsertKeeps(txq: seq<TxqSlot>, tree: seq<nat>, slots: seq<nat>,
                                         deadlines: seq<int>, flow: Flow)
    requires InRange(txq, tree) && InRange(txq, slots) && |slots| == |deadlines|
    requires DistinctFrames(txq, slots)
    ensures var r := Reinsert(txq, tree, slots, deadlines, flow);
      |r.sent| == |slots| && forall i :: 0 <= i < |slots| ==> r.txq[slots[i]] == TxqSlot(deadlines[i], r.sent[i])
    decreases |slots|
  {
    if slots != [] {
      var slot, late := slots[0], slots[1..];
      var txq' := txq[slot := Resend(txq[slot], deadlines[0], flow)];
      var tree' := Insert(ByDeadline, txq', tree, slot);
      ReinsertWindow(txq', tree', late, deadlines[1..], flow);
      ReinsertKeeps(txq', tree', late, deadlines[1..], flow);
      assert slot !in late;
    }
  }

  lemma {:induction false} SortedDistinct(o: Order, txq: seq<TxqSlot>, tree: seq<nat>, seqs: seq<nat>)
    requires Sorted(o, txq, tree) && Sorted(BySeqNum, txq, seqs)
    requires forall i :: 0 <= i < |tree| ==> tree[i] in seqs
    ensures DistinctFrames(txq, tree)
  {
    if tree != [] {
      SortedDistinct(o, txq, tree[1..], seqs);
      forall j | 1 <= j < |tree| ensures SeqOf(txq[tree[0]]) != SeqOf(txq[tree[j]]) {
        assert tree[j] == tree[1..][j - 1];
        if SeqOf(txq[tree[0]]) == SeqOf(txq[tree[j]]) {
          SortedKey(txq, seqs, tree[0], tree[j]);
        }
      }
    }
  }

  /** In the sequence tree a number belongs to one slot. */
  lemma {:induction false} SortedKey(txq: seq<TxqSlot>, seqs: seq<nat>, x: nat, y: nat)
    requires Sorted(BySeqNum, txq, seqs) && x in seqs && y in seqs
    requires x < |txq| && y < |txq| && SeqOf(txq[x]) == SeqOf(txq[y])
    ensures x == y
  {
    if x != seqs[0] && y != seqs[0] {
      SortedKey(txq, seqs[1..], x, y);
    }
  }

  // The deadline tree splits into expired slots and the rest, with no frame in both.

  lemma SplitItems(tree: seq<nat>, txq: seq<TxqSlot>, now: int)
    ensures multiset(Filter(InTime(txq, now), tree)) + multiset(Filter(Late(txq, now), tree)) == multiset(tree)
  {
    FilterMultiset(Late(txq, now), tree);
    FilterMultiset(InTime(txq, now), tree);
  }

  lemma SplitOrder(txq: seq<TxqSlot>, byDeadline: seq<nat>, bySeq: seq<nat>, now: int)
    requires SameSlots(txq, byDeadline, bySeq) && Sorted(BySeqNum, txq, bySeq)
    ensures var late := Filter(Late(txq, now), byDeadline);
      InRange(txq, late) && DistinctFrames(txq, late)
    ensures Sorted(ByDeadline, txq, Filter(InTime(txq, now), byDeadline))
  {
    SameMembers(byDeadline, bySeq);
    FilterMembers(Late(txq, now), byDeadline);
    FilterSorted(ByDeadline, txq, byDeadline, Late(txq, now));
    FilterSorted(ByDeadline, txq, byDeadline, InTime(txq, now));
    SortedDistinct(ByDeadline, txq, Filter(Late(txq, now), byDeadline), bySeq);
  }

  lemma SplitApart(txq: seq<TxqSlot>, byDeadline: seq<nat>, bySeq: seq<nat>, now: int)
    requires SameSlots(txq, byDeadline, bySeq) && Sorted(BySeqNum, txq, bySeq)
    requires InRange(txq, Filter(Late(txq, now), byDeadline))
    requires InRange(txq, Filter(InTime(txq, now), byDeadline))
    ensures Apart(txq, Filter(Late(txq, now), byDeadline), Filter(InTime(txq, now), byDeadline))
  {
    var late, rest := Filter(Late(txq, now), byDeadline), Filter(InTime(txq, now), byDeadline);
    SameMembers(byDeadline, bySeq);
    FilterMembers(Late(txq, now), byDeadline);
    FilterMembers(InTime(txq, now), byDeadline);
    forall i, j | 0 <= i < |late| && 0 <= j < |rest|
      ensures SeqOf(txq[late[i]]) != SeqOf(txq[rest[j]])
    {
      if SeqOf(txq[late[i]]) == SeqOf(txq[rest[j]]) {
        SortedKey(txq, bySeq, late[i], rest[j]);
      }
    }
  }

  lemma RetryTree(s: Sender, now: int, deadlines: seq<int>, flow: Flow)
    requires SameSlots(s.txq, s.byDeadline, s.bySeq) && Sorted(BySeqNum, s.txq, s.bySeq)
    requires |deadlines| == |ExpiredSlots(s, now)|
    ensures var r := RetryTick(s, now, deadlines, flow);
      SameSlots(r.txq, r.byDeadline, s.bySeq)
    ensures DistinctFrames(s.txq, ExpiredSlots(s, now))
  {
    SplitItems(s.byDeadline, s.txq, now);
    SplitOrder(s.txq, s.byDeadline, s.bySeq, now);
    SplitApart(s.txq, s.byDeadline, s.bySeq, now);
    ReinsertTree(s.txq, Filter(InTime(s.txq, now), s.byDeadline), ExpiredSlots(s, now), deadlines, flow);
  }

  lemma SameInterval(txq: seq<TxqSlot>, txq': seq<TxqSlot>, bySeq: seq<nat>, hist: seq<Frame>, lo: int)
    requires Tracks(txq, bySeq, hist, lo) && |txq'| == |txq|
    requires forall x :: 0 <= x < |txq| ==> SameFrame(txq'[x], txq[x])
    ensures Tracks(txq', bySeq, hist, lo)
  {
    forall i | 0 <= i < |bySeq| ensures TrackedAt(txq', bySeq[i], hist[lo + i], lo + i) {
      assert TrackedAt(txq, bySeq[i], hist[lo + i], lo + i);
    }
  }

  /** A retry tick resends exactly the expired slots, each with its own frame. */
  lemma RetryResends(s: Sender, now: int, deadlines: seq<int>, flow: Flow)
    requires Valid(s) && |deadlines| == |ExpiredSlots(s, now)|
    ensures var r := RetryTick(s, now, deadlines, flow);
      && |r.txq| == |s.txq|
      && (forall x :: 0 <= x < |s.txq| ==> SameFrame(r.txq[x], s.txq[x]))
      && (forall x :: 0 <= x < |s.txq| && x !in ExpiredSlots(s, now) ==> r.txq[x] == s.txq[x])
      && (forall x :: 0 <= x < |s.txq| && x in ExpiredSlots(s, now) ==>
            r.txq[x].pack.seqRetry == s.txq[x].pack.seqRetry + 1)
  {
    TrackedSlots(s);
    RetryTree(s, now, deadlines, flow);
    FilterMembers(InTime(s.txq, now), s.byDeadline);
    ReinsertWindow(s.txq, Filter(InTime(s.txq, now), s.byDeadline), ExpiredSlots(s, now), deadlines, flow);
  }

  /** Every packet of a retry tick is sent once more often than before, carries the frame of its slot
      and the capacities of `flow`, and stays in the slot until its new deadline. */
  lemma RetryRefreshes(s: Sender, now: int, deadlines: seq<int>, flow: Flow, i: nat)
    requires Valid(s) && |deadlines| == |ExpiredSlots(s, now)| && i < |deadlines|
    ensures var x, sent := ExpiredSlots(s, now)[i], Retry(s, now, deadlines, flow).sent;
      && |sent| == |deadlines|
      && RetryTick(s, now, deadlines, flow).txq[x] == TxqSlot(deadlines[i], sent[i])
      && Carries(sent[i], s.txq[x], flow) && sent[i].seqRetry == s.txq[x].pack.seqRetry + 1
  {
    TrackedSlots(s);
    RetryTree(s, now, deadlines, flow);
    RetryResends(s, now, deadlines, flow);
    var rest := Filter(InTime(s.txq, now), s.byDeadline);
    FilterMembers(InTime(s.txq, now), s.byDeadline);
    ReinsertKeeps(s.txq, rest, ExpiredSlots(s, now), deadlines, flow);
    ReinsertSends(s.txq, rest, ExpiredSlots(s, now), deadlines, flow);
  }

  /** A retry tick keeps the state valid and the tracked interval as it was. */
  lemma RetryTickValid(s: Sender, now: int, deadlines: seq<int>, flow: Flow)
    requires Valid(s) && |deadlines| == |ExpiredSlots(s, now)|
    ensures Valid(RetryTick(s, now, deadlines, flow))
  {
    TrackedSlots(s);
    RetryTree(s, now, deadlines, flow);
    RetryResends(s, now, deadlines, flow);
    SameInterval(s.txq, RetryTick(s, now, deadlines, flow).txq, s.bySeq, s.sendHistory, Lowest(s));
  }

  /** Expired means: tracked, and the deadline is not after `now`. */
  lemma ExpiredExactly(s: Sender, now: int, x: nat)
    requires Valid(s)
    ensures x in ExpiredSlots(s, now) <==> x in s.bySeq && s.txq[x].retryDeadline <= now
  {
    TrackedSlots(s);
    FilterMultiset(Late(s.txq, now), s.byDeadline);
    assert x in multiset(ExpiredSlots(s, now)) <==> x in multiset(s.byDeadline) && Late(s.txq, now)(x);
  }
}
