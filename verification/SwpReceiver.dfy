/**
 The receiver's half of the sliding window: the reordering window `Rxq`, the in-order drain,
 and delivery to the application by message or by byte.
 */
module SwpReceiver {
  import opened Common
  import opened SwpTypes
  import opened SwpSender

  /** A frame waiting for the application, with the part of it already read. */
  datatype Held = Held(frame: Frame, offset: nat)

  /** `out` is a history variable: every byte handed to the application so far. */
  datatype Receiver = Receiver(
    windowBytes: int, nextFrameExpected: nat, rxq: seq<Option<Frame>>,
    recvHistory: seq<Frame>, ready: seq<Held>,
    lastMsgConsumed: int, lastFrameClientConsumed: int, lastByteConsumed: int,
    largestSeqnoRcvd: int, maxCumulBytesTrans: int,
    availMsgCap: int, availBytesCap: int, discardCount: nat,
    out: seq<byte>)

  function Init(window: nat, windowBytes: int): Receiver {
    Receiver(windowBytes, 0, seq(window, _ => None), [], [], -1, 0, -1, -1, 0, 0, 0, 0, [])
  }

  predicate InWindow(seqno: int, min: int, max: int) {
    min <= seqno <= max
  }

  // ---------- arrival ----------

  /** Bookkeeping on every arrival; None is one of the two cumulative-byte panics. */
  function NoteArrival(r: Receiver, f: Frame): Option<Receiver> {
    if f.seqNum > r.largestSeqnoRcvd then
      if f.cumulBytes < r.maxCumulBytesTrans then None
      else Some(r.(largestSeqnoRcvd := f.seqNum, maxCumulBytesTrans := f.cumulBytes))
    else if f.cumulBytes > r.maxCumulBytesTrans then None
    else Some(r)
  }

  /** The capacity advertised next. */
  function UpdateControl(r: Receiver): Receiver {
    r.(availMsgCap := |r.rxq| - (r.largestSeqnoRcvd - r.lastMsgConsumed),
       availBytesCap := r.windowBytes - (r.maxCumulBytesTrans - (r.lastByteConsumed + 1)))
  }

  /** Negative capacities leave the published ones as they are. */
  function UpdateFlow(flow: Flow, r: Receiver): Flow {
    Flow(if r.availMsgCap >= 0 then r.availMsgCap else flow.msgCap,
         if r.availBytesCap >= 0 then r.availBytesCap else flow.bytesCap)
  }

  /** The slot for frame number `n`. */
  function Slot(rxq: seq<Option<Frame>>, n: nat): Option<Frame>
    requires 0 < |rxq|
  {
    rxq[n % |rxq|]
  }

  /** Number of filled slots. */
  function Filled(rxq: seq<Option<Frame>>): (n: nat)
    ensures n <= |rxq|
  {
    if rxq == [] then 0 else (if rxq[0].Some? then 1 else 0) + Filled(rxq[1..])
  }

  lemma {:induction false} FilledClear(rxq: seq<Option<Frame>>, i: nat)
    requires i < |rxq| && rxq[i].Some?
    ensures Filled(rxq[i := None]) == Filled(rxq) - 1
  {
    var r := rxq[i := None];
    if i == 0 {
      assert r[1..] == rxq[1..];
    } else {
      assert r[1..] == rxq[1..][i - 1 := None];
      FilledClear(rxq[1..], i - 1);
    }
  }

  /** One turn of the in-order loop: the expected frame becomes ready. */
  function DrainOne(r: Receiver): Receiver
    requires 0 < |r.rxq| && Slot(r.rxq, r.nextFrameExpected).Some?
  {
    var f := Slot(r.rxq, r.nextFrameExpected).value;
    r.(rxq := r.rxq[r.nextFrameExpected % |r.rxq| := None],
       nextFrameExpected := r.nextFrameExpected + 1,
       recvHistory := r.recvHistory + [f],
       ready := r.ready + [Held(f, 0)])
  }

  /** In-order delivery: everything gapless from `nextFrameExpected` on becomes ready. */
  function Drain(r: Receiver): Receiver
    requires 0 < |r.rxq|
    decreases Filled(r.rxq)
  {
    if Slot(r.rxq, r.nextFrameExpected).None? then r
    else
      FilledClear(r.rxq, r.nextFrameExpected % |r.rxq|);
      Drain(DrainOne(r))
  }

  predicate Acceptable(r: Receiver, f: Frame) {
    InWindow(f.seqNum, r.nextFrameExpected, r.nextFrameExpected + |r.rxq| - 1)
  }

  /** A data frame: outside the window it is discarded, inside it is kept and perhaps drained. */
  function AcceptData(r: Receiver, f: Frame): Receiver
    requires 0 < |r.rxq|
  {
    if !Acceptable(r, f) then r.(discardCount := r.discardCount + 1)
    else
      var stored := r.(rxq := r.rxq[f.seqNum % |r.rxq| := Some(f)]);
      if f.seqNum == r.nextFrameExpected then Drain(stored) else stored
  }

  // ---------- consumption ----------

  /** The application takes `m` more bytes of the first ready frame. */
  function Consume(r: Receiver, m: nat): Receiver
    requires r.ready != [] && r.ready[0].offset + m <= |r.ready[0].frame.data|
  {
    var pk := r.ready[0];
    var left := |pk.frame.data| - pk.offset;
    var bytes := pk.frame.data[pk.offset..pk.offset + m];
    if m == left then
      r.(ready := r.ready[1..], lastMsgConsumed := pk.frame.seqNum,
         lastFrameClientConsumed := pk.frame.seqNum, lastByteConsumed := pk.frame.cumulBytes,
         out := r.out + bytes)
    else
      r.(ready := r.ready[0 := Held(pk.frame, pk.offset + m)],
         lastByteConsumed := pk.frame.cumulBytes - left + m, out := r.out + bytes)
  }

  ghost predicate OffsetsOk(ready: seq<Held>) {
    forall i :: 0 <= i < |ready| ==> ready[i].offset <= |ready[i].frame.data|
  }

  /** A Read with room for `room` bytes. */
  function Fill(r: Receiver, room: nat): Receiver
    requires OffsetsOk(r.ready)
    decreases |r.ready|
  {
    if r.ready == [] || room == 0 then r
    else
      var left := |r.ready[0].frame.data| - r.ready[0].offset;
      if left <= room then Fill(Consume(r, left), room - left) else Consume(r, room)
  }

  /** What fits of the first ready packet, then the rest. */
  lemma FillStep(r: Receiver, room: nat, m: nat)
    requires r.ready != [] && OffsetsOk(r.ready) && 0 < room
    requires var left := |r.ready[0].frame.data| - r.ready[0].offset; m == if left <= room then left else room
    ensures OffsetsOk(Consume(r, m).ready) && Fill(Consume(r, m), room - m) == Fill(r, room)
  {
  }

  /** Delivery of everything ready as one list of messages. */
  function DeliverAll(r: Receiver): Receiver
    requires OffsetsOk(r.ready)
    decreases |r.ready|
  {
    if r.ready == [] then r
    else DeliverAll(Consume(r, |r.ready[0].frame.data| - r.ready[0].offset))
  }

  // ---------- the receiver invariant, against what the other end has sent ----------

  /** The bytes of the first `k` frames. */
  function Stream(hist: seq<Frame>, k: nat): seq<byte>
    requires k <= |hist|
  {
    if k == 0 then [] else Stream(hist, k - 1) + hist[k - 1].data
  }

  /** Every filled slot holds a frame of the window, at its own index. */
  ghost predicate SlotsOk(rxq: seq<Option<Frame>>, nfe: nat, largest: int, hist: seq<Frame>) {
    && 0 < |rxq| && largest < |hist|
    && forall i :: 0 <= i < |rxq| && rxq[i].Some? ==> SlotOk(rxq[i].value, i, |rxq|, nfe, largest, hist)
  }

  ghost predicate SlotOk(f: Frame, i: nat, w: nat, nfe: nat, largest: int, hist: seq<Frame>)
    requires 0 < w && largest < |hist|
  {
    nfe <= f.seqNum < nfe + w && f.seqNum % w == i && f.seqNum <= largest && hist[f.seqNum] == f
  }

  /** What is ready is what was received in order and not yet consumed. */
  ghost predicate ReadyOk(ready: seq<Held>, nfe: nat, consumed: int, hist: seq<Frame>) {
    && -1 <= consumed && consumed + 1 + |ready| == nfe && nfe <= |hist|
    && forall i :: 0 <= i < |ready| ==>
         && ready[i].frame == hist[consumed + 1 + i]
         && ready[i].offset <= (if i == 0 then |ready[i].frame.data| else 0)
  }

  function Partial(ready: seq<Held>): seq<byte>
    requires OffsetsOk(ready)
  {
    if ready == [] then [] else ready[0].frame.data[..ready[0].offset]
  }

  /** What went out is exactly the consumed frames and the consumed part of the next. */
  ghost predicate OutOk(r: Receiver, hist: seq<Frame>)
    requires ReadyOk(r.ready, r.nextFrameExpected, r.lastMsgConsumed, hist)
  {
    && r.out == Stream(hist, r.lastMsgConsumed + 1) + Partial(r.ready)
    && (r.lastByteConsumed == |r.out| || (r.lastByteConsumed == -1 && r.out == [] && r.lastMsgConsumed == -1))
    && r.lastFrameClientConsumed == (if r.lastMsgConsumed < 0 then 0 else r.lastMsgConsumed)
  }

  ghost predicate CountersOk(r: Receiver, hist: seq<Frame>) {
    && r.lastMsgConsumed <= r.largestSeqnoRcvd < |hist|
    && -1 <= r.largestSeqnoRcvd
    && r.maxCumulBytesTrans == BytesBefore(hist, r.largestSeqnoRcvd + 1)
    && r.availMsgCap <= |r.rxq|
  }

  /** Receiver `r` against the frames `hist` its peer has sent, also in the middle of a drain. */
  ghost predicate Consistent(r: Receiver, hist: seq<Frame>) {
    && HistoryOk(hist)
    && ReadyOk(r.ready, r.nextFrameExpected, r.lastMsgConsumed, hist)
    && r.nextFrameExpected <= r.largestSeqnoRcvd + 1
    && r.recvHistory == hist[..r.nextFrameExpected]
    && SlotsOk(r.rxq, r.nextFrameExpected, r.largestSeqnoRcvd, hist)
    && OutOk(r, hist)
    && CountersOk(r, hist)
  }

  /** Between two arrivals the expected frame is never waiting in its slot. */
  ghost predicate Valid(r: Receiver, hist: seq<Frame>) {
    Consistent(r, hist) && Slot(r.rxq, r.nextFrameExpected).None?
  }

  // ---------- what every step keeps ----------

  lemma InitValid(window: nat, windowBytes: int)
    requires 0 < window
    ensures Valid(Init(window, windowBytes), [])
  {
  }

  /** A control frame, or one of the frames sent. */
  ghost predicate Known(f: Frame, hist: seq<Frame>) {
    (f.seqNum < 0 && f.cumulBytes == 0) || (0 <= f.seqNum < |hist| && hist[f.seqNum] == f)
  }

  /** Neither cumulative-byte panic can fire, and the counters stay exact. */
  lemma NoteArrivalValid(r: Receiver, f: Frame, hist: seq<Frame>)
    requires Valid(r, hist)
    requires Known(f, hist)
    ensures NoteArrival(r, f).Some?
    ensures Valid(NoteArrival(r, f).value, hist)
    ensures f.seqNum <= NoteArrival(r, f).value.largestSeqnoRcvd
  {
    if f.seqNum >= 0 {
      assert FrameOk(hist, f.seqNum);
      SlotsNote(r.rxq, r.nextFrameExpected, r.largestSeqnoRcvd, hist,
                if f.seqNum > r.largestSeqnoRcvd then f.seqNum else r.largestSeqnoRcvd);
      assert f.cumulBytes == BytesBefore(hist, f.seqNum + 1);
      if f.seqNum > r.largestSeqnoRcvd {
        CumulMonotone(hist, r.largestSeqnoRcvd + 1, f.seqNum + 1);
      } else {
        CumulMonotone(hist, f.seqNum + 1, r.largestSeqnoRcvd + 1);
      }
    } else {
      CumulMonotone(hist, 0, r.largestSeqnoRcvd + 1);
    }
  }

  lemma {:induction false} CumulMonotone(hist: seq<Frame>, i: nat, j: nat)
    requires HistoryOk(hist) && i <= j <= |hist|
    ensures BytesBefore(hist, i) <= BytesBefore(hist, j)
    decreases j
  {
    if i < j {
      assert FrameOk(hist, j - 1);
      CumulMonotone(hist, i, j - 1);
    }
  }

  lemma UpdateControlValid(r: Receiver, hist: seq<Frame>)
    requires Valid(r, hist)
    ensures Valid(UpdateControl(r), hist)
  {
  }

  lemma SlotsNote(rxq: seq<Option<Frame>>, nfe: nat, largest: int, hist: seq<Frame>, largest': int)
    requires SlotsOk(rxq, nfe, largest, hist) && largest <= largest' < |hist|
    ensures SlotsOk(rxq, nfe, largest', hist)
  {
  }

  lemma SlotsStore(rxq: seq<Option<Frame>>, nfe: nat, largest: int, hist: seq<Frame>, f: Frame)
    requires SlotsOk(rxq, nfe, largest, hist)
    requires nfe <= f.seqNum < nfe + |rxq| && f.seqNum <= largest && hist[f.seqNum] == f
    ensures SlotsOk(rxq[f.seqNum % |rxq| := Some(f)], nfe, largest, hist)
  {
  }

  /** Taking the expected frame out lets the window move on by one. */
  lemma SlotsAdvance(rxq: seq<Option<Frame>>, nfe: nat, largest: int, hist: seq<Frame>)
    requires SlotsOk(rxq, nfe, largest, hist) && Slot(rxq, nfe).Some?
    ensures nfe <= largest && Slot(rxq, nfe).value == hist[nfe]
    ensures SlotsOk(rxq[nfe % |rxq| := None], nfe + 1, largest, hist)
  {
    var w, rxq' := |rxq|, rxq[nfe % |rxq| := None];
    var f := Slot(rxq, nfe).value;
    assert SlotOk(f, nfe % w, w, nfe, largest, hist);
    ModInjective(f.seqNum, nfe, w);
    forall i | 0 <= i < w && rxq'[i].Some? ensures SlotOk(rxq'[i].value, i, w, nfe + 1, largest, hist) {
      assert SlotOk(rxq[i].value, i, w, nfe, largest, hist);
    }
  }

  lemma ReadyAppend(ready: seq<Held>, nfe: nat, consumed: int, hist: seq<Frame>)
    requires ReadyOk(ready, nfe, consumed, hist) && nfe < |hist|
    ensures ReadyOk(ready + [Held(hist[nfe], 0)], nfe + 1, consumed, hist)
    ensures Partial(ready + [Held(hist[nfe], 0)]) == Partial(ready)
  {
  }

  lemma DrainOneConsistent(r: Receiver, hist: seq<Frame>)
    requires Consistent(r, hist) && Slot(r.rxq, r.nextFrameExpected).Some?
    ensures Consistent(DrainOne(r), hist)
  {
    SlotsAdvance(r.rxq, r.nextFrameExpected, r.largestSeqnoRcvd, hist);
    ReadyAppend(r.ready, r.nextFrameExpected, r.lastMsgConsumed, hist);
    assert hist[..r.nextFrameExpected] + [hist[r.nextFrameExpected]] == hist[..r.nextFrameExpected + 1];
  }

  /** The drain ends with the expected frame missing, after at most one turn per filled slot. */
  lemma {:induction false} DrainValid(r: Receiver, hist: seq<Frame>)
    requires Consistent(r, hist)
    ensures Valid(Drain(r), hist)
    ensures r.nextFrameExpected <= Drain(r).nextFrameExpected <= r.nextFrameExpected + Filled(r.rxq)
    ensures Drain(r).lastMsgConsumed == r.lastMsgConsumed
    decreases Filled(r.rxq)
  {
    if Slot(r.rxq, r.nextFrameExpected).Some? {
      FilledClear(r.rxq, r.nextFrameExpected % |r.rxq|);
      DrainOneConsistent(r, hist);
      DrainValid(DrainOne(r), hist);
    }
  }

  /** A data frame, once noted, keeps the receiver valid whatever its number. */
  lemma AcceptDataValid(r: Receiver, f: Frame, hist: seq<Frame>)
    requires Valid(r, hist) && 0 <= f.seqNum <= r.largestSeqnoRcvd && hist[f.seqNum] == f
    ensures Valid(AcceptData(r, f), hist)
    ensures AcceptData(r, f).lastMsgConsumed == r.lastMsgConsumed
    ensures AcceptData(r, f).nextFrameExpected <= r.nextFrameExpected + |r.rxq|
  {
    if Acceptable(r, f) {
      SlotsStore(r.rxq, r.nextFrameExpected, r.largestSeqnoRcvd, hist, f);
      var stored := r.(rxq := r.rxq[f.seqNum % |r.rxq| := Some(f)]);
      assert Consistent(stored, hist);
      if f.seqNum == r.nextFrameExpected {
        DrainValid(stored, hist);
      } else if f.seqNum % |r.rxq| == r.nextFrameExpected % |r.rxq| {
        ModInjective(f.seqNum, r.nextFrameExpected, |r.rxq|);
      }
    }
  }

  // ---------- what an arrival delivers ----------

  /** `frames` wait in the slots of the numbers from `n` on, and the slot after theirs is empty. */
  ghost predicate Waiting(rxq: seq<Option<Frame>>, n: nat, frames: seq<Frame>)
    requires 0 < |rxq|
  {
    && (forall j :: 0 <= j < |frames| ==> Slot(rxq, n + j) == Some(frames[j]))
    && Slot(rxq, n + |frames|).None?
  }

  /** `frames` in the application's queue, none of them begun. */
  function Unread(frames: seq<Frame>): (r: seq<Held>)
    ensures |r| == |frames| && forall i :: 0 <= i < |frames| ==> r[i] == Held(frames[i], 0)
  {
    seq(|frames|, i requires 0 <= i < |frames| => Held(frames[i], 0))
  }

  /** The slots of the numbers from `n` up to but not including `m` are empty, the others as before. */
  ghost predicate Emptied(rxq: seq<Option<Frame>>, rxq': seq<Option<Frame>>, n: nat, m: nat) {
    && 0 < |rxq| == |rxq'|
    && forall k :: n <= k < n + |rxq| ==> Slot(rxq', k) == if k < m then None else Slot(rxq, k)
  }

  /** What the arrival of `f` makes of `r`: the expected frame and those that waited for it are
      received and queued, a later one of the window waits, any other is only counted. */
  ghost predicate Arrived(r: Receiver, f: Frame, frames: seq<Frame>, r': Receiver)
    requires 0 < |r.rxq|
  {
    var n, w := r.nextFrameExpected, |r.rxq|;
    if f.seqNum == n then
      && Waiting(r.rxq, n + 1, frames) && Emptied(r.rxq, r'.rxq, n, n + 1 + |frames|)
      && r' == r.(rxq := r'.rxq, nextFrameExpected := n + 1 + |frames|,
                  recvHistory := r.recvHistory + [f] + frames,
                  ready := r.ready + [Held(f, 0)] + Unread(frames))
    else if n < f.seqNum < n + w then
      && |r'.rxq| == w && Slot(r'.rxq, f.seqNum) == Some(f)
      && (forall k :: n <= k < n + w && k != f.seqNum ==> Slot(r'.rxq, k) == Slot(r.rxq, k))
      && r' == r.(rxq := r'.rxq)
    else r' == r.(discardCount := r.discardCount + 1)
  }

  /** Filling or emptying one slot leaves the slots of the other numbers of a window alone. */
  lemma OtherSlots(rxq: seq<Option<Frame>>, m: nat, v: Option<Frame>, k: nat)
    requires 0 < |rxq| && -|rxq| < k - m < |rxq| && k != m
    ensures Slot(rxq[m % |rxq| := v], k) == Slot(rxq, k)
  {
    if k % |rxq| == m % |rxq| {
      ModInjective(k, m, |rxq|);
    }
  }

  lemma EmptiedOne(rxq: seq<Option<Frame>>, rxq': seq<Option<Frame>>, n: nat, m: nat)
    requires 0 < |rxq| && n < m <= n + |rxq| && Emptied(rxq[n % |rxq| := None], rxq', n + 1, m)
    ensures Emptied(rxq, rxq', n, m)
  {
    var w := |rxq|;
    WrapsAround(n, w);
    assert Slot(rxq', n) == Slot(rxq', n + w);
    forall k | n <= k < n + w ensures Slot(rxq', k) == if k < m then None else Slot(rxq, k) {
      if k > n {
        OtherSlots(rxq, n, None, k);
      }
    }
  }

  lemma WaitingOne(rxq: seq<Option<Frame>>, n: nat, frames: seq<Frame>)
    requires 0 < |rxq| && Slot(rxq, n).Some? && |frames| + 1 < |rxq|
    requires Waiting(rxq[n % |rxq| := None], n + 1, frames)
    ensures Waiting(rxq, n, [Slot(rxq, n).value] + frames)
  {
    var all := [Slot(rxq, n).value] + frames;
    forall j | 0 <= j < |all| ensures Slot(rxq, n + j) == Some(all[j]) {
      if j > 0 {
        OtherSlots(rxq, n, None, n + j);
        assert Slot(rxq[n % |rxq| := None], n + 1 + (j - 1)) == Some(frames[j - 1]);
      }
    }
    OtherSlots(rxq, n, None, n + |all|);
  }

  lemma UnreadCons(f: Frame, frames: seq<Frame>, before: seq<Held>)
    ensures before + [Held(f, 0)] + Unread(frames) == before + Unread([f] + frames)
  {
    assert Unread([f] + frames) == [Held(f, 0)] + Unread(frames);
  }

  /** The drain queues exactly the frames that wait, when some slot of the window is empty. */
  lemma {:induction false} DrainQueues(r: Receiver, k: nat) returns (frames: seq<Frame>)
    requires k < |r.rxq| && Slot(r.rxq, r.nextFrameExpected + k).None?
    ensures |frames| <= k && Waiting(r.rxq, r.nextFrameExpected, frames)
    ensures Emptied(r.rxq, Drain(r).rxq, r.nextFrameExpected, r.nextFrameExpected + |frames|)
    ensures Drain(r) == r.(rxq := Drain(r).rxq, nextFrameExpected := r.nextFrameExpected + |frames|,
                           recvHistory := r.recvHistory + frames, ready := r.ready + Unread(frames))
    decreases k
  {
    var n := r.nextFrameExpected;
    if Slot(r.rxq, n).None? {
      frames := [];
      ConcatNothing(r.recvHistory);
      ConcatNothing(r.ready);
    } else {
      var f := Slot(r.rxq, n).value;
      var rest := DrainQueues(DrainOne(r), k - 1);
      frames := [f] + rest;
      WaitingOne(r.rxq, n, rest);
      EmptiedOne(r.rxq, Drain(r).rxq, n, n + 1 + |rest|);
      ConcatAssoc(r.recvHistory, [f], rest);
      UnreadCons(f, rest, r.ready);
    }
  }

  /** The expected frame and the frames that waited for it are received, in order and no others. */
  lemma ExpectedArrives(r: Receiver, f: Frame) returns (frames: seq<Frame>)
    requires 0 < |r.rxq| && Slot(r.rxq, r.nextFrameExpected).None? && f.seqNum == r.nextFrameExpected
    ensures Arrived(r, f, frames, AcceptData(r, f))
  {
    var n, w := r.nextFrameExpected, |r.rxq|;
    var stored := r.(rxq := r.rxq[n % w := Some(f)]);
    var first := DrainOne(stored);
    assert first.rxq == r.rxq;
    WrapsAround(n, w);
    frames := DrainQueues(first, w - 1);
    EmptiedOne(r.rxq, Drain(first).rxq, n, n + 1 + |frames|);
  }

  /** What an arrival does, whatever its number. */
  lemma AcceptDataExactly(r: Receiver, f: Frame) returns (frames: seq<Frame>)
    requires 0 < |r.rxq| && Slot(r.rxq, r.nextFrameExpected).None?
    ensures Arrived(r, f, frames, AcceptData(r, f))
  {
    var n, w := r.nextFrameExpected, |r.rxq|;
    frames := [];
    if f.seqNum == n {
      frames := ExpectedArrives(r, f);
    } else if n < f.seqNum < n + w {
      forall k | n <= k < n + w && k != f.seqNum ensures Slot(AcceptData(r, f).rxq, k) == Slot(r.rxq, k) {
        OtherSlots(r.rxq, f.seqNum, Some(f), k);
      }
    }
  }

  /** `Arrived` for some list of waiting frames. */
  ghost predicate Takes(r: Receiver, f: Frame, r': Receiver)
    requires 0 < |r.rxq|
  {
    exists frames :: Arrived(r, f, frames, r')
  }

  lemma AcceptDataTakes(r: Receiver, f: Frame)
    requires 0 < |r.rxq|
    ensures Slot(r.rxq, r.nextFrameExpected).None? ==> Takes(r, f, AcceptData(r, f))
  {
    if Slot(r.rxq, r.nextFrameExpected).None? {
      var frames := AcceptDataExactly(r, f);
    }
  }

  lemma {:induction false} StreamLength(hist: seq<Frame>, k: nat)
    requires HistoryOk(hist) && k <= |hist|
    ensures |Stream(hist, k)| == BytesBefore(hist, k)
  {
    if k > 0 {
      assert FrameOk(hist, k - 1);
      StreamLength(hist, k - 1);
    }
  }

  /** The capacities advertised next, against what was sent and what was handed out: the messages up
      to the highest number heard of that are not consumed are taken off one window, the bytes up to
      there that were not handed out off the other. Once anything was consumed, the byte that
      `lastByteConsumed + 1` adds to a count is advertised on top. */
  lemma AdvertisedExactly(r: Receiver, hist: seq<Frame>)
    requires Valid(r, hist)
    ensures var heard := r.largestSeqnoRcvd + 1;
      && UpdateControl(r).availMsgCap == |r.rxq| - |hist[r.lastMsgConsumed + 1..heard]|
      && UpdateControl(r).availBytesCap
         == r.windowBytes - (|Stream(hist, heard)| - |r.out|) + (if r.lastByteConsumed < 0 then 0 else 1)
  {
    StreamLength(hist, r.largestSeqnoRcvd + 1);
  }

  lemma ReadyDropFirst(ready: seq<Held>, nfe: nat, consumed: int, hist: seq<Frame>)
    requires ReadyOk(ready, nfe, consumed, hist) && ready != []
    ensures ReadyOk(ready[1..], nfe, consumed + 1, hist)
    ensures Partial(ready[1..]) == []
  {
  }

  /** With the rest of the first ready packet, what went out is the stream through that packet. */
  lemma StreamThrough(r: Receiver, hist: seq<Frame>)
    requires HistoryOk(hist) && ReadyOk(r.ready, r.nextFrameExpected, r.lastMsgConsumed, hist) && OutOk(r, hist)
    requires r.ready != []
    ensures var pk, k := r.ready[0], r.lastMsgConsumed + 1;
      && pk.frame.seqNum == k && r.out + pk.frame.data[pk.offset..] == Stream(hist, k + 1)
      && pk.frame.cumulBytes == |Stream(hist, k + 1)|
  {
    var pk, k := r.ready[0], r.lastMsgConsumed + 1;
    assert FrameOk(hist, k);
    StreamLength(hist, k);
    TakeDrop(pk.frame.data, pk.offset);
    ConcatAssoc(Stream(hist, k), pk.frame.data[..pk.offset], pk.frame.data[pk.offset..]);
  }

  lemma WholeIs(r: Receiver)
    requires r.ready != [] && r.ready[0].offset <= |r.ready[0].frame.data|
    ensures var pk := r.ready[0];
      Consume(r, |pk.frame.data| - pk.offset)
      == r.(ready := r.ready[1..], lastMsgConsumed := pk.frame.seqNum, lastFrameClientConsumed := pk.frame.seqNum,
            lastByteConsumed := pk.frame.cumulBytes, out := r.out + pk.frame.data[pk.offset..])
  {
    var data, offset := r.ready[0].frame.data, r.ready[0].offset;
    assert data[offset..|data|] == data[offset..];
  }

  lemma ConsumeWhole(r: Receiver, hist: seq<Frame>)
    requires Valid(r, hist) && r.ready != []
    ensures Valid(Consume(r, |r.ready[0].frame.data| - r.ready[0].offset), hist)
  {
    StreamThrough(r, hist);
    ReadyDropFirst(r.ready, r.nextFrameExpected, r.lastMsgConsumed, hist);
    WholeIs(r);
    ConcatNothing(Stream(hist, r.lastMsgConsumed + 2));
  }

  lemma ConsumePart(r: Receiver, m: nat, hist: seq<Frame>)
    requires Valid(r, hist) && r.ready != [] && r.ready[0].offset + m < |r.ready[0].frame.data|
    ensures Valid(Consume(r, m), hist)
  {
    var pk, k := r.ready[0], r.lastMsgConsumed + 1;
    assert FrameOk(hist, k);
    StreamLength(hist, k);
    TakeSlice(pk.frame.data, pk.offset, pk.offset + m);
    ConcatAssoc(Stream(hist, k), pk.frame.data[..pk.offset], pk.frame.data[pk.offset..pk.offset + m]);
    assert Consume(r, m).out == Stream(hist, k) + hist[k].data[..pk.offset + m];
  }

  /** Taking bytes keeps the receiver valid, and what went out stays an initial part. */
  lemma ConsumeValid(r: Receiver, m: nat, hist: seq<Frame>)
    requires Valid(r, hist) && r.ready != [] && r.ready[0].offset + m <= |r.ready[0].frame.data|
    ensures Valid(Consume(r, m), hist)
    ensures |Consume(r, m).out| == |r.out| + m && r.out <= Consume(r, m).out
    ensures r.lastMsgConsumed <= Consume(r, m).lastMsgConsumed
  {
    assert FrameOk(hist, r.lastMsgConsumed + 1);
    if m == |r.ready[0].frame.data| - r.ready[0].offset {
      ConsumeWhole(r, hist);
    } else {
      ConsumePart(r, m, hist);
    }
  }

  /** A Read hands out the next bytes, as many as there is room for or all there are. */
  lemma {:induction false} FillValid(r: Receiver, room: nat, hist: seq<Frame>)
    requires Valid(r, hist)
    ensures Valid(Fill(r, room), hist)
    ensures r.out <= Fill(r, room).out && |Fill(r, room).out| <= |r.out| + room
    ensures |Fill(r, room).out| == |r.out| + room || Fill(r, room).ready == []
    ensures r.lastMsgConsumed <= Fill(r, room).lastMsgConsumed
    decreases |r.ready|
  {
    if r.ready != [] && room != 0 {
      var left := |r.ready[0].frame.data| - r.ready[0].offset;
      if left <= room {
        var next := Consume(r, left);
        ConsumeValid(r, left, hist);
        FillStep(r, room, left);
        FillValid(next, room - left, hist);
        PrefixTrans(r.out, next.out, Fill(next, room - left).out);
      } else {
        ConsumeValid(r, room, hist);
      }
    }
  }

  /** Message delivery hands out everything ready. */
  lemma {:induction false} DeliverAllValid(r: Receiver, hist: seq<Frame>)
    requires Valid(r, hist)
    ensures Valid(DeliverAll(r), hist) && DeliverAll(r).ready == []
    ensures r.out <= DeliverAll(r).out
    ensures r.lastMsgConsumed <= DeliverAll(r).lastMsgConsumed
    decreases |r.ready|
  {
    if r.ready != [] {
      var left := |r.ready[0].frame.data| - r.ready[0].offset;
      ConsumeValid(r, left, hist);
      DeliverAllValid(Consume(r, left), hist);
    }
  }

  lemma {:induction false} StreamExtend(hist: seq<Frame>, f: Frame, k: nat)
    requires k <= |hist|
    ensures Stream(hist + [f], k) == Stream(hist, k)
  {
    if k > 0 {
      StreamExtend(hist, f, k - 1);
    }
  }

  /** The peer sending one more frame does not disturb the receiver. */
  lemma HistoryExtends(r: Receiver, hist: seq<Frame>, f: Frame)
    requires Valid(r, hist) && HistoryOk(hist + [f])
    ensures Valid(r, hist + [f])
  {
    StreamExtend(hist, f, r.lastMsgConsumed + 1);
    assert (hist + [f])[..r.nextFrameExpected] == hist[..r.nextFrameExpected];
    forall i | 0 <= i < |r.rxq| && r.rxq[i].Some?
      ensures SlotOk(r.rxq[i].value, i, |r.rxq|, r.nextFrameExpected, r.largestSeqnoRcvd, hist + [f])
    {
      assert SlotOk(r.rxq[i].value, i, |r.rxq|, r.nextFrameExpected, r.largestSeqnoRcvd, hist);
    }
  }

  lemma {:induction false} StreamPrefix(hist: seq<Frame>, i: nat, j: nat)
    requires i <= j <= |hist|
    ensures Stream(hist, i) <= Stream(hist, j)
    decreases j
  {
    if i < j {
      StreamPrefix(hist, i, j - 1);
    }
  }

  /** Everything handed out is an initial part of everything sent. */
  lemma OutIsPrefix(r: Receiver, hist: seq<Frame>)
    requires Valid(r, hist)
    ensures r.out <= Stream(hist, |hist|)
  {
    var k := r.lastMsgConsumed + 1;
    if r.ready == [] {
      StreamPrefix(hist, k, |hist|);
    } else {
      assert r.ready[0].frame == hist[k];
      assert r.out <= Stream(hist, k + 1);
      StreamPrefix(hist, k + 1, |hist|);
    }
  }
}
