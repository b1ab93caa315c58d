/** The receiver as it runs: the reordering window and the delivery queue changed in place. */
module SwpRecvState {
  import opened Common
  import opened SwpTypes
  import opened SwpReceiver

  class RecvState {
    const RecvWindowSizeBytes: int
    var NextFrameExpected: nat
    const Rxq: array<Option<Frame>>
    var RecvHistory: seq<Frame>
    var ReadyForDelivery: seq<Held>
    var LastMsgConsumed: int
    var LastFrameClientConsumed: int
    var LastByteConsumed: int
    var LargestSeqnoRcvd: int
    var MaxCumulBytesTrans: int
    var LastAvailReaderMsgCap: int
    var LastAvailReaderBytesCap: int
    var DiscardCount: nat
    ghost var Out: seq<byte>

    ghost function View(): Receiver
      reads this, Rxq
    {
      Receiver(RecvWindowSizeBytes, NextFrameExpected, Rxq[..], RecvHistory, ReadyForDelivery,
               LastMsgConsumed, LastFrameClientConsumed, LastByteConsumed,
               LargestSeqnoRcvd, MaxCumulBytesTrans,
               LastAvailReaderMsgCap, LastAvailReaderBytesCap, DiscardCount, Out)
    }

    constructor (recvSz: nat, recvSzBytes: int)
      ensures View() == Init(recvSz, recvSzBytes) && fresh(Rxq)
    {
      RecvWindowSizeBytes := recvSzBytes;
      NextFrameExpected := 0;
      Rxq := new Option<Frame>[recvSz](_ => None);
      RecvHistory, ReadyForDelivery := [], [];
      LastMsgConsumed, LastFrameClientConsumed, LastByteConsumed := -1, 0, -1;
      LargestSeqnoRcvd, MaxCumulBytesTrans := -1, 0;
      LastAvailReaderMsgCap, LastAvailReaderBytesCap, DiscardCount := 0, 0, 0;
      Out := [];
    }

    /** Bookkeeping on arrival; `panicked` is the check that the model shows never to fail. */
    method NoteArrival(f: Frame) returns (panicked: bool)
      modifies this
      ensures panicked <==> SwpReceiver.NoteArrival(old(View()), f).None?
      ensures !panicked ==> View() == UpdateControl(SwpReceiver.NoteArrival(old(View()), f).value)
    {
      if f.seqNum > LargestSeqnoRcvd {
        LargestSeqnoRcvd := f.seqNum;
        if f.cumulBytes < MaxCumulBytesTrans {
          return true;
        }
        MaxCumulBytesTrans := f.cumulBytes;
      }
      if f.cumulBytes > MaxCumulBytesTrans {
        return true;
      }
      LastAvailReaderMsgCap := Rxq.Length - (LargestSeqnoRcvd - LastMsgConsumed);
      LastAvailReaderBytesCap := RecvWindowSizeBytes - (MaxCumulBytesTrans - (LastByteConsumed + 1));
      panicked := false;
    }

    /** The data path: discard, keep, or keep and drain in order. */
    method ReceiveData(f: Frame) returns (discarded: bool, turns: nat)
      requires 0 < Rxq.Length
      modifies this, Rxq
      ensures View() == AcceptData(old(View()), f)
      ensures old(Slot(View().rxq, NextFrameExpected)).None? ==> Takes(old(View()), f, View())
      ensures discarded <==> !Acceptable(old(View()), f)
      ensures turns == NextFrameExpected - old(NextFrameExpected) && turns <= Rxq.Length
    {
      turns := 0;
      AcceptDataTakes(View(), f);
      discarded := !InWindow(f.seqNum, NextFrameExpected, NextFrameExpected + Rxq.Length - 1);
      if discarded {
        DiscardCount := DiscardCount + 1;
        return;
      }
      ghost var r := View();
      var slot := f.seqNum % Rxq.Length;
      Rxq[slot] := Some(f);
      if f.seqNum == NextFrameExpected {
        ghost var stored := View();
        assert stored == r.(rxq := r.rxq[slot := Some(f)]);
        while Rxq[slot].Some?
          invariant slot == NextFrameExpected % Rxq.Length
          invariant Drain(View()) == Drain(stored)
          invariant NextFrameExpected == r.nextFrameExpected + turns
          invariant turns + Filled(Rxq[..]) == Filled(stored.rxq)
          decreases Filled(Rxq[..])
        {
          FilledClear(Rxq[..], slot);
          DrainTurn(slot);
          turns := turns + 1;
          slot := NextFrameExpected % Rxq.Length;
        }
      }
    }

    /** One turn of the in-order loop. */
    method DrainTurn(slot: nat)
      requires 0 < Rxq.Length && slot == NextFrameExpected % Rxq.Length && Rxq[slot].Some?
      modifies this, Rxq
      ensures View() == DrainOne(old(View()))
    {
      ghost var r := View();
      ReadyForDelivery := ReadyForDelivery + [Held(Rxq[slot].value, 0)];
      RecvHistory := RecvHistory + [Rxq[slot].value];
      Rxq[slot] := None;
      NextFrameExpected := NextFrameExpected + 1;
      assert Rxq[..] == r.rxq[slot := None];
    }

    /** The application has taken `m` bytes of the first ready packet. */
    method ConsumeFirst(m: nat) returns (whole: bool)
      requires ReadyForDelivery != []
      requires ReadyForDelivery[0].offset + m <= |ReadyForDelivery[0].frame.data|
      modifies this
      ensures View() == Consume(old(View()), m)
      ensures whole <==> m == |old(ReadyForDelivery[0]).frame.data| - old(ReadyForDelivery[0]).offset
      ensures whole ==> ReadyForDelivery == old(ReadyForDelivery)[1..]
    {
      var pk := ReadyForDelivery[0];
      var lendata := |pk.frame.data| - pk.offset;
      whole := m == lendata;
      if whole {
        ReadyForDelivery := ReadyForDelivery[1..];
        LastMsgConsumed := pk.frame.seqNum;
        LastFrameClientConsumed := pk.frame.seqNum;
        LastByteConsumed := pk.frame.cumulBytes;
      } else {
        ReadyForDelivery := ReadyForDelivery[0 := Held(pk.frame, pk.offset + m)];
        LastByteConsumed := pk.frame.cumulBytes - lendata + m;
      }
      Out := Out + pk.frame.data[pk.offset..pk.offset + m];
    }

    /** Copy what fits of the first ready packet to `p` from `n` on. */
    method FillOne(p: array<byte>, n: nat) returns (m: nat, whole: bool, ghost added: seq<byte>)
      requires ReadyForDelivery != [] && OffsetsOk(ReadyForDelivery) && n < p.Length
      modifies this, p
      ensures n + m <= p.Length && OffsetsOk(ReadyForDelivery)
      ensures Fill(View(), p.Length - n - m) == Fill(old(View()), p.Length - n)
      ensures n + m == p.Length || whole
      ensures if whole then ReadyForDelivery == old(ReadyForDelivery)[1..]
              else |ReadyForDelivery| == |old(ReadyForDelivery)|
      ensures Out == old(Out) + added && p[..n + m] == old(p[..n]) + added
    {
      var pk := ReadyForDelivery[0];
      var lendata := |pk.frame.data| - pk.offset;
      m := if lendata <= p.Length - n then lendata else p.Length - n;
      var bytes := pk.frame.data[pk.offset..pk.offset + m];
      added := bytes;
      FillStep(View(), p.Length - n, m);
      CopyTo(p, n, bytes);
      whole := ConsumeFirst(m);
    }

    /** A Read into `p`: `n` bytes were copied; `acked` if some packet was consumed to its end. */
    method FillAsMuchAsPossible(p: array<byte>) returns (n: nat, acked: bool)
      requires OffsetsOk(ReadyForDelivery)
      modifies this, p
      ensures View() == Fill(old(View()), p.Length)
      ensures n <= p.Length && Out == old(Out) + p[..n]
      ensures acked <==> |ReadyForDelivery| < |old(ReadyForDelivery)|
    {
      n, acked := 0, false;
      if p.Length == 0 {
        return;
      }
      ghost var goal := Fill(View(), p.Length);
      var ready := ReadyForDelivery;
      var k := 0;
      while k < |ready|
        invariant k <= |ready| && ReadyForDelivery == ready[k..] && (acked <==> k > 0)
        invariant n < p.Length && OffsetsOk(ReadyForDelivery) && Fill(View(), p.Length - n) == goal
        invariant Out == old(Out) + p[..n]
      {
        ghost var copied := p[..n];
        var m, whole, added := FillOne(p, n);
        ConcatAssoc(old(Out), copied, added);
        n := n + m;
        acked := acked || whole;
        if n >= p.Length {
          break;
        }
        k := k + 1;
      }
    }

    /** Delivery of everything ready on the message channel. */
    method DeliverToConsumer() returns (delivery: seq<Held>)
      requires ReadyForDelivery != [] && OffsetsOk(ReadyForDelivery)
      modifies this
      ensures View() == DeliverAll(old(View()))
      ensures delivery == old(ReadyForDelivery)
    {
      delivery := ReadyForDelivery;
      ghost var r := View();
      ghost var cur := r;
      for k := 0 to |delivery|
        invariant r.(lastMsgConsumed := LastMsgConsumed) == View()
        invariant k > 0 ==> LastMsgConsumed == delivery[k - 1].frame.seqNum
        invariant OffsetsOk(cur.ready) && cur.ready == delivery[k..] && DeliverAll(cur) == DeliverAll(r)
        invariant cur == r.(ready := cur.ready, out := cur.out, lastMsgConsumed := LastMsgConsumed,
                            lastFrameClientConsumed := if k == 0 then r.lastFrameClientConsumed else LastMsgConsumed,
                            lastByteConsumed := if k == 0 then r.lastByteConsumed else delivery[k - 1].frame.cumulBytes)
      {
        LastMsgConsumed := delivery[k].frame.seqNum;
        cur := Consume(cur, |delivery[k].frame.data| - delivery[k].offset);
      }
      LastByteConsumed := delivery[|delivery| - 1].frame.cumulBytes;
      ReadyForDelivery := [];
      LastFrameClientConsumed := delivery[|delivery| - 1].frame.seqNum;
      Out := cur.out;
    }
  }

  /** Overwrite `bytes` into `p` from `n` on. */
  method CopyTo(p: array<byte>, n: nat, bytes: seq<byte>)
    requires n + |bytes| <= p.Length
    modifies p
    ensures p[..n] == old(p[..n]) && p[..n + |bytes|] == old(p[..n]) + bytes
  {
    for i := 0 to |bytes|
      invariant p[..n] == old(p[..n])
      invariant forall j :: 0 <= j < i ==> p[n + j] == bytes[j]
    {
      p[n + i] := bytes[i];
    }
  }
}
