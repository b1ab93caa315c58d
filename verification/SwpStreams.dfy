/** From the payloads one application writes to the bytes the other reads. */
module SwpStreams {
  import opened Common
  import opened SwpSession
  import opened SwpWrite

  /** The packets of a series of writes. */
  function AllChunks(payloads: seq<seq<byte>>, sz: nat): seq<seq<byte>>
    requires 0 < sz
  {
    if payloads == [] then [] else Chunks(payloads[0], sz) + AllChunks(payloads[1..], sz)
  }

  lemma {:induction false} AllChunksBack(payloads: seq<seq<byte>>, sz: nat)
    requires 0 < sz
    ensures Flatten(AllChunks(payloads, sz)) == Flatten(payloads)
  {
    if payloads != [] {
      AllChunksBack(payloads[1..], sz);
      FlattenConcat(Chunks(payloads[0], sz), AllChunks(payloads[1..], sz));
      ChunksBack(payloads[0], sz);
    }
  }

  /** In every run in which one side sends the pieces of its writes in order, however far it has
      come, what the other side has read is an initial part of what was written, and all of it once
      every piece is sent and the last one is consumed. */
  lemma RunWritten(w: nat, windowBytes: int, run: seq<Move>, x: Side, payloads: seq<seq<byte>>, windowByteSz: int)
    requires 0 < w && windowByteSz != 0
    requires Pushes(w, windowBytes, run, x) <= AllChunks(payloads, ChunkSize(windowByteSz))
    ensures var s := After(w, windowBytes, run);
      var snd, rcv := End(s, x).snd, End(s, Other(x)).rcv;
      && rcv.out <= Flatten(payloads)
      && (rcv.lastMsgConsumed == snd.lastFrameSent &&
          Pushes(w, windowBytes, run, x) == AllChunks(payloads, ChunkSize(windowByteSz))
          ==> rcv.out == Flatten(payloads))
  {
    var sz := ChunkSize(windowByteSz);
    RunStreams(w, windowBytes, run, x);
    FlattenPrefix(Pushes(w, windowBytes, run, x), AllChunks(payloads, sz));
    AllChunksBack(payloads, sz);
    PrefixTrans(End(After(w, windowBytes, run), Other(x)).rcv.out, Flatten(Pushes(w, windowBytes, run, x)),
        Flatten(payloads));
  }
}
