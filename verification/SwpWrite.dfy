/** `Session.Write`: cutting a payload into packet-sized pieces. */
module SwpWrite {
  import opened Common

  const MAX_SZ := 524288  // 1 << 19

  /** Size of the pieces, given the configured byte window. */
  function ChunkSize(windowByteSz: int): (sz: int)
    ensures windowByteSz < 0 ==> sz == 524288
    ensures windowByteSz >= 0 ==> sz <= windowByteSz && sz <= 524288 && (sz == windowByteSz || sz == 524288)
  {
    var sz := if windowByteSz < MAX_SZ then windowByteSz else MAX_SZ;
    if sz < 0 then MAX_SZ else sz
  }

  /** The pieces of a payload, in order. */
  function Chunks(payload: seq<byte>, sz: nat): (packs: seq<seq<byte>>)
    requires 0 < sz
    ensures forall i :: 0 <= i < |packs| ==> 0 < |packs[i]| <= sz && (i < |packs| - 1 ==> |packs[i]| == sz)
  {
    if payload == [] then []
    else if |payload| <= sz then [payload]
    else [payload[..sz]] + Chunks(payload[sz..], sz)
  }

  lemma {:induction false} ChunksBack(payload: seq<byte>, sz: nat)
    requires 0 < sz
    ensures Flatten(Chunks(payload, sz)) == payload
  {
    if |payload| > sz {
      ChunksBack(payload[sz..], sz);
      TakeDrop(payload, sz);
    } else if payload != [] {
      ConcatNothing(payload);
    }
  }

  lemma ProductBounds(lenp: nat, sz: int, npack: int)
    requires 0 < sz
    requires npack == lenp / sz + (if lenp - lenp / sz * sz > 0 then 1 else 0)
    ensures npack * sz >= lenp && (lenp > 0 ==> npack > 0 && (npack - 1) * sz < lenp)
  {
    var q, r := lenp / sz, lenp % sz;
    assert lenp == q * sz + r;
    assert (q + 1) * sz == q * sz + sz;
    if q == 0 && r == 0 { assert lenp == 0; }
    assert (q - 1) * sz == q * sz - sz;
  }

  /** The pieces put together are the payload; each is as long as the limit, but for the last, which is
      not empty. */
  method Write(payload: seq<byte>, windowByteSz: int) returns (packs: seq<seq<byte>>)
    requires windowByteSz != 0
    ensures packs == Chunks(payload, ChunkSize(windowByteSz)) && Flatten(packs) == payload
    ensures forall i :: 0 <= i < |packs| ==>
      0 < |packs[i]| <= ChunkSize(windowByteSz) && (i < |packs| - 1 ==> |packs[i]| == ChunkSize(windowByteSz))
  {
    packs := [];
    var sz := ChunkSize(windowByteSz);
    ChunksBack(payload, sz);
    var lenp := |payload|;
    if lenp == 0 {
      return;
    }
    var npack := lenp / sz;
    if lenp - npack * sz > 0 {
      npack := npack + 1;
    }
    ProductBounds(lenp, sz, npack);
    var i := 0;
    while i < npack
      invariant 0 <= i <= npack
      invariant 0 <= At(i, sz, lenp) <= lenp && (i == npack ==> At(i, sz, lenp) == lenp)
      invariant Partly(packs, payload, At(i, sz, lenp), sz)
    {
      ChunkStart(i, npack, sz, lenp);
      var next := (i + 1) * sz;
      var end := if next < lenp then next else lenp;
      NextAt(i, npack, sz, lenp);
      NextChunk(packs, payload, i * sz, end, sz);
      packs := packs + [payload[i * sz..end]];
      i := i + 1;
    }
  }

  /** Where piece `i` starts, or the end. */
  function At(i: nat, sz: nat, lenp: nat): int {
    if i * sz < lenp then i * sz else lenp
  }

  lemma NextAt(i: nat, npack: nat, sz: nat, lenp: nat)
    requires i < npack && npack * sz >= lenp
    ensures At(i + 1, sz, lenp) == (if (i + 1) * sz < lenp then (i + 1) * sz else lenp)
    ensures 0 <= At(i + 1, sz, lenp) <= lenp && (i + 1 == npack ==> At(i + 1, sz, lenp) == lenp)
  {
  }

  /** The pieces up to `at` are cut. */
  ghost predicate Partly(packs: seq<seq<byte>>, payload: seq<byte>, at: int, sz: nat)
    requires 0 < sz
  {
    0 <= at <= |payload| && packs + Chunks(payload[at..], sz) == Chunks(payload, sz)
  }

  lemma NextChunk(packs: seq<seq<byte>>, payload: seq<byte>, at: nat, end: nat, sz: nat)
    requires 0 < sz && at < |payload| && Partly(packs, payload, at, sz)
    requires end == if at + sz < |payload| then at + sz else |payload|
    ensures Partly(packs + [payload[at..end]], payload, end, sz)
  {
    var rest := payload[at..];
    if at + sz < |payload| {
      assert rest[..sz] == payload[at..end] && rest[sz..] == payload[end..];
    } else {
      assert payload[at..end] == rest;
    }
    ConcatAssoc(packs, [payload[at..end]], Chunks(payload[end..], sz));
  }

  lemma ChunkStart(i: int, npack: int, sz: int, lenp: int)
    requires 0 <= i < npack && 0 < sz && (npack - 1) * sz < lenp
    ensures 0 <= i * sz < lenp && (i + 1) * sz == i * sz + sz
    ensures (i + 1) * sz <= lenp || i + 1 == npack
  {
    assert i * sz <= (npack - 1) * sz;
    if i + 1 < npack {
      assert (i + 1) * sz <= (npack - 1) * sz;
    }
  }
}
