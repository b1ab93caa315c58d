/** The compactor: a recursive walk whose callback writes to the open transaction. */
module CompactionState {
  import opened Common
  import opened Compaction

  class Compactor {
    const max: int
    var committed: Node
    var tx: Node
    var size: nat

    ghost function View(): Dst
      reads this
    {
      Dst(committed, tx, size)
    }

    constructor (max: int)
      ensures View() == Dst(EMPTY_DB, EMPTY_DB, 0) && this.max == max
    {
      this.max := max;
      committed, tx, size := EMPTY_DB, EMPTY_DB, 0;
    }

    /** The callback: commit and begin anew over the limit, then write. */
    method OnKey(c: Call) returns (ok: bool)
      modifies this
      ensures ok == Receive(old(View()), c, max).Some?
      ensures ok ==> Some(View()) == Receive(old(View()), c, max)
    {
      var sz := SizeOfCall(c);
      if size + sz > max && max != 0 {
        committed, size := tx, 0;
      }
      size := size + sz;
      var w := Write(tx, c);
      ok := w.Some?;
      if ok {
        tx := w.value;
      }
    }

    /** walkBucket: report the entry, then its children if it is a bucket. */
    method WalkBucket(e: Entry, path: seq<string>) returns (ok: bool)
      modifies this
      ensures ok == ReceiveAll(old(View()), EntryCalls(e, path), max).Some?
      ensures ok ==> Some(View()) == ReceiveAll(old(View()), EntryCalls(e, path), max)
      decreases e, 0
    {
      ghost var head := EntryCalls(e, path);
      match e.node
      case Val(bytes) =>
        assert head[1..] == [];
        ok := OnKey(Call(path, e.key, Some(bytes), 0));
      case Bucket(q, sub) =>
        assert head[1..] == Calls(sub, path + [e.key]);
        ok := OnKey(Call(path, e.key, None, q));
        if ok {
          ok := WalkKids(sub, path + [e.key]);
        }
    }

    method WalkKids(kids: seq<Entry>, path: seq<string>) returns (ok: bool)
      modifies this
      ensures ok == ReceiveAll(old(View()), Calls(kids, path), max).Some?
      ensures ok ==> Some(View()) == ReceiveAll(old(View()), Calls(kids, path), max)
      decreases kids, 1
    {
      ok := true;
      ghost var whole := ReceiveAll(View(), Calls(kids, path), max);
      for i := 0 to |kids|
        invariant ok
        invariant ReceiveAll(View(), Calls(kids[i..], path), max) == whole
      {
        assert kids[i..][1..] == kids[i + 1..];
        assert Calls(kids[i..], path) == EntryCalls(kids[i], path) + Calls(kids[i + 1..], path);
        ReceiveConcat(View(), EntryCalls(kids[i], path), Calls(kids[i + 1..], path), max);
        ok := WalkBucket(kids[i], path);
        if !ok {
          return;
        }
      }
    }

    /** compactInBatches: the last transaction is committed at the end. */
    method CompactAll(src: Node) returns (ok: bool)
      requires ValidRoot(src) && View() == Dst(EMPTY_DB, EMPTY_DB, 0)
      modifies this
      ensures ok && committed == Bucket(0, src.kids)
    {
      CompactExact(src, max);
      ok := WalkKids(src.kids, []);
      committed := tx;
    }
  }

  lemma {:induction false} ReceiveConcat(d: Dst, a: seq<Call>, b: seq<Call>, max: int)
    ensures ReceiveAll(d, a + b, max)
         == if ReceiveAll(d, a, max).None? then None else ReceiveAll(ReceiveAll(d, a, max).value, b, max)
    decreases |a|
  {
    if a == [] {
      assert a + b == b;
    } else {
      assert (a + b)[1..] == a[1..] + b;
      if Receive(d, a[0], max).Some? {
        ReceiveConcat(Receive(d, a[0], max).value, a[1..], b, max);
      }
    }
  }
}
