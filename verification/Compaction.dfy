/**
 Compacting a bolt database: walk the nested buckets of the source in key order, and write every
 bucket and pair to the destination, committing whenever a batch would grow over the limit.
 */
module Compaction {
  import opened Common

  /** Buckets hold pairs and further buckets, in key order. */
  datatype Node = Val(bytes: string) | Bucket(seqno: nat, kids: seq<Entry>)
  datatype Entry = Entry(key: string, node: Node)

  /** What the walk reports: a pair, or a bucket when there is no value. */
  datatype Call = Call(path: seq<string>, key: string, value: Option<string>, seqno: nat)

  // ---------- the source ----------

  ghost predicate Ordered(kids: seq<Entry>) {
    && (forall i :: 0 <= i < |kids| ==> kids[i].key != "")
    && (forall i, j :: 0 <= i < j < |kids| ==> StrLess(kids[i].key, kids[j].key))
  }

  /** As bolt keeps it: keys not empty, in order and unique, at every level. */
  ghost predicate Valid(n: Node) {
    n.Bucket? ==> Ordered(n.kids) && forall i :: 0 <= i < |n.kids| ==> Valid(n.kids[i].node)
  }

  /** At the root there are only buckets. */
  ghost predicate ValidRoot(n: Node) {
    n.Bucket? && Valid(n) && forall i :: 0 <= i < |n.kids| ==> n.kids[i].node.Bucket?
  }

  function Calls(kids: seq<Entry>, path: seq<string>): seq<Call>
    decreases kids
  {
    if kids == [] then []
    else
      var e := kids[0];
      (match e.node
       case Val(bytes) => [Call(path, e.key, Some(bytes), 0)]
       case Bucket(q, sub) => [Call(path, e.key, None, q)] + Calls(sub, path + [e.key]))
      + Calls(kids[1..], path)
  }

  // ---------- writing ----------

  function Find(kids: seq<Entry>, key: string): Option<nat> {
    if kids == [] then None
    else if kids[0].key == key then Some(0)
    else match Find(kids[1..], key)
      case None => None
      case Some(i) => Some(i + 1)
  }

  function Place(kids: seq<Entry>, e: Entry): seq<Entry> {
    if kids == [] || StrLess(e.key, kids[0].key) then [e] + kids else [kids[0]] + Place(kids[1..], e)
  }

  lemma {:induction false} FindIn(kids: seq<Entry>, key: string)
    ensures Find(kids, key).Some? ==> Find(kids, key).value < |kids| && kids[Find(kids, key).value].key == key
  {
    if kids != [] && kids[0].key != key {
      FindIn(kids[1..], key);
    }
  }

  /** None is an error, or a missing parent bucket. */
  function Create(kids: seq<Entry>, key: string, seqno: nat): Option<seq<Entry>> {
    if key == "" || Find(kids, key).Some? then None else Some(Place(kids, Entry(key, Bucket(seqno, []))))
  }

  function Put(kids: seq<Entry>, key: string, bytes: string): Option<seq<Entry>> {
    if key == "" then None
    else match Find(kids, key)
      case None => Some(Place(kids, Entry(key, Val(bytes))))
      case Some(i) =>
        FindIn(kids, key);
        if kids[i].node.Val? then Some(kids[i := Entry(key, Val(bytes))]) else None
  }

  function Write(n: Node, c: Call): Option<Node>
    decreases |c.path|
  {
    if n.Val? then None
    else if c.path == [] then
      var kids := if c.value.None? then Create(n.kids, c.key, c.seqno) else Put(n.kids, c.key, c.value.value);
      if kids.None? then None else Some(n.(kids := kids.value))
    else match Find(n.kids, c.path[0])
      case None => None
      case Some(i) =>
        FindIn(n.kids, c.path[0]);
        var child := Write(n.kids[i].node, c.(path := c.path[1..]));
        if child.None? then None else Some(n.(kids := n.kids[i := Entry(c.path[0], child.value)]))
  }

  function WriteAll(n: Node, cs: seq<Call>): Option<Node>
    decreases |cs|
  {
    if cs == [] then Some(n)
    else if Write(n, cs[0]).None? then None
    else WriteAll(Write(n, cs[0]).value, cs[1..])
  }

  // ---------- batches ----------

  /** The destination: what is committed, the open transaction, and its size so far. */
  datatype Dst = Dst(committed: Node, tx: Node, size: nat)

  const EMPTY_DB := Bucket(0, [])

  function SizeOfCall(c: Call): nat {
    |c.key| + if c.value.None? then 0 else |c.value.value|
  }

  function CommitFirst(d: Dst, c: Call, max: int): Dst {
    if d.size + SizeOfCall(c) > max && max != 0 then Dst(d.tx, d.tx, 0) else d
  }

  /** The walk's callback. */
  function Receive(d: Dst, c: Call, max: int): Option<Dst> {
    var e := CommitFirst(d, c, max);
    var tx := Write(e.tx, c);
    if tx.None? then None else Some(Dst(e.committed, tx.value, e.size + SizeOfCall(c)))
  }

  function ReceiveAll(d: Dst, cs: seq<Call>, max: int): Option<Dst>
    decreases |cs|
  {
    if cs == [] then Some(d)
    else if Receive(d, cs[0], max).None? then None
    else ReceiveAll(Receive(d, cs[0], max).value, cs[1..], max)
  }

  /** compactInBatches: the committed destination, or None for an error. */
  function Compact(src: Node, max: int): Option<Node>
    requires src.Bucket?
  {
    match ReceiveAll(Dst(EMPTY_DB, EMPTY_DB, 0), Calls(src.kids, []), max)
    case None => None
    case Some(d) => Some(d.tx)
  }

  // ---------- where the commits fall makes no difference ----------

  lemma {:induction false} BatchesAgree(d: Dst, cs: seq<Call>, max: int)
    ensures var r := ReceiveAll(d, cs, max);
            r.Some? == WriteAll(d.tx, cs).Some? && (r.Some? ==> r.value.tx == WriteAll(d.tx, cs).value)
    decreases |cs|
  {
    if cs != [] && Receive(d, cs[0], max).Some? {
      BatchesAgree(Receive(d, cs[0], max).value, cs[1..], max);
    }
  }

  lemma {:induction false} WriteAllConcat(n: Node, a: seq<Call>, b: seq<Call>)
    ensures WriteAll(n, a + b) == if WriteAll(n, a).None? then None else WriteAll(WriteAll(n, a).value, b)
    decreases |a|
  {
    if a == [] {
      assert a + b == b;
    } else {
      assert (a + b)[1..] == a[1..] + b;
      if Write(n, a[0]).Some? {
        WriteAllConcat(Write(n, a[0]).value, a[1..], b);
      }
    }
  }

  // ---------- writes below a child act on that child ----------

  function Under(k: string, cs: seq<Call>): seq<Call> {
    if cs == [] then [] else [cs[0].(path := [k] + cs[0].path)] + Under(k, cs[1..])
  }

  lemma {:induction false} UnderConcat(k: string, a: seq<Call>, b: seq<Call>)
    ensures Under(k, a + b) == Under(k, a) + Under(k, b)
  {
    if a == [] {
      assert a + b == b;
    } else {
      assert (a + b)[1..] == a[1..] + b;
      UnderConcat(k, a[1..], b);
    }
  }

  /** Walking a bucket below `k` reports the same calls with `k` in front of the path. */
  lemma {:induction false} CallsUnder(kids: seq<Entry>, k: string, path: seq<string>)
    ensures Calls(kids, [k] + path) == Under(k, Calls(kids, path))
    decreases kids
  {
    if kids != [] {
      var e := kids[0];
      CallsUnder(kids[1..], k, path);
      match e.node
      case Val(bytes) =>
        var first := [Call(path, e.key, Some(bytes), 0)];
        UnderConcat(k, first, Calls(kids[1..], path));
      case Bucket(q, sub) =>
        var first := [Call(path, e.key, None, q)];
        var rest := Calls(sub, path + [e.key]);
        assert [k] + path + [e.key] == [k] + (path + [e.key]);
        CallsUnder(sub, k, path + [e.key]);
        UnderConcat(k, first, rest);
        UnderConcat(k, first + rest, Calls(kids[1..], path));
    }
  }

  lemma {:induction false} FindLast(kids: seq<Entry>, e: Entry)
    requires Find(kids, e.key) == None
    ensures Find(kids + [e], e.key) == Some(|kids|)
  {
    if kids == [] {
      assert kids + [e] == [e];
    } else {
      assert (kids + [e])[1..] == kids[1..] + [e];
      FindLast(kids[1..], e);
    }
  }

  /** Writes below the last child of a bucket change that child as they would on their own. */
  lemma {:induction false} WriteBelow(q: nat, done: seq<Entry>, k: string, child: Node, cs: seq<Call>)
    requires Find(done, k) == None
    ensures WriteAll(Bucket(q, done + [Entry(k, child)]), Under(k, cs))
         == if WriteAll(child, cs).None? then None else Some(Bucket(q, done + [Entry(k, WriteAll(child, cs).value)]))
    decreases |cs|
  {
    if cs != [] {
      var n := Bucket(q, done + [Entry(k, child)]);
      var c := Under(k, cs)[0];
      FindLast(done, Entry(k, child));
      assert c.path[0] == k && c.path[1..] == cs[0].path && c.(path := c.path[1..]) == cs[0];
      assert Under(k, cs)[1..] == Under(k, cs[1..]);
      var w := Write(child, cs[0]);
      if w.Some? {
        assert n.kids[|done| := Entry(k, w.value)] == done + [Entry(k, w.value)];
        assert Write(n, c) == Some(Bucket(q, done + [Entry(k, w.value)]));
        WriteBelow(q, done, k, w.value, cs[1..]);
      }
    }
  }

  // ---------- a copy is built entry by entry ----------

  lemma {:induction false} FindNone(kids: seq<Entry>, key: string)
    requires forall i :: 0 <= i < |kids| ==> kids[i].key != key
    ensures Find(kids, key) == None
  {
    if kids != [] {
      FindNone(kids[1..], key);
    }
  }

  lemma {:induction false} PlaceLast(kids: seq<Entry>, e: Entry)
    requires forall i :: 0 <= i < |kids| ==> !StrLess(e.key, kids[i].key)
    ensures Place(kids, e) == kids + [e]
  {
    if kids != [] {
      PlaceLast(kids[1..], e);
      assert kids + [e] == [kids[0]] + (kids[1..] + [e]);
    } else {
      assert [e] + kids == kids + [e];
    }
  }

  /** The next entry in key order goes behind those already there. */
  lemma NextIsLast(done: seq<Entry>, e: Entry, node: Node)
    requires Ordered(done + [e])
    ensures Find(done, e.key) == None && Place(done, Entry(e.key, node)) == done + [Entry(e.key, node)]
  {
    var all := done + [e];
    forall i | 0 <= i < |done| ensures done[i].key != e.key && !StrLess(e.key, done[i].key) {
      assert all[i] == done[i] && all[|done|] == e;
      assert StrLess(all[i].key, all[|done|].key);
      StrLessIrreflexive(e.key);
      if StrLess(e.key, done[i].key) {
        StrLessTransitive(e.key, done[i].key, e.key);
      }
    }
    FindNone(done, e.key);
    PlaceLast(done, Entry(e.key, node));
  }

  /** Writing the calls of the entries still to do completes the bucket. */
  lemma {:induction false} Built(q: nat, done: seq<Entry>, todo: seq<Entry>)
    requires Ordered(done + todo) && forall i :: 0 <= i < |todo| ==> Valid(todo[i].node)
    ensures WriteAll(Bucket(q, done), Calls(todo, [])) == Some(Bucket(q, done + todo))
    decreases todo
  {
    if todo == [] {
      assert done + todo == done;
    } else {
      var e, rest := todo[0], todo[1..];
      assert done + todo == (done + [e]) + rest;
      OrderedPrefix(done + [e], rest);
      NextIsLast(done, e, e.node);
      EntryBuilt(q, done, e);
      WriteAllConcat(Bucket(q, done), EntryCalls(e, []), Calls(rest, []));
      Built(q, done + [e], rest);
    }
  }

  /** The calls the walk makes for one entry. */
  function EntryCalls(e: Entry, path: seq<string>): seq<Call> {
    match e.node
    case Val(bytes) => [Call(path, e.key, Some(bytes), 0)]
    case Bucket(q, sub) => [Call(path, e.key, None, q)] + Calls(sub, path + [e.key])
  }

  lemma OrderedPrefix(a: seq<Entry>, b: seq<Entry>)
    requires Ordered(a + b)
    ensures Ordered(a)
  {
    forall i | 0 <= i < |a| ensures a[i].key != "" {
      assert (a + b)[i] == a[i];
    }
    forall i, j | 0 <= i < j < |a| ensures StrLess(a[i].key, a[j].key) {
      assert (a + b)[i] == a[i] && (a + b)[j] == a[j];
    }
  }

  lemma {:induction false} EntryBuilt(q: nat, done: seq<Entry>, e: Entry)
    requires Ordered(done + [e]) && Valid(e.node)
    ensures WriteAll(Bucket(q, done), EntryCalls(e, [])) == Some(Bucket(q, done + [e]))
    decreases e
  {
    var n := Bucket(q, done);
    assert (done + [e])[|done|] == e;
    match e.node
    case Val(bytes) =>
      NextIsLast(done, e, e.node);
      assert EntryCalls(e, [])[1..] == [];
    case Bucket(p, sub) =>
      NextIsLast(done, e, Bucket(p, []));
      var made := Bucket(q, done + [Entry(e.key, Bucket(p, []))]);
      var first := Call([], e.key, None, p);
      assert Write(n, first) == Some(made);
      assert [] + [e.key] == [e.key] + [];
      CallsUnder(sub, e.key, []);
      assert EntryCalls(e, [])[1..] == Under(e.key, Calls(sub, []));
      assert [] + sub == sub;
      Built(p, [], sub);
      WriteBelow(q, done, e.key, Bucket(p, []), Calls(sub, []));
  }

  /** Compaction reproduces the database, buckets, sequence numbers and pairs, for every batch
      limit; no write misses its parent bucket. */
  lemma CompactExact(src: Node, max: int)
    requires ValidRoot(src)
    ensures Compact(src, max) == Some(Bucket(0, src.kids))
  {
    assert [] + src.kids == src.kids;
    Built(0, [], src.kids);
    BatchesAgree(Dst(EMPTY_DB, EMPTY_DB, 0), Calls(src.kids, []), max);
  }

  /** At any moment the committed database is a copy cut off between two calls of the walk. */
  lemma {:induction false} CommittedIsPrefix(d: Dst, cs: seq<Call>, max: int)
    requires ReceiveAll(d, cs, max).Some?
    ensures var r := ReceiveAll(d, cs, max).value;
            r.committed == d.committed || exists n :: 0 <= n <= |cs| && WriteAll(d.tx, cs[..n]) == Some(r.committed)
    decreases |cs|
  {
    if cs != [] {
      var e := Receive(d, cs[0], max).value;
      var r := ReceiveAll(d, cs, max).value;
      CommittedIsPrefix(e, cs[1..], max);
      if r.committed != e.committed {
        var n :| 0 <= n <= |cs[1..]| && WriteAll(e.tx, cs[1..][..n]) == Some(r.committed);
        assert cs[..n + 1][1..] == cs[1..][..n] && cs[..n + 1][0] == cs[0];
        assert WriteAll(d.tx, cs[..n + 1]) == Some(r.committed);
      } else if e.committed != d.committed {
        assert cs[..0] == [] && WriteAll(d.tx, cs[..0]) == Some(r.committed);
      }
    }
  }

  // ---------- how large the batches are ----------

  function SumOf(cs: seq<Call>): nat {
    if cs == [] then 0 else SumOf(cs[..|cs| - 1]) + SizeOfCall(cs[|cs| - 1])
  }

  /** After the calls `done`: what is committed is the state before call `j`, the open transaction has
      the calls from `j` on and knows their size; with a limit it has one call or keeps to the limit,
      and the batch before it, from call `i` on, had no room for call `j`. The comparison keeps the
      verifier from taking the parts apart wherever only the whole is passed on. */
  ghost predicate Batched(root: Node, d: Dst, done: seq<Call>, i: nat, j: nat, max: int) {
    BatchedParts(root, d, done, i, j, max) == true
  }

  ghost predicate BatchedParts(root: Node, d: Dst, done: seq<Call>, i: nat, j: nat, max: int) {
    && i <= j <= |done|
    && WriteAll(root, done[..j]) == Some(d.committed) && WriteAll(root, done) == Some(d.tx)
    && d.size == SumOf(done[j..])
    && (max == 0 ==> j == 0)
    && (max != 0 && |done| - j >= 2 ==> d.size <= max)
    && (j > 0 ==> j < |done| && SumOf(done[i..j]) + SizeOfCall(done[j]) > max)
  }

  lemma WriteAllSnoc(n: Node, cs: seq<Call>, c: Call)
    requires WriteAll(n, cs).Some?
    ensures WriteAll(n, cs + [c]) == Write(WriteAll(n, cs).value, c)
  {
    WriteAllConcat(n, cs, [c]);
    assert [c][1..] == [];
  }

  lemma SumSnoc(cs: seq<Call>, c: Call)
    ensures SumOf(cs + [c]) == SumOf(cs) + SizeOfCall(c)
  {
    SplitLast(cs, [c]);
    ConcatNothing(cs);
  }

  lemma SlicesOfSnoc(done: seq<Call>, c: Call, i: nat, j: nat)
    requires i <= j <= |done|
    ensures (done + [c])[..j] == done[..j] && (done + [c])[i..j] == done[i..j]
    ensures (done + [c])[j..] == done[j..] + [c] && done[..|done|] == done && done[|done|..] == []
  {
  }

  /** A call that finds no room opens a batch. */
  lemma BatchOpens(root: Node, d: Dst, done: seq<Call>, i: nat, j: nat, c: Call, tx: Node, max: int)
    requires Batched(root, d, done, i, j, max) && d.size + SizeOfCall(c) > max && max != 0
    requires WriteAll(root, done + [c]) == Some(tx)
    ensures Batched(root, Dst(d.tx, tx, SizeOfCall(c)), done + [c], j, |done|, max)
  {
    SlicesOfSnoc(done, c, j, |done|);
    SumSnoc([], c);
    ConcatNothing([c]);
  }

  /** Another joins the one that is open. */
  lemma BatchGrows(root: Node, d: Dst, done: seq<Call>, i: nat, j: nat, c: Call, tx: Node, max: int)
    requires Batched(root, d, done, i, j, max) && !(d.size + SizeOfCall(c) > max && max != 0)
    requires WriteAll(root, done + [c]) == Some(tx)
    ensures Batched(root, Dst(d.committed, tx, d.size + SizeOfCall(c)), done + [c], i, j, max)
  {
    SlicesOfSnoc(done, c, i, j);
    SumSnoc(done[j..], c);
  }

  lemma ReceiveIs(d: Dst, c: Call, max: int)
    requires Receive(d, c, max).Some?
    ensures Write(d.tx, c).Some?
    ensures Receive(d, c, max).value ==
      if d.size + SizeOfCall(c) > max && max != 0 then Dst(d.tx, Write(d.tx, c).value, SizeOfCall(c))
      else Dst(d.committed, Write(d.tx, c).value, d.size + SizeOfCall(c))
  {
  }

  lemma BatchWrites(root: Node, d: Dst, done: seq<Call>, i: nat, j: nat, c: Call, max: int)
    requires Batched(root, d, done, i, j, max) && Write(d.tx, c).Some?
    ensures WriteAll(root, done + [c]) == Some(Write(d.tx, c).value)
  {
    WriteAllSnoc(root, done, c);
  }

  lemma BatchStep(root: Node, d: Dst, done: seq<Call>, i: nat, j: nat, c: Call, max: int)
    returns (i': nat, j': nat)
    requires Batched(root, d, done, i, j, max) && Receive(d, c, max).Some?
    ensures Batched(root, Receive(d, c, max).value, done + [c], i', j', max)
  {
    ReceiveIs(d, c, max);
    BatchWrites(root, d, done, i, j, c, max);
    if d.size + SizeOfCall(c) > max && max != 0 {
      i', j' := j, |done|;
      BatchOpens(root, d, done, i, j, c, Write(d.tx, c).value, max);
    } else {
      i', j' := i, j;
      BatchGrows(root, d, done, i, j, c, Write(d.tx, c).value, max);
    }
  }

  lemma {:induction false} BatchWalk(root: Node, d: Dst, done: seq<Call>, i: nat, j: nat, cs: seq<Call>, max: int)
    returns (i': nat, j': nat)
    requires Batched(root, d, done, i, j, max) && ReceiveAll(d, cs, max).Some?
    ensures Batched(root, ReceiveAll(d, cs, max).value, done + cs, i', j', max)
    decreases |cs|
  {
    if cs == [] {
      i', j' := i, j;
      ConcatNothing(done);
    } else {
      var e := Receive(d, cs[0], max).value;
      var i1, j1 := BatchStep(root, d, done, i, j, cs[0], max);
      i', j' := BatchWalk(root, e, done + [cs[0]], i1, j1, cs[1..], max);
      HeadTail(cs);
      ConcatAssoc(done, [cs[0]], cs[1..]);
    }
  }

  /** At every point of the walk the transactions are as large as the limit allows and no larger, but
      for calls that exceed it alone; without a limit there is one. */
  lemma BatchesBounded(cs: seq<Call>, max: int) returns (i: nat, j: nat)
    requires ReceiveAll(Dst(EMPTY_DB, EMPTY_DB, 0), cs, max).Some?
    ensures Batched(EMPTY_DB, ReceiveAll(Dst(EMPTY_DB, EMPTY_DB, 0), cs, max).value, cs, i, j, max)
  {
    i, j := BatchWalk(EMPTY_DB, Dst(EMPTY_DB, EMPTY_DB, 0), [], 0, 0, cs, max);
    ConcatNothing(cs);
  }
}
