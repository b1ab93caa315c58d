/** The events of a connection: those packets carry, and those raised at one end. */
module SwpEvents {
  datatype TcpEvent =
    | EventNil | EventStartListen | EventStartConnect | EventSyn | EventSynAck | EventEstabAck
    | EventStartClose | EventApplicationClosed | EventFin | EventFinAck
    | EventDataAck | EventData | EventKeepAlive
}

/** What travels between the two ends of a session, and what the sender keeps about it. */
module SwpTypes {
  import opened Common
  import opened SwpEvents

  /** The part of a packet that names and carries application data. */
  datatype Frame = Frame(seqNum: int, cumulBytes: int, data: seq<byte>)

  /** A packet on the wire; `frame.seqNum` is negative on control packets. */
  datatype Packet = Packet(event: TcpEvent, frame: Frame, seqRetry: int, ackNum: int,
                           msgCap: int, bytesCap: int)

  /** One element of the sender's window. */
  datatype TxqSlot = TxqSlot(retryDeadline: int, pack: Packet)

  /** Sequence number of the frame a slot holds. */
  function SeqOf(slot: TxqSlot): int {
    slot.pack.frame.seqNum
  }
}

/**
 The two retry trees. The red-black tree is modelled as the sequence of its items in tree
 order; an item is a position in the sender's `Txq`, since the real tree holds pointers to
 those slots and compares whatever the slots hold at the time of the operation.
 */
module Retree {
  import opened Common
  import opened SwpTypes

  datatype Order = ByDeadline | BySeqNum

  function Compare(o: Order, a: TxqSlot, b: TxqSlot): int {
    if o == ByDeadline && a.retryDeadline != b.retryDeadline
    then a.retryDeadline - b.retryDeadline
    else SeqOf(a) - SeqOf(b)
  }

  ghost predicate InRange(txq: seq<TxqSlot>, tree: seq<nat>) {
    forall i :: 0 <= i < |tree| ==> tree[i] < |txq|
  }

  /** `x` precedes every item of `tree`. */
  ghost predicate Before(o: Order, txq: seq<TxqSlot>, x: nat, tree: seq<nat>)
    requires x < |txq| && InRange(txq, tree)
  {
    forall i :: 0 <= i < |tree| ==> Compare(o, txq[x], txq[tree[i]]) < 0
  }

  /** Tree order: strictly increasing keys. */
  ghost predicate Sorted(o: Order, txq: seq<TxqSlot>, tree: seq<nat>) {
    InRange(txq, tree) &&
    (tree == [] || (Before(o, txq, tree[0], tree[1..]) && Sorted(o, txq, tree[1..])))
  }

  /** Insertion; an item whose key is already present is refused. */
  function Insert(o: Order, txq: seq<TxqSlot>, tree: seq<nat>, slot: nat): (r: seq<nat>)
    requires slot < |txq| && InRange(txq, tree)
    ensures forall i :: 0 <= i < |r| ==> r[i] == slot || r[i] in tree
  {
    if tree == [] then [slot]
    else
      var c := Compare(o, txq[slot], txq[tree[0]]);
      if c < 0 then [slot] + tree
      else if c == 0 then tree
      else [tree[0]] + Insert(o, txq, tree[1..], slot)
  }

  /** Deletion by key: the item that compares equal to `slot`, if there is one. */
  function Delete(o: Order, txq: seq<TxqSlot>, tree: seq<nat>, slot: nat): (r: seq<nat>)
    requires slot < |txq| && InRange(txq, tree)
    ensures forall i :: 0 <= i < |r| ==> r[i] in tree
  {
    if tree == [] then []
    else if Compare(o, txq[slot], txq[tree[0]]) == 0 then tree[1..]
    else [tree[0]] + Delete(o, txq, tree[1..], slot)
  }

  lemma {:induction false} InsertItems(o: Order, txq: seq<TxqSlot>, tree: seq<nat>, slot: nat)
    requires slot < |txq| && InRange(txq, tree)
    requires forall i :: 0 <= i < |tree| ==> SeqOf(txq[tree[i]]) != SeqOf(txq[slot])
    ensures multiset(Insert(o, txq, tree, slot)) == multiset(tree) + multiset{slot}
  {
    if tree != [] {
      assert tree == [tree[0]] + tree[1..];
      if Compare(o, txq[slot], txq[tree[0]]) > 0 {
        InsertItems(o, txq, tree[1..], slot);
      }
    }
  }

  /** A sorted tree with a first item put in front of it. */
  lemma SortedCons(o: Order, txq: seq<TxqSlot>, x: nat, rest: seq<nat>)
    requires x < |txq| && Sorted(o, txq, rest) && Before(o, txq, x, rest)
    ensures Sorted(o, txq, [x] + rest)
  {
    assert ([x] + rest)[1..] == rest;
  }

  lemma BeforeAll(o: Order, txq: seq<TxqSlot>, x: nat, y: nat, tree: seq<nat>)
    requires x < |txq| && y < |txq| && InRange(txq, tree) && Before(o, txq, y, tree) && Compare(o, txq[x], txq[y]) < 0
    ensures Before(o, txq, x, tree)
  {
  }

  lemma BeforeInsert(o: Order, txq: seq<TxqSlot>, x: nat, tree: seq<nat>, slot: nat)
    requires x < |txq| && slot < |txq| && InRange(txq, tree) && Before(o, txq, x, tree) &&
        Compare(o, txq[x], txq[slot]) < 0
    ensures InRange(txq, Insert(o, txq, tree, slot)) && Before(o, txq, x, Insert(o, txq, tree, slot))
  {
  }

  lemma {:induction false} InsertSorted(o: Order, txq: seq<TxqSlot>, tree: seq<nat>, slot: nat)
    requires slot < |txq| && Sorted(o, txq, tree)
    ensures Sorted(o, txq, Insert(o, txq, tree, slot))
  {
    if tree == [] {
      SortedCons(o, txq, slot, []);
    } else {
      var c := Compare(o, txq[slot], txq[tree[0]]);
      if c < 0 {
        BeforeAll(o, txq, slot, tree[0], tree[1..]);
        assert Before(o, txq, slot, tree);
        SortedCons(o, txq, slot, tree);
      } else if c > 0 {
        InsertSorted(o, txq, tree[1..], slot);
        BeforeInsert(o, txq, tree[0], tree[1..], slot);
        SortedCons(o, txq, tree[0], Insert(o, txq, tree[1..], slot));
      }
    }
  }

  lemma ConsItems(x: nat, rest: seq<nat>)
    ensures multiset([x] + rest) == multiset{x} + multiset(rest)
  {
  }

  lemma {:induction false} DeleteItems(o: Order, txq: seq<TxqSlot>, tree: seq<nat>, slot: nat)
    requires Sorted(o, txq, tree) && slot in tree
    ensures multiset(Delete(o, txq, tree, slot)) == multiset(tree) - multiset{slot}
  {
    HeadTail(tree);
    ConsItems(tree[0], tree[1..]);
    if tree[0] != slot {
      var rest := Delete(o, txq, tree[1..], slot);
      DeleteItems(o, txq, tree[1..], slot);
      ConsItems(tree[0], rest);
      TakeBehind(multiset(tree[1..]), tree[0], slot);
      assert Compare(o, txq[slot], txq[tree[0]]) != 0;
    }
  }

  lemma TakeBehind(m: multiset<nat>, x: nat, y: nat)
    requires x != y
    ensures multiset{x} + m - multiset{y} == multiset{x} + (m - multiset{y})
  {
  }

  lemma {:induction false} DeleteSorted(o: Order, txq: seq<TxqSlot>, tree: seq<nat>, slot: nat)
    requires slot < |txq| && Sorted(o, txq, tree)
    ensures Sorted(o, txq, Delete(o, txq, tree, slot))
  {
    if tree != [] && Compare(o, txq[slot], txq[tree[0]]) != 0 {
      var rest := Delete(o, txq, tree[1..], slot);
      DeleteSorted(o, txq, tree[1..], slot);
      assert ([tree[0]] + rest)[1..] == rest;
    }
  }

  lemma SameFirst(o: Order, txq: seq<TxqSlot>, a: seq<nat>, b: seq<nat>)
    requires Sorted(o, txq, a) && Sorted(o, txq, b)
    requires a != [] && b != [] && a[0] in b && b[0] in a
    ensures a[0] == b[0]
  {
  }

  lemma TailItems(a: seq<nat>)
    requires a != []
    ensures multiset(a[1..]) == multiset(a) - multiset{a[0]}
    ensures a == [a[0]] + a[1..]
  {
    assert a == [a[0]] + a[1..];
  }

  /** A tree is determined by its order and its items. */
  lemma {:induction false} SortedUnique(o: Order, txq: seq<TxqSlot>, a: seq<nat>, b: seq<nat>)
    requires Sorted(o, txq, a) && Sorted(o, txq, b) && multiset(a) == multiset(b)
    ensures a == b
  {
    if a == [] || b == [] {
      assert |multiset(a)| == |a| && |multiset(b)| == |b|;
    } else {
      assert a[0] in multiset(b) && b[0] in multiset(a);
      SameFirst(o, txq, a, b);
      TailItems(a);
      TailItems(b);
      SortedUnique(o, txq, a[1..], b[1..]);
    }
  }

  /** An item occurs at most once. */
  lemma {:induction false} SortedOnce(o: Order, txq: seq<TxqSlot>, tree: seq<nat>, x: nat)
    requires Sorted(o, txq, tree)
    ensures multiset(tree)[x] <= 1
  {
    if tree != [] {
      assert tree == [tree[0]] + tree[1..];
      SortedOnce(o, txq, tree[1..], x);
    }
  }

  /** Changing slots that are not in the tree leaves the order as it is. */
  lemma {:induction false} SortedFrame(o: Order, txq: seq<TxqSlot>, txq': seq<TxqSlot>, tree: seq<nat>)
    requires Sorted(o, txq, tree) && |txq'| == |txq|
    requires forall i :: 0 <= i < |tree| ==> txq'[tree[i]] == txq[tree[i]]
    ensures Sorted(o, txq', tree)
  {
    if tree != [] {
      SortedFrame(o, txq, txq', tree[1..]);
    }
  }

  /** Pairwise order, position by position, is tree order. */
  lemma {:induction false} SortedFromPairs(o: Order, txq: seq<TxqSlot>, tree: seq<nat>)
    requires InRange(txq, tree)
    requires forall i, j :: 0 <= i < j < |tree| ==> Compare(o, txq[tree[i]], txq[tree[j]]) < 0
    ensures Sorted(o, txq, tree)
  {
    if tree != [] {
      SortedFromPairs(o, txq, tree[1..]);
    }
  }

  /** Dropping items keeps the order of the rest. */
  lemma {:induction false} FilterSorted(o: Order, txq: seq<TxqSlot>, tree: seq<nat>, keep: nat -> bool)
    requires Sorted(o, txq, tree)
    ensures Sorted(o, txq, Filter(keep, tree))
  {
    FilterMembers(keep, tree);
    if tree != [] {
      var rest := Filter(keep, tree[1..]);
      FilterSorted(o, txq, tree[1..], keep);
      FilterMembers(keep, tree[1..]);
      assert ([tree[0]] + rest)[1..] == rest;
    }
  }
}
