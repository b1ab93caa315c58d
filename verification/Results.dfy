/**
 Match results: plain subscribers in one list, queue subscribers in one list per queue name.
 Trie nodes hold their subscriptions in the same shape.
 */
module Results {
  import opened Common

  /** `id` stands for the identity of the subscription object. */
  datatype Sub = Sub(id: nat, subject: string, queue: Option<string>)

  datatype Result = Result(psubs: seq<Sub>, qsubs: seq<seq<Sub>>)

  const EMPTY := Result([], [])

  // ---------- what a result contains ----------

  function Count(g: seq<Sub>, x: Sub): nat {
    multiset(g)[x]
  }

  function QTotal(qs: seq<seq<Sub>>, x: Sub): nat {
    if qs == [] then 0 else Count(qs[0], x) + QTotal(qs[1..], x)
  }

  /** How often `x` occurs. */
  function Total(r: Result, x: Sub): nat {
    Count(r.psubs, x) + QTotal(r.qsubs, x)
  }

  ghost predicate GroupOk(g: seq<Sub>) {
    g != [] && g[0].queue.Some? && forall i :: 0 <= i < |g| ==> g[i].queue == g[0].queue
  }

  /** No empty group, one queue name per group, one group per queue name. */
  ghost predicate GroupsOk(qs: seq<seq<Sub>>) {
    && (forall i :: 0 <= i < |qs| ==> GroupOk(qs[i]))
    && (forall i, j :: 0 <= i < j < |qs| ==> qs[i][0].queue != qs[j][0].queue)
  }

  ghost predicate Grouped(r: Result) {
    && (forall i :: 0 <= i < |r.psubs| ==> r.psubs[i].queue == None)
    && GroupsOk(r.qsubs)
  }

  lemma CountAppend(g: seq<Sub>, h: seq<Sub>, x: Sub)
    ensures Count(g + h, x) == Count(g, x) + Count(h, x)
  {
  }

  lemma CountOther(g: seq<Sub>, x: Sub, q: Option<string>)
    requires forall i :: 0 <= i < |g| ==> g[i].queue == q
    requires x.queue != q
    ensures Count(g, x) == 0
  {
    assert x !in g;
  }

  lemma {:induction false} QTotalAppend(qs: seq<seq<Sub>>, g: seq<Sub>, x: Sub)
    ensures QTotal(qs + [g], x) == QTotal(qs, x) + Count(g, x)
  {
    if qs == [] {
      assert qs + [g] == [g] && [g][1..] == [];
    } else {
      assert (qs + [g])[1..] == qs[1..] + [g];
      QTotalAppend(qs[1..], g, x);
    }
  }

  lemma {:induction false} QTotalUpdate(qs: seq<seq<Sub>>, i: nat, g: seq<Sub>, x: Sub)
    requires i < |qs|
    ensures QTotal(qs[i := g], x) + Count(qs[i], x) == QTotal(qs, x) + Count(g, x)
  {
    var r := qs[i := g];
    if i == 0 {
      assert r[1..] == qs[1..];
    } else {
      assert r[1..] == qs[1..][i - 1 := g];
      QTotalUpdate(qs[1..], i - 1, g, x);
    }
  }

  /** Every subscriber of a queue is in that queue's group. */
  lemma {:induction false} InItsGroup(qs: seq<seq<Sub>>, i: nat, x: Sub)
    requires GroupsOk(qs) && i < |qs| && x.queue == qs[i][0].queue
    ensures QTotal(qs, x) == Count(qs[i], x)
  {
    var rest := qs[1..];
    assert GroupsOk(rest);
    if i == 0 {
      NotInGroups(rest, x);
    } else {
      assert GroupOk(qs[0]) && qs[0][0].queue != qs[i][0].queue;
      CountOther(qs[0], x, qs[0][0].queue);
      InItsGroup(rest, i - 1, x);
    }
  }

  lemma {:induction false} NotInGroups(qs: seq<seq<Sub>>, x: Sub)
    requires GroupsOk(qs) && forall i :: 0 <= i < |qs| ==> qs[i][0].queue != x.queue
    ensures QTotal(qs, x) == 0
  {
    if qs != [] {
      assert GroupOk(qs[0]);
      CountOther(qs[0], x, qs[0][0].queue);
      assert GroupsOk(qs[1..]);
      NotInGroups(qs[1..], x);
    }
  }

  /** A grouped result is determined by its contents: a subscriber's copies are all in the one
      list its queue name selects. */
  lemma WhereSubsAre(r: Result, x: Sub)
    requires Grouped(r)
    ensures x.queue == None ==> Count(r.psubs, x) == Total(r, x)
    ensures forall i :: 0 <= i < |r.qsubs| ==>
      Count(r.qsubs[i], x) == if r.qsubs[i][0].queue == x.queue then Total(r, x) else 0
    ensures x.queue.Some? && Total(r, x) > 0 ==>
      exists i :: 0 <= i < |r.qsubs| && r.qsubs[i][0].queue == x.queue
  {
    if x.queue == None {
      forall i | 0 <= i < |r.qsubs| ensures r.qsubs[i][0].queue != x.queue {
        assert GroupOk(r.qsubs[i]);
      }
      NotInGroups(r.qsubs, x);
    } else {
      CountOther(r.psubs, x, None);
    }
    forall i | 0 <= i < |r.qsubs|
      ensures Count(r.qsubs[i], x) == if r.qsubs[i][0].queue == x.queue then Total(r, x) else 0
    {
      assert GroupOk(r.qsubs[i]);
      if r.qsubs[i][0].queue == x.queue {
        InItsGroup(r.qsubs, i, x);
      } else {
        CountOther(r.qsubs[i], x, r.qsubs[i][0].queue);
      }
    }
    if x.queue.Some? && forall i :: 0 <= i < |r.qsubs| ==> r.qsubs[i][0].queue != x.queue {
      NotInGroups(r.qsubs, x);
    }
  }

  // ---------- the operations ----------

  /** Index of the group of the sub's queue, or -1. */
  function FindFrom(sub: Sub, qs: seq<seq<Sub>>, k: nat): (i: int)
    requires k <= |qs|
    ensures i == -1 || (k <= i < |qs| && qs[i] != [] && qs[i][0].queue == sub.queue)
    ensures i == -1 ==> forall j :: k <= j < |qs| && qs[j] != [] ==> qs[j][0].queue != sub.queue
    decreases |qs| - k
  {
    if k == |qs| then -1
    else if |qs[k]| > 0 && qs[k][0].queue == sub.queue then k
    else FindFrom(sub, qs, k + 1)
  }

  method FindQSliceForSub(sub: Sub, qs: seq<seq<Sub>>) returns (r: int)
    ensures r == if sub.queue == None then -1 else FindFrom(sub, qs, 0)
  {
    if sub.queue == None {
      return -1;
    }
    var i := 0;
    while i < |qs|
      invariant i <= |qs| && FindFrom(sub, qs, i) == FindFrom(sub, qs, 0)
    {
      if |qs[i]| > 0 && sub.queue == qs[i][0].queue {
        return i;
      }
      i := i + 1;
    }
    return -1;
  }

  /** Append `g`, a non-empty list of subscribers of one queue. */
  function AddGroup(qs: seq<seq<Sub>>, g: seq<Sub>): seq<seq<Sub>>
    requires g != []
  {
    var i := FindFrom(g[0], qs, 0);
    if i >= 0 then qs[i := qs[i] + g] else qs + [g]
  }

  function AddSub(r: Result, sub: Sub): Result {
    if sub.queue == None then r.(psubs := r.psubs + [sub]) else r.(qsubs := AddGroup(r.qsubs, [sub]))
  }

  function AddGroups(qs: seq<seq<Sub>>, gs: seq<seq<Sub>>): seq<seq<Sub>>
    decreases |gs|
  {
    if gs == [] then qs
    else if gs[0] == [] then AddGroups(qs, gs[1..])
    else AddGroups(AddGroup(qs, gs[0]), gs[1..])
  }

  /** A node's subscriptions added to the results so far. */
  function Merge(r: Result, n: Result): Result {
    Result(r.psubs + n.psubs, AddGroups(r.qsubs, n.qsubs))
  }

  lemma AddGroupKeeps(qs: seq<seq<Sub>>, g: seq<Sub>)
    requires GroupsOk(qs) && GroupOk(g)
    ensures GroupsOk(AddGroup(qs, g))
  {
    var i := FindFrom(g[0], qs, 0);
    if i >= 0 {
      assert GroupOk(qs[i]);
      assert GroupOk(qs[i] + g);
    } else {
      forall j | 0 <= j < |qs| ensures qs[j][0].queue != g[0].queue {
        assert GroupOk(qs[j]);
      }
    }
  }

  lemma AddGroupTotal(qs: seq<seq<Sub>>, g: seq<Sub>, x: Sub)
    requires g != []
    ensures QTotal(AddGroup(qs, g), x) == QTotal(qs, x) + Count(g, x)
  {
    var i := FindFrom(g[0], qs, 0);
    if i >= 0 {
      QTotalUpdate(qs, i, qs[i] + g, x);
      CountAppend(qs[i], g, x);
    } else {
      QTotalAppend(qs, g, x);
    }
  }

  lemma AddSubKeeps(r: Result, sub: Sub)
    requires Grouped(r)
    ensures Grouped(AddSub(r, sub))
  {
    if sub.queue.Some? {
      AddGroupKeeps(r.qsubs, [sub]);
    }
  }

  lemma AddSubTotal(r: Result, sub: Sub, x: Sub)
    ensures Total(AddSub(r, sub), x) == Total(r, x) + (if x == sub then 1 else 0)
  {
    assert Count([sub], x) == if x == sub then 1 else 0;
    if sub.queue == None {
      CountAppend(r.psubs, [sub], x);
    } else {
      AddGroupTotal(r.qsubs, [sub], x);
    }
  }

  lemma {:induction false} AddGroupsKeep(qs: seq<seq<Sub>>, gs: seq<seq<Sub>>)
    requires GroupsOk(qs) && GroupsOk(gs)
    ensures GroupsOk(AddGroups(qs, gs))
    decreases |gs|
  {
    if gs != [] {
      assert GroupOk(gs[0]) && GroupsOk(gs[1..]);
      AddGroupKeeps(qs, gs[0]);
      AddGroupsKeep(AddGroup(qs, gs[0]), gs[1..]);
    }
  }

  lemma {:induction false} AddGroupsTotal(qs: seq<seq<Sub>>, gs: seq<seq<Sub>>, x: Sub)
    ensures QTotal(AddGroups(qs, gs), x) == QTotal(qs, x) + QTotal(gs, x)
    decreases |gs|
  {
    if gs != [] {
      if gs[0] == [] {
        AddGroupsTotal(qs, gs[1..], x);
      } else {
        AddGroupTotal(qs, gs[0], x);
        AddGroupsTotal(AddGroup(qs, gs[0]), gs[1..], x);
      }
    }
  }

  lemma MergeKeeps(r: Result, n: Result)
    requires Grouped(r) && Grouped(n)
    ensures Grouped(Merge(r, n))
  {
    AddGroupsKeep(r.qsubs, n.qsubs);
  }

  lemma MergeTotal(r: Result, n: Result, x: Sub)
    ensures Total(Merge(r, n), x) == Total(r, x) + Total(n, x)
  {
    CountAppend(r.psubs, n.psubs, x);
    AddGroupsTotal(r.qsubs, n.qsubs, x);
  }

  // ---------- removal ----------

  function IndexFrom(sub: Sub, sl: seq<Sub>, k: nat): (i: int)
    requires k <= |sl|
    ensures i == -1 || (k <= i < |sl| && sl[i] == sub)
    ensures i == -1 ==> sub !in sl[k..]
    decreases |sl| - k
  {
    if k == |sl| then -1 else if sl[k] == sub then k
    else
      assert sl[k..] == [sl[k]] + sl[k + 1..];
      IndexFrom(sub, sl, k + 1)
  }

  /** The last element takes the place of the removed one. */
  function SwapOut<T>(s: seq<T>, i: nat): seq<T>
    requires i < |s|
  {
    s[i := s[|s| - 1]][..|s| - 1]
  }

  method RemoveSubFromList(sub: Sub, sl: seq<Sub>) returns (r: seq<Sub>, found: bool)
    ensures found <==> sub in sl
    ensures r == if found then SwapOut(sl, IndexFrom(sub, sl, 0)) else sl
  {
    var i := 0;
    while i < |sl|
      invariant i <= |sl| && IndexFrom(sub, sl, i) == IndexFrom(sub, sl, 0)
      invariant sub !in sl[..i]
    {
      if sl[i] == sub {
        return SwapOut(sl, i), true;
      }
      i := i + 1;
    }
    assert sl == sl[..i];
    return sl, false;
  }

  lemma SwapOutCount(s: seq<Sub>, i: nat, x: Sub)
    requires i < |s|
    ensures Count(SwapOut(s, i), x) == Count(s, x) - (if x == s[i] then 1 else 0)
  {
    var last := |s| - 1;
    var u := s[i := s[last]];
    assert u == u[..last] + [s[last]];
    CountAppend(u[..last], [s[last]], x);
    assert s[i] in multiset(s);
    assert multiset(u) == multiset(s) - multiset{s[i]} + multiset{s[last]};
    assert Count(u, x) == Count(s, x) - (if x == s[i] then 1 else 0) + (if x == s[last] then 1 else 0);
    assert Count([s[last]], x) == if x == s[last] then 1 else 0;
  }

  lemma SwapOutTotal(qs: seq<seq<Sub>>, i: nat, x: Sub)
    requires i < |qs|
    ensures QTotal(SwapOut(qs, i), x) == QTotal(qs, x) - Count(qs[i], x)
  {
    var last := |qs| - 1;
    var u := qs[i := qs[last]];
    QTotalUpdate(qs, i, qs[last], x);
    assert u == u[..last] + [qs[last]];
    QTotalAppend(u[..last], qs[last], x);
  }

  /** Removing one copy of `sub`; None when there is none. */
  function RemoveSub(r: Result, sub: Sub): Option<Result> {
    if sub.queue == None then
      var i := IndexFrom(sub, r.psubs, 0);
      if i < 0 then None else Some(r.(psubs := SwapOut(r.psubs, i)))
    else
      var g := FindFrom(sub, r.qsubs, 0);
      if g < 0 then None
      else
        var i := IndexFrom(sub, r.qsubs[g], 0);
        if i < 0 then None
        else
          var left := SwapOut(r.qsubs[g], i);
          Some(r.(qsubs := if left == [] then SwapOut(r.qsubs, g) else r.qsubs[g := left]))
  }

  lemma RemoveGroupTotal(qs: seq<seq<Sub>>, g: nat, i: nat, x: Sub)
    requires g < |qs| && i < |qs[g]|
    ensures var left := SwapOut(qs[g], i);
      QTotal(if left == [] then SwapOut(qs, g) else qs[g := left], x)
      == QTotal(qs, x) - (if x == qs[g][i] then 1 else 0)
  {
    var left := SwapOut(qs[g], i);
    SwapOutCount(qs[g], i, x);
    if left == [] {
      SwapOutTotal(qs, g, x);
    } else {
      QTotalUpdate(qs, g, left, x);
    }
  }

  lemma RemoveSubTotal(r: Result, sub: Sub, x: Sub)
    ensures RemoveSub(r, sub).Some? ==>
      Total(RemoveSub(r, sub).value, x) == Total(r, x) - (if x == sub then 1 else 0)
  {
    if sub.queue == None {
      var i := IndexFrom(sub, r.psubs, 0);
      if i >= 0 { SwapOutCount(r.psubs, i, x); }
    } else {
      var g := FindFrom(sub, r.qsubs, 0);
      if g >= 0 {
        var i := IndexFrom(sub, r.qsubs[g], 0);
        if i >= 0 { RemoveGroupTotal(r.qsubs, g, i, x); }
      }
    }
  }

  /** Found exactly when it is there. */
  lemma RemoveSubFinds(r: Result, sub: Sub)
    requires Grouped(r)
    ensures RemoveSub(r, sub).Some? <==> Total(r, sub) > 0
  {
    WhereSubsAre(r, sub);
    if sub.queue == None {
      assert r.psubs[0..] == r.psubs;
      assert sub in r.psubs <==> Count(r.psubs, sub) > 0;
    } else {
      var g := FindFrom(sub, r.qsubs, 0);
      if g >= 0 {
        assert r.qsubs[g][0..] == r.qsubs[g];
        assert sub in r.qsubs[g] <==> Count(r.qsubs[g], sub) > 0;
      } else {
        NotInGroups(r.qsubs, sub);
      }
    }
  }

  lemma SwapOutKeeps(g: seq<Sub>, i: nat)
    requires GroupOk(g) && i < |g| && |g| > 1
    ensures GroupOk(SwapOut(g, i)) && SwapOut(g, i)[0].queue == g[0].queue
  {
  }

  lemma SwapOutGroups(qs: seq<seq<Sub>>, g: nat)
    requires GroupsOk(qs) && g < |qs|
    ensures GroupsOk(SwapOut(qs, g))
  {
  }

  lemma RemoveSubKeeps(r: Result, sub: Sub)
    requires Grouped(r) && RemoveSub(r, sub).Some?
    ensures Grouped(RemoveSub(r, sub).value)
  {
    if sub.queue.Some? {
      var g := FindFrom(sub, r.qsubs, 0);
      var i := IndexFrom(sub, r.qsubs[g], 0);
      assert GroupOk(r.qsubs[g]);
      if |r.qsubs[g]| == 1 {
        SwapOutGroups(r.qsubs, g);
      } else {
        SwapOutKeeps(r.qsubs[g], i);
      }
    }
  }

  lemma SomeMember(r: Result) returns (x: Sub)
    requires Grouped(r) && r != EMPTY
    ensures Total(r, x) > 0
  {
    if r.psubs != [] {
      x := r.psubs[0];
      assert Count(r.psubs, x) > 0;
    } else {
      assert GroupOk(r.qsubs[0]);
      x := r.qsubs[0][0];
      assert Count(r.qsubs[0], x) > 0;
    }
  }

  lemma NoMember(x: Sub)
    ensures Total(EMPTY, x) == 0
  {
  }
}
