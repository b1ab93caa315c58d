/**
 The server's subscription handling, changed in place: client maps, subscription counters and
 the loops over matching subscriptions. `View` is the value the lifecycle model reasons about.
 What the outside decides comes in as parameters: how a write ends, which random number picks a
 queue member, which cache entries a map iteration drops.
 */
module LifecycleState {
  import opened Common
  import opened Subjects
  import opened Results
  import opened Lifecycle
  import opened LifecycleSound
  import M = SublistModel
  import Trie

  class ServerState {
    var sys: M.System
    var objs: seq<Subscription>
    var clients: map<nat, Client>
    ghost var Log: seq<Sent>

    ghost function View(): Server
      reads this
    {
      Server(sys, objs, clients, Log)
    }

    constructor ()
      ensures View() == NEW_SERVER && Inv(View())
    {
      sys, objs, clients, Log := M.System(M.NEW_INDEX, map[]), [], map[], [];
    }

    method ProcessSub(cid: nat, subject: string, queue: Option<string>, sid: string) returns (forwarded: bool)
      requires Sound(View())
      modifies this
      ensures View() == Subscribe(old(View()), cid, subject, queue, sid)
      ensures Sound(View()) && (old(Inv(View())) ==> Inv(View()))
      ensures forwarded <==> old(IsOpen(View(), cid) && sid !in clients[cid].subs) && ValidSubject(subject)
    {
      SubscribeSound(View(), cid, subject, queue, sid);
      SubscribeInv(View(), cid, subject, queue, sid);
      forwarded := false;
      if cid !in clients || !clients[cid].open {
        return;
      }
      var c := clients[cid];
      if sid !in c.subs {
        var sub := Sub(|objs|, subject, queue);
        StepInsert(sys, sub);
        forwarded := Trie.Insert(sys.index.root, Split(subject), false, sub).ok;
        SubscribeIs(View(), cid, sub, sid, forwarded);
        Enter(sub, cid, sid, forwarded);
      }
    }

    /** A new subscription joins the table and the index, and the client's map if it was accepted. */
    method Enter(sub: Sub, cid: nat, sid: string, accepted: bool)
      requires cid in clients
      modifies this`objs, this`sys, this`clients
      ensures View() == Entered(old(View()), sub, cid, sid, accepted)
    {
      objs := objs + [Subscription(sub, cid, sid, 0, 0)];
      sys := M.Step(sys, M.OpInsert(sub));
      if accepted {
        var c := clients[cid];
        clients := clients[cid := c.(subs := c.subs[sid := sub.id])];
      }
    }

    /** Put off while the limit is not reached. */
    method UnsubscribeSub(id: nat)
      requires id < |objs|
      modifies this`clients, this`sys
      ensures View() == Unsubscribe(old(View()), id)
    {
      var o := objs[id];
      if o.max > 0 && o.nm < o.max {
        return;
      }
      if o.cid in clients {
        var c := clients[o.cid];
        clients := clients[o.cid := c.(subs := c.subs - {o.sid})];
      }
      sys := M.Step(sys, M.OpRemove(o.sub));
    }

    method ProcessUnsubscribe(cid: nat, sid: string, max: int)
      requires Sound(View())
      modifies this
      ensures View() == ProcessUnsub(old(View()), cid, sid, max)
      ensures Sound(View()) && (old(Inv(View())) ==> Inv(View()))
    {
      ProcessUnsubSound(View(), cid, sid, max);
      ProcessUnsubInv(View(), cid, sid, max);
      if cid in clients && sid in clients[cid].subs {
        assert ClientOk(objs, cid, clients[cid].subs);
        var id := clients[cid].subs[sid];
        objs := objs[id := objs[id].(max := if max > 0 then max else 0)];
        UnsubscribeSub(id);
      }
    }

    /** Every subscription of the map leaves the index, in whatever order the map yields. */
    method RemoveSubs(subs: map<string, nat>) returns (ghost order: seq<string>)
      requires forall k :: k in subs ==> subs[k] < |objs|
      modifies this`sys
      ensures Lists(order, subs.Keys) && sys == RemoveAll(old(sys), Named(objs, subs, order))
    {
      order := [];
      var rest := subs.Keys;
      assert subs.Keys - rest == {};
      while rest != {}
        invariant Removing(old(sys), sys, objs, subs, order, rest)
        decreases |rest|
      {
        var sid :| sid in rest;
        RemovingStep(old(sys), sys, objs, subs, order, rest, sid);
        sys := M.Step(sys, M.OpRemove(objs[subs[sid]].sub));
        order := order + [sid];
        rest := rest - {sid};
      }
      assert subs.Keys - rest == subs.Keys;
    }

    method CloseConnection(cid: nat) returns (ghost order: seq<string>)
      requires BooksOk(objs, clients)
      modifies this`clients, this`sys
      ensures View() == CloseConn(old(View()), cid, order)
    {
      order := [];
      if cid in clients && clients[cid].open {
        var c := clients[cid];
        assert ClientOk(objs, cid, c.subs);
        clients := clients[cid := c.(open := false)];
        order := RemoveSubs(c.subs);
        CloseIs(old(View()), cid, order);
      }
    }

    /** Write the message in hand, unless the connection is gone; a timeout closes it. */
    method WriteMsg(id: nat, fate: Fate) returns (ghost actual: Fate)
      requires id < |objs| && BooksOk(objs, clients)
      modifies this`clients, this`sys, this`Log
      ensures View() == WriteTo(old(View()), id, actual)
      ensures actual.Written? == fate.Written? && actual.Failed? == fate.Failed?
    {
      var o := objs[id];
      actual := fate;
      if o.cid in clients && clients[o.cid].open {
        match fate
        case Written => Log := Log + [Sent(id, o.nm, o.max)];
        case Failed =>
        case TimedOut(_) =>
          ghost var order := CloseConnection(o.cid);
          actual := TimedOut(order);
      }
    }

    /** deliverMsg: count, check the limit, write, unsubscribe at the limit. */
    method DeliverMsg(id: nat, fate: Fate) returns (ghost actual: Fate)
      requires Sound(View()) && id < |objs|
      modifies this
      ensures View() == Deliver(old(View()), id, actual) && Sound(View()) && |objs| == |old(objs)|
    {
      ghost var before := View();
      CountedSound(before, id);
      CountMsg(id);
      actual := HandMsg(id, fate);
      DeliverSound(before, id, actual);
    }

    method CountMsg(id: nat)
      requires id < |objs|
      modifies this`objs
      ensures View() == Counted(old(View()), id)
    {
      objs := objs[id := objs[id].(nm := objs[id].nm + 1)];
    }

    /** The message in hand, once counted. */
    method HandMsg(id: nat, fate: Fate) returns (ghost actual: Fate)
      requires id < |objs| && BooksOk(objs, clients)
      modifies this`clients, this`sys, this`Log
      ensures View() == HandOver(old(View()), id, actual)
    {
      var o := objs[id];
      actual := fate;
      if o.max > 0 && o.nm > o.max {
        UnsubscribeSub(id);
      } else {
        actual := WriteMsg(id, fate);
        if o.max > 0 && o.nm == o.max {
          UnsubscribeSub(id);
        }
      }
    }

    /** Deliver to every plain subscription and to one member of each queue group. */
    method FanOut(r: Result, picks: seq<nat>, fates: seq<Fate>) returns (ghost actual: seq<Fate>)
      requires Sound(View()) && Known(Targets(r, picks), |objs|)
      modifies this
      ensures View() == DeliverAll(old(View()), Targets(r, picks), actual) && Sound(View())
    {
      ghost var ids, start := Targets(r, picks), View();
      actual := [];
      ProgressStart(start, ids);
      for k := 0 to |r.psubs| + |r.qsubs|
        invariant |actual| == k <= |ids| && |objs| == |start.objs|
        invariant Sound(View()) && Progress(start, View(), ids, k, actual)
      {
        var id := if k < |r.psubs| then r.psubs[k].id else Choose(r.qsubs[k - |r.psubs|], picks, k - |r.psubs|);
        ghost var s := View();
        TargetAt(r, picks, k);
        assert id == ids[k];
        ghost var fate := DeliverMsg(id, if k < |fates| then fates[k] else Written);
        ProgressStep(start, s, ids, k, actual, fate);
        actual := actual + [fate];
      }
      assert ids[..|ids|] == ids;
    }

    /** processMsg: find the result, then fan the message out. */
    method ProcessMsg(cid: nat, subject: string, evicted: string, dropped: set<string>, picks: seq<nat>,
                      fates: seq<Fate>)
        returns (ghost actual: seq<Fate>)
      requires Sound(View())
      modifies this
      ensures View() == Publish(old(View()), DoPublish(cid, subject, evicted, dropped, picks, actual))
      ensures Sound(View()) && (old(Inv(View()) && Seen(objs, subject)) ==> Inv(View()))
    {
      ghost var before := View();
      LookupSound(before, DoPublish(cid, subject, evicted, dropped, picks, []));
      var r := Used(sys, cid, subject);
      AllKnown(before, cid, subject, picks);
      sys := M.Step(M.Step(sys, M.OpLoad(cid)), M.OpFill(cid, subject, evicted, dropped));
      actual := FanOut(r, picks, fates);
      PublishInv(before, DoPublish(cid, subject, evicted, dropped, picks, actual));
    }
  }

  function Entered(s: Server, sub: Sub, cid: nat, sid: string, accepted: bool): Server
    requires cid in s.clients
  {
    var c := s.clients[cid];
    Server(M.Step(s.sys, M.OpInsert(sub)), s.objs + [Subscription(sub, cid, sid, 0, 0)],
           if accepted then s.clients[cid := c.(subs := c.subs[sid := sub.id])] else s.clients, s.log)
  }

  lemma SubscribeIs(s: Server, cid: nat, sub: Sub, sid: string, accepted: bool)
    requires cid in s.clients && s.clients[cid].open && sid !in s.clients[cid].subs && sub.id == |s.objs|
    requires accepted == Trie.Insert(s.sys.index.root, Split(sub.subject), false, sub).ok
    ensures Subscribe(s, cid, sub.subject, sub.queue, sid) == Entered(s, sub, cid, sid, accepted)
  {
  }

  lemma SubscribeInv(s: Server, cid: nat, subject: string, queue: Option<string>, sid: string)
    ensures Inv(s) ==> Inv(Subscribe(s, cid, subject, queue, sid))
  {
    if Inv(s) {
      SubscribeKeeps(s, cid, subject, queue, sid);
    }
  }

  lemma ProcessUnsubInv(s: Server, cid: nat, sid: string, max: int)
    ensures Inv(s) ==> Inv(ProcessUnsub(s, cid, sid, max))
  {
    if Inv(s) {
      ProcessUnsubKeeps(s, cid, sid, max);
    }
  }

  lemma PublishInv(s: Server, a: Action)
    requires a.DoPublish?
    ensures Inv(s) && Seen(s.objs, a.subject) ==> Inv(Publish(s, a))
  {
    if Inv(s) && Seen(s.objs, a.subject) {
      PublishKeeps(s, a);
    }
  }

  lemma TargetAt(r: Result, picks: seq<nat>, k: nat)
    requires k < |r.psubs| + |r.qsubs|
    ensures |Targets(r, picks)| == |r.psubs| + |r.qsubs|
    ensures Targets(r, picks)[k]
         == if k < |r.psubs| then r.psubs[k].id else Choose(r.qsubs[k - |r.psubs|], picks, k - |r.psubs|)
  {
  }

  ghost predicate Known(ids: seq<nat>, n: nat) {
    forall k :: 0 <= k < |ids| ==> ids[k] < n
  }

  lemma AllKnown(s: Server, cid: nat, subject: string, picks: seq<nat>)
    requires Sound(s)
    ensures Known(Targets(Used(s.sys, cid, subject), picks), |s.objs|)
  {
    var ids := Targets(Used(s.sys, cid, subject), picks);
    forall k | 0 <= k < |ids| ensures ids[k] < |s.objs| {
      TargetsKnown(s, cid, subject, picks, k);
    }
  }

  /** The first `k` deliveries are made. */
  ghost predicate Progress(start: Server, s: Server, ids: seq<nat>, k: nat, actual: seq<Fate>)
    requires k <= |ids|
  {
    s == DeliverAll(start, ids[..k], actual)
  }

  lemma ProgressStart(start: Server, ids: seq<nat>)
    ensures Progress(start, start, ids, 0, [])
  {
    assert ids[..0] == [];
  }

  lemma ProgressStep(start: Server, s: Server, ids: seq<nat>, k: nat, actual: seq<Fate>, fate: Fate)
    requires k < |ids| && |actual| == k && Progress(start, s, ids, k, actual) && ids[k] < |s.objs|
    ensures Progress(start, Deliver(s, ids[k], fate), ids, k + 1, actual + [fate])
  {
    DeliverAllAppend(start, ids[..k], actual, ids[k], fate);
    TakeSnoc(ids, k);
  }

  lemma {:induction false} DeliverAllAppend(s: Server, ids: seq<nat>, fates: seq<Fate>, id: nat, fate: Fate)
    requires |ids| == |fates| && id < |DeliverAll(s, ids, fates).objs|
    ensures DeliverAll(s, ids + [id], fates + [fate]) == Deliver(DeliverAll(s, ids, fates), id, fate)
    decreases |ids|
  {
    if ids == [] {
      assert [] + [id] == [id] && [id][1..] == [] && ([] + [fate])[0] == fate;
    } else {
      var t := if ids[0] < |s.objs| then Deliver(s, ids[0], fates[0]) else s;
      assert (ids + [id])[1..] == ids[1..] + [id] && (fates + [fate])[1..] == fates[1..] + [fate];
      DeliverAllAppend(t, ids[1..], fates[1..], id, fate);
    }
  }

  lemma CloseIs(s: Server, cid: nat, order: seq<string>)
    requires cid in s.clients && s.clients[cid].open && Lists(order, s.clients[cid].subs.Keys)
    requires forall k :: k in s.clients[cid].subs ==> s.clients[cid].subs[k] < |s.objs|
    ensures var c := s.clients[cid];
            CloseConn(s, cid, order) == Server(RemoveAll(s.sys, Named(s.objs, c.subs, order)), s.objs,
                                               s.clients[cid := c.(open := false)], s.log)
  {
    OrderLists(order, s.clients[cid].subs.Keys);
  }

  /** The subscriptions of `order` have left the index, those of `rest` are still to go. */
  ghost predicate Removing(start: M.System, sys: M.System, objs: seq<Subscription>, subs: map<string, nat>,
                           order: seq<string>, rest: set<string>)
  {
    && rest <= subs.Keys && Lists(order, subs.Keys - rest)
    && (forall k :: k in subs ==> subs[k] < |objs|)
    && sys == RemoveAll(start, Named(objs, subs, order))
  }

  lemma RemovingStep(start: M.System, sys: M.System, objs: seq<Subscription>, subs: map<string, nat>,
                     order: seq<string>, rest: set<string>, sid: string)
    requires Removing(start, sys, objs, subs, order, rest) && sid in rest
    ensures Removing(start, M.Step(sys, M.OpRemove(objs[subs[sid]].sub)), objs, subs, order + [sid], rest - {sid})
  {
    RemoveAllAppend(start, Named(objs, subs, order), objs[subs[sid]].sub);
    NamedAppend(objs, subs, order, sid);
    ListsAppend(order, subs.Keys - rest, sid);
    assert subs.Keys - (rest - {sid}) == subs.Keys - rest + {sid};
  }

  lemma ListsAppend(order: seq<string>, keys: set<string>, k: string)
    requires Lists(order, keys) && k !in keys
    ensures Lists(order + [k], keys + {k})
  {
  }

  /** `order` holds each key once. */
  ghost predicate Lists(order: seq<string>, keys: set<string>) {
    && (forall k :: k in order <==> k in keys)
    && (forall i, j :: 0 <= i < j < |order| ==> order[i] != order[j])
  }

  lemma {:induction false} OrderLists(order: seq<string>, keys: set<string>)
    requires Lists(order, keys)
    ensures Order(order, keys) == order
    decreases |order|
  {
    if order != [] {
      var rest := order[1..];
      assert order == [order[0]] + rest;
      assert forall k :: k in order <==> k == order[0] || k in rest;
      OrderLists(rest, keys - {order[0]});
    } else {
      assert keys == {};
    }
  }

  lemma {:induction false} RemoveAllAppend(sys: M.System, subs: seq<Sub>, x: Sub)
    ensures RemoveAll(sys, subs + [x]) == M.Step(RemoveAll(sys, subs), M.OpRemove(x))
    decreases |subs|
  {
    if subs == [] {
      assert [] + [x] == [x] && [x][1..] == [];
    } else {
      assert (subs + [x])[1..] == subs[1..] + [x];
      RemoveAllAppend(M.Step(sys, M.OpRemove(subs[0])), subs[1..], x);
    }
  }

  lemma {:induction false} NamedAppend(objs: seq<Subscription>, subs: map<string, nat>, sids: seq<string>, sid: string)
    requires forall k :: k in sids + [sid] ==> k in subs && subs[k] < |objs|
    ensures Named(objs, subs, sids + [sid]) == Named(objs, subs, sids) + [objs[subs[sid]].sub]
    decreases |sids|
  {
    assert forall k :: k in sids ==> k in sids + [sid];
    if sids == [] {
      assert [] + [sid] == [sid] && [sid][1..] == [];
    } else {
      assert (sids + [sid])[1..] == sids[1..] + [sid];
      NamedAppend(objs, subs, sids[1..], sid);
    }
  }
}
