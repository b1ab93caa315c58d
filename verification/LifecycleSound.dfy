/**
 What holds in every run of one server, also when the byte-level test misses a match: the maps
 name existing subscriptions, the index and every cache stay coherent, and nothing is ever sent
 beyond a limit or twice.
 */
module LifecycleSound {
  import opened Common
  import opened Results
  import opened Lifecycle
  import M = SublistModel

  ghost predicate Sound(s: Server) {
    && BooksOk(s.objs, s.clients) && LogOk(s.objs, s.log)
    && EverOk(s.objs, s.sys.index.ever) && M.Inv(s.sys)
  }

  lemma UnsubscribeSound(s: Server, id: nat)
    requires Sound(s) && id < |s.objs|
    ensures Sound(Unsubscribe(s, id))
  {
    StepRemove(s.sys, s.objs[id].sub);
    ForgetBooks(s.objs, s.clients, id);
  }

  lemma TouchSound(s: Server, id: nat, o: Subscription)
    requires Sound(s) && id < |s.objs| && SameNames(o, s.objs[id]) && o.nm >= s.objs[id].nm
    ensures Sound(s.(objs := s.objs[id := o]))
  {
    TouchBooks(s.objs, s.clients, id, o);
    TouchLog(s.objs, id, o, s.log);
  }

  lemma ProcessUnsubSound(s: Server, cid: nat, sid: string, max: int)
    requires Sound(s)
    ensures Sound(ProcessUnsub(s, cid, sid, max))
  {
    if cid in s.clients && sid in s.clients[cid].subs {
      assert ClientOk(s.objs, cid, s.clients[cid].subs);
      var id := s.clients[cid].subs[sid];
      var o := s.objs[id].(max := if max > 0 then max else 0);
      TouchSound(s, id, o);
      UnsubscribeSound(s.(objs := s.objs[id := o]), id);
    }
  }

  lemma SubscribeSound(s: Server, cid: nat, subject: string, queue: Option<string>, sid: string)
    requires Sound(s)
    ensures Sound(Subscribe(s, cid, subject, queue, sid))
  {
    if cid in s.clients && s.clients[cid].open && sid !in s.clients[cid].subs {
      var sub := Sub(|s.objs|, subject, queue);
      var o := Subscription(sub, cid, sid, 0, 0);
      StepInsert(s.sys, sub);
      SubscribeBooks(s.objs, s.clients, o);
      SubscribeHistory(s.objs, o, s.log, s.sys.index.ever);
    }
  }

  lemma {:induction false} RemoveAllSound(sys: M.System, subs: seq<Sub>)
    requires M.Inv(sys)
    ensures M.Inv(RemoveAll(sys, subs)) && RemoveAll(sys, subs).index.ever == sys.index.ever
    decreases |subs|
  {
    if subs != [] {
      StepRemove(sys, subs[0]);
      RemoveAllSound(M.Step(sys, M.OpRemove(subs[0])), subs[1..]);
    }
  }

  lemma CloseSound(s: Server, cid: nat, hint: seq<string>)
    requires Sound(s)
    ensures Sound(CloseConn(s, cid, hint))
  {
    if cid in s.clients && s.clients[cid].open {
      assert ClientOk(s.objs, cid, s.clients[cid].subs);
      CloseConnIs(s, cid, hint);
      RemoveAllSound(s.sys, Leaving(s, cid, hint));
      CloseBooks(s.objs, s.clients, cid);
    }
  }

  lemma WriteToSound(s: Server, id: nat, fate: Fate)
    requires Sound(s) && Unsent(s, id) && (s.objs[id].max == 0 || s.objs[id].nm <= s.objs[id].max)
    ensures Sound(WriteTo(s, id, fate))
  {
    if IsOpen(s, s.objs[id].cid) {
      match fate
      case Written => SendLog(s, id);
      case Failed =>
      case TimedOut(hint) => CloseSound(s, s.objs[id].cid, hint);
    }
  }

  lemma CountedSound(s: Server, id: nat)
    requires Sound(s) && id < |s.objs|
    ensures Sound(Counted(s, id)) && Unsent(Counted(s, id), id)
  {
    TouchSound(s, id, s.objs[id].(nm := s.objs[id].nm + 1));
    CountedUnsent(s, id);
  }

  lemma DeliverSound(s: Server, id: nat, fate: Fate)
    requires Sound(s) && id < |s.objs|
    ensures Sound(Deliver(s, id, fate))
  {
    CountedSound(s, id);
    var t := Counted(s, id);
    var o := t.objs[id];
    if o.max > 0 && o.nm > o.max {
      UnsubscribeSound(t, id);
    } else {
      WriteToSound(t, id, fate);
      if o.max > 0 && o.nm == o.max {
        UnsubscribeSound(WriteTo(t, id, fate), id);
      }
    }
  }

  lemma {:induction false} DeliverAllSound(s: Server, ids: seq<nat>, fates: seq<Fate>)
    requires Sound(s)
    ensures Sound(DeliverAll(s, ids, fates))
    decreases |ids|
  {
    if ids != [] {
      var fate := if fates == [] then Written else fates[0];
      if ids[0] < |s.objs| {
        DeliverSound(s, ids[0], fate);
      }
      DeliverAllSound(if ids[0] < |s.objs| then Deliver(s, ids[0], fate) else s, ids[1..],
                      if fates == [] then [] else fates[1..]);
    }
  }

  /** Finding the result of a publish changes caches only. */
  lemma LookupSound(s: Server, a: Action)
    requires Sound(s) && a.DoPublish?
    ensures var sys := M.Step(M.Step(s.sys, M.OpLoad(a.cid)), M.OpFill(a.cid, a.subject, a.evicted, a.dropped));
            Sound(s.(sys := sys))
  {
    TwoSteps(s.sys, M.OpLoad(a.cid), M.OpFill(a.cid, a.subject, a.evicted, a.dropped));
    LookupSame(s.sys, a.cid, a.subject, a.evicted, a.dropped);
    SwapSound(s, M.Step(M.Step(s.sys, M.OpLoad(a.cid)), M.OpFill(a.cid, a.subject, a.evicted, a.dropped)));
  }

  lemma SwapSound(s: Server, sys: M.System)
    requires Sound(s) && M.Inv(sys) && sys.index.ever == s.sys.index.ever
    ensures Sound(s.(sys := sys))
  {
  }

  /** Whatever a publish finds was subscribed once, so it is in the table. */
  lemma TargetsKnown(s: Server, cid: nat, subject: string, picks: seq<nat>, k: nat)
    requires Sound(s) && k < |Targets(Used(s.sys, cid, subject), picks)|
    ensures Targets(Used(s.sys, cid, subject), picks)[k] < |s.objs|
  {
    var r := Used(s.sys, cid, subject);
    UsedRight(s.sys, cid, subject);
    TargetsIn(r, picks, k);
    var x :| Total(r, x) > 0 && x.id == Targets(r, picks)[k];
    OnlyEver(r, s.sys.index, subject, x);
  }

  lemma OnlyEver(r: Result, index: M.Index, subject: string, x: Sub)
    requires M.Valid(index) && M.Right(r, index.live, index.ever, subject) && Total(r, x) > 0
    ensures x in index.ever
  {
    assert x in index.live ==> x in index.ever;
  }

  lemma PublishSound(s: Server, a: Action)
    requires Sound(s) && a.DoPublish?
    ensures Sound(Publish(s, a))
  {
    LookupSound(s, a);
    var sys := M.Step(M.Step(s.sys, M.OpLoad(a.cid)), M.OpFill(a.cid, a.subject, a.evicted, a.dropped));
    DeliverAllSound(s.(sys := sys), Targets(Used(s.sys, a.cid, a.subject), a.picks), a.fates);
  }

  lemma ConnectSound(s: Server, cid: nat)
    requires Sound(s)
    ensures Sound(Connect(s, cid))
  {
    var t := Connect(s, cid);
    forall c | c in t.clients ensures ClientOk(s.objs, c, t.clients[c].subs) {
      if c in s.clients {
        assert ClientOk(s.objs, c, s.clients[c].subs);
      }
    }
  }

  lemma NextSound(s: Server, a: Action)
    requires Sound(s)
    ensures Sound(Next(s, a))
  {
    match a
    case DoConnect(cid) => ConnectSound(s, cid);
    case DoSub(cid, subject, queue, sid) => SubscribeSound(s, cid, subject, queue, sid);
    case DoUnsub(cid, sid, max) => ProcessUnsubSound(s, cid, sid, max);
    case DoPublish(_, _, _, _, _, _) => PublishSound(s, a);
    case DoClose(cid, hint) => CloseSound(s, cid, hint);
  }

  /** No run at all sends a message beyond a limit or twice, or leaves an index or a cache wrong. */
  lemma {:induction false} RunSound(run: seq<Action>)
    ensures Sound(After(run))
    decreases |run|
  {
    if run != [] {
      RunSound(run[..|run| - 1]);
      NextSound(After(run[..|run| - 1]), run[|run| - 1]);
    }
  }
}
