/**
 What a publish writes, and to whom: every matching plain subscription and one member of every
 matching queue group get the message once, and nobody else does.
 */
module LifecycleDelivers {
  import opened Common
  import opened Subjects
  import opened Results
  import opened Lifecycle
  import M = SublistModel
  import Trie

  // ---------- who is live ----------

  /** A new object nobody's map refers to is not live. */
  lemma LiveGrown(objs: seq<Subscription>, clients: map<nat, Client>, o: Subscription, i: nat)
    requires BooksOk(objs, clients)
    ensures LiveId(objs + [o], clients, i) <==> LiveId(objs, clients, i)
  {
    if o.cid in clients {
      assert ClientOk(objs, o.cid, clients[o.cid].subs);
    }
  }

  /** One that its open client's map refers to is, and takes nobody's place. */
  lemma LiveAdded(objs: seq<Subscription>, clients: map<nat, Client>, o: Subscription, i: nat)
    requires BooksOk(objs, clients) && o.cid in clients && clients[o.cid].open && o.sid !in clients[o.cid].subs
    ensures var c := clients[o.cid];
      LiveId(objs + [o], clients[o.cid := c.(subs := c.subs[o.sid := |objs|])], i)
      <==> LiveId(objs, clients, i) || i == |objs|
  {
    assert ClientOk(objs, o.cid, clients[o.cid].subs);
  }

  lemma SubscribeIs(s: Server, o: Subscription)
    requires IsOpen(s, o.cid) && o.sid !in s.clients[o.cid].subs && o.sub.id == |s.objs| && o.nm == 0 && o.max == 0
    ensures var t, c := Subscribe(s, o.cid, o.sub.subject, o.sub.queue, o.sid), s.clients[o.cid];
      && t.objs == s.objs + [o]
      && t.clients == if ValidSubject(o.sub.subject)
                      then s.clients[o.cid := c.(subs := c.subs[o.sid := |s.objs|])] else s.clients
  {
    Trie.InsertOk(s.sys.index.root, Split(o.sub.subject), false, o.sub);
  }

  /** A SUB makes its subscription live if the connection is open, the sid is new to it and the subject
      is valid, and changes nobody else. */
  lemma SubscribeExactly(s: Server, cid: nat, subject: string, queue: Option<string>, sid: string, i: nat)
    requires Inv(s)
    ensures var t := Subscribe(s, cid, subject, queue, sid);
      && (LiveId(t.objs, t.clients, i) <==>
          LiveId(s.objs, s.clients, i)
          || (i == |s.objs| && IsOpen(s, cid) && sid !in s.clients[cid].subs && ValidSubject(subject)))
      && s.objs <= t.objs && (|s.objs| < |t.objs| ==> t.objs[|s.objs|].sub == Sub(|s.objs|, subject, queue))
  {
    if IsOpen(s, cid) && sid !in s.clients[cid].subs {
      var o := Subscription(Sub(|s.objs|, subject, queue), cid, sid, 0, 0);
      SubscribeIs(s, o);
      if ValidSubject(subject) {
        LiveAdded(s.objs, s.clients, o, i);
      } else {
        LiveGrown(s.objs, s.clients, o, i);
      }
    }
  }

  lemma UnsubIs(s: Server, cid: nat, sid: string, max: int, id: nat)
    requires IsOpen(s, cid) && sid in s.clients[cid].subs && s.clients[cid].subs[sid] == id < |s.objs|
    requires s.objs[id].cid == cid && s.objs[id].sid == sid
    ensures var t, o := ProcessUnsub(s, cid, sid, max), s.objs[id].(max := if max > 0 then max else 0);
      && t.objs == s.objs[id := o]
      && t.clients == if max <= 0 || s.objs[id].nm >= max then Forget(s.clients, cid, sid) else s.clients
  {
  }

  /** An UNSUB sets the limit, and ends the subscription at once if it has no limit left. */
  lemma UnsubExactly(s: Server, cid: nat, sid: string, max: int, i: nat)
    requires Inv(s) && IsOpen(s, cid) && sid in s.clients[cid].subs
    ensures var t, id := ProcessUnsub(s, cid, sid, max), s.clients[cid].subs[sid];
      && id < |s.objs| == |t.objs| && t.objs[id] == s.objs[id].(max := if max > 0 then max else 0)
      && (LiveId(t.objs, t.clients, i) <==>
          LiveId(s.objs, s.clients, i) && !(i == id && (max <= 0 || s.objs[id].nm >= max)))
  {
    assert ClientOk(s.objs, cid, s.clients[cid].subs);
    var id := s.clients[cid].subs[sid];
    assert Names(s.objs, cid, sid, id);
    UnsubIs(s, cid, sid, max, id);
    var o := s.objs[id].(max := if max > 0 then max else 0);
    TouchLive(s.objs, s.clients, id, o);
    ForgetLiveId(s.objs, s.clients, id, i);
    TouchLive(s.objs, Forget(s.clients, cid, sid), id, o);
  }

  /** Closing a connection ends its subscriptions and no others. */
  lemma CloseExactly(s: Server, cid: nat, hint: seq<string>, i: nat)
    ensures var t := CloseConn(s, cid, hint);
      LiveId(t.objs, t.clients, i) <==> LiveId(s.objs, s.clients, i) && s.objs[i].cid != cid
  {
  }

  // ---------- what a fan-out writes ----------

  function FateAt(fates: seq<Fate>, k: nat): Fate {
    if k < |fates| then fates[k] else Written
  }

  function Tail(fates: seq<Fate>): seq<Fate> {
    if fates == [] then [] else fates[1..]
  }

  /** A further message does not exceed the limit. */
  predicate BelowLimit(o: Subscription) {
    o.max == 0 || o.nm < o.max
  }

  /** The entry for the next message to subscription `id`. */
  function NextSent(objs: seq<Subscription>, id: nat): Sent
    requires id < |objs|
  {
    Sent(id, objs[id].nm + 1, objs[id].max)
  }

  ghost predicate Known(objs: seq<Subscription>, ids: seq<nat>) {
    forall k :: 0 <= k < |ids| ==> ids[k] < |objs|
  }

  /** What messages to `ids` write while the connections of `shut` are closed: those that get
      through, in order; a timeout closes the connection it happens on. */
  function Outgoing(objs: seq<Subscription>, ids: seq<nat>, fates: seq<Fate>, shut: set<nat>): seq<Sent>
    requires Known(objs, ids)
    decreases |ids|
  {
    if ids == [] then []
    else
      var cid, fate := objs[ids[0]].cid, FateAt(fates, 0);
      var rest := Outgoing(objs, ids[1..], Tail(fates), if fate.TimedOut? then shut + {cid} else shut);
      if fate.Written? && cid !in shut then [NextSent(objs, ids[0])] + rest else rest
  }

  lemma CloseOpens(s: Server, cid: nat, hint: seq<string>, c: nat)
    ensures var t := CloseConn(s, cid, hint);
      t.objs == s.objs && t.log == s.log && (IsOpen(t, c) <==> IsOpen(s, c) && c != cid)
  {
  }

  lemma UnsubscribeOpens(s: Server, id: nat, c: nat)
    requires id < |s.objs|
    ensures var t := Unsubscribe(s, id);
      t.objs == s.objs && t.log == s.log && (IsOpen(t, c) <==> IsOpen(s, c))
  {
  }

  lemma WriteOpens(s: Server, id: nat, fate: Fate, c: nat)
    requires id < |s.objs|
    ensures var t, o := WriteTo(s, id, fate), s.objs[id];
      && t.objs == s.objs
      && t.log == s.log + (if fate.Written? && IsOpen(s, o.cid) then [Sent(id, o.nm, o.max)] else [])
      && (IsOpen(t, c) <==> IsOpen(s, c) && !(fate.TimedOut? && c == o.cid))
  {
    ConcatNothing(s.log);
    if fate.TimedOut? {
      CloseOpens(s, s.objs[id].cid, fate.hint, c);
    }
  }

  /** One delivery below the limit: it is counted, and written if the connection takes it. */
  lemma DeliverWrites(s: Server, id: nat, fate: Fate, c: nat)
    requires id < |s.objs| && BelowLimit(s.objs[id])
    ensures var t, o := Deliver(s, id, fate), s.objs[id];
      && t.objs == s.objs[id := o.(nm := o.nm + 1)]
      && t.log == s.log + (if fate.Written? && IsOpen(s, o.cid) then [NextSent(s.objs, id)] else [])
      && (IsOpen(t, c) <==> IsOpen(s, c) && !(fate.TimedOut? && c == o.cid))
  {
    var s1 := Counted(s, id);
    WriteOpens(s1, id, fate, c);
    UnsubscribeOpens(WriteTo(s1, id, fate), id, c);
  }

  lemma {:induction false} OutgoingSame(objs: seq<Subscription>, objs': seq<Subscription>, ids: seq<nat>,
                                        fates: seq<Fate>, shut: set<nat>)
    requires Known(objs, ids) && Known(objs', ids) && forall k :: 0 <= k < |ids| ==> objs[ids[k]] == objs'[ids[k]]
    ensures Outgoing(objs, ids, fates, shut) == Outgoing(objs', ids, fates, shut)
    decreases |ids|
  {
    if ids != [] {
      var shut' := if FateAt(fates, 0).TimedOut? then shut + {objs[ids[0]].cid} else shut;
      OutgoingSame(objs, objs', ids[1..], Tail(fates), shut');
    }
  }

  ghost predicate Distinct(ids: seq<nat>) {
    forall j, k :: 0 <= j < k < |ids| ==> ids[j] != ids[k]
  }

  /** `ids` may be delivered to: known, below their limits, and open unless in `shut`. */
  ghost predicate Deliverable(s: Server, ids: seq<nat>, shut: set<nat>) {
    && Known(s.objs, ids)
    && forall k :: 0 <= k < |ids| ==>
         BelowLimit(s.objs[ids[k]]) && (IsOpen(s, s.objs[ids[k]].cid) <==> s.objs[ids[k]].cid !in shut)
  }

  lemma DeliverableStays(s: Server, ids: seq<nat>, fate: Fate, shut: set<nat>)
    requires ids != [] && Distinct(ids) && Deliverable(s, ids, shut)
    ensures var shut' := if fate.TimedOut? then shut + {s.objs[ids[0]].cid} else shut;
      var t := Deliver(s, ids[0], fate);
      && Deliverable(t, ids[1..], shut')
      && forall k :: 0 <= k < |ids[1..]| ==> t.objs[ids[1..][k]] == s.objs[ids[1..][k]]
  {
    var t := Deliver(s, ids[0], fate);
    forall k | 0 <= k < |ids[1..]|
      ensures ids[1..][k] < |t.objs| == |s.objs| && t.objs[ids[1..][k]] == s.objs[ids[1..][k]]
      ensures IsOpen(t, s.objs[ids[1..][k]].cid)
         <==> IsOpen(s, s.objs[ids[1..][k]].cid) && !(fate.TimedOut? && s.objs[ids[1..][k]].cid == s.objs[ids[0]].cid)
    {
      assert ids[1..][k] == ids[k + 1];
      DeliverWrites(s, ids[0], fate, s.objs[ids[k + 1]].cid);
    }
  }

  /** The log after a fan-out. */
  lemma {:induction false} FanOutWrites(s: Server, ids: seq<nat>, fates: seq<Fate>, shut: set<nat>)
    requires Distinct(ids) && Deliverable(s, ids, shut)
    ensures DeliverAll(s, ids, fates).log == s.log + Outgoing(s.objs, ids, fates, shut)
    decreases |ids|
  {
    ConcatNothing(s.log);
    if ids != [] {
      var fate, o := FateAt(fates, 0), s.objs[ids[0]];
      var t, shut' := Deliver(s, ids[0], fate), if fate.TimedOut? then shut + {o.cid} else shut;
      DeliverWrites(s, ids[0], fate, o.cid);
      DeliverableStays(s, ids, fate, shut);
      FanOutWrites(t, ids[1..], Tail(fates), shut');
      OutgoingSame(s.objs, t.objs, ids[1..], Tail(fates), shut');
      ConcatAssoc(s.log, [NextSent(s.objs, ids[0])], Outgoing(s.objs, ids[1..], Tail(fates), shut'));
    }
  }

  /** The count goes up by one for those in a fan-out, and nothing else changes. */
  predicate CountedIn(o: Subscription, o': Subscription, here: bool) {
    o' == o.(nm := o.nm + if here then 1 else 0)
  }

  lemma {:induction false} FanOutSize(s: Server, ids: seq<nat>, fates: seq<Fate>)
    ensures |DeliverAll(s, ids, fates).objs| == |s.objs|
    decreases |ids|
  {
    if ids != [] {
      var t := if ids[0] < |s.objs| then Deliver(s, ids[0], FateAt(fates, 0)) else s;
      FanOutSize(t, ids[1..], Tail(fates));
    }
  }

  /** Each message is counted, written or not. */
  lemma {:induction false} FanOutCounts(s: Server, ids: seq<nat>, fates: seq<Fate>, shut: set<nat>, i: nat)
    requires Distinct(ids) && Deliverable(s, ids, shut) && i < |s.objs|
    ensures var t := DeliverAll(s, ids, fates);
      |t.objs| == |s.objs| && CountedIn(s.objs[i], t.objs[i], i in ids)
    decreases |ids|
  {
    if ids != [] {
      var fate, o := FateAt(fates, 0), s.objs[ids[0]];
      DeliverWrites(s, ids[0], fate, o.cid);
      DeliverableStays(s, ids, fate, shut);
      FanOutCounts(Deliver(s, ids[0], fate), ids[1..], Tail(fates),
                   if fate.TimedOut? then shut + {o.cid} else shut, i);
    }
  }

  // ---------- which of the messages get through ----------

  /** The `k`-th message is written: its own write succeeds, on a connection that was open and that
      no earlier write of this fan-out has timed out on. */
  ghost predicate Through(objs: seq<Subscription>, ids: seq<nat>, fates: seq<Fate>, shut: set<nat>, k: nat)
    requires Known(objs, ids) && k < |ids|
  {
    && FateAt(fates, k).Written? && objs[ids[k]].cid !in shut
    && forall j :: 0 <= j < k ==> !(FateAt(fates, j).TimedOut? && objs[ids[j]].cid == objs[ids[k]].cid)
  }

  lemma ThroughTail(objs: seq<Subscription>, ids: seq<nat>, fates: seq<Fate>, shut: set<nat>, k: nat)
    requires Known(objs, ids) && 0 < k < |ids|
    ensures var shut' := if FateAt(fates, 0).TimedOut? then shut + {objs[ids[0]].cid} else shut;
      Through(objs, ids, fates, shut, k) <==> Through(objs, ids[1..], Tail(fates), shut', k - 1)
  {
    assert forall j :: 0 <= j < |ids| - 1 ==> ids[1..][j] == ids[j + 1];
    assert forall j: nat :: FateAt(Tail(fates), j) == FateAt(fates, j + 1);
    var shut' := if FateAt(fates, 0).TimedOut? then shut + {objs[ids[0]].cid} else shut;
    if Through(objs, ids[1..], Tail(fates), shut', k - 1) {
      forall j | 0 <= j < k ensures !(FateAt(fates, j).TimedOut? && objs[ids[j]].cid == objs[ids[k]].cid) {
        if j > 0 {
          assert !(FateAt(Tail(fates), j - 1).TimedOut? && objs[ids[1..][j - 1]].cid == objs[ids[1..][k - 1]].cid);
        }
      }
    }
    if Through(objs, ids, fates, shut, k) {
      forall j | 0 <= j < k - 1
        ensures !(FateAt(Tail(fates), j).TimedOut? && objs[ids[1..][j]].cid == objs[ids[1..][k - 1]].cid) {
        assert !(FateAt(fates, j + 1).TimedOut? && objs[ids[j + 1]].cid == objs[ids[k]].cid);
      }
    }
  }

  /** Some message of the fan-out gets through and is `e`. */
  ghost predicate Gets(objs: seq<Subscription>, ids: seq<nat>, fates: seq<Fate>, shut: set<nat>, e: Sent)
    requires Known(objs, ids)
  {
    exists k :: 0 <= k < |ids| && Through(objs, ids, fates, shut, k) && e == NextSent(objs, ids[k])
  }

  lemma GetsHead(objs: seq<Subscription>, ids: seq<nat>, fates: seq<Fate>, shut: set<nat>, e: Sent)
    requires Known(objs, ids) && ids != []
    ensures var shut' := if FateAt(fates, 0).TimedOut? then shut + {objs[ids[0]].cid} else shut;
      Gets(objs, ids, fates, shut, e) <==>
        (FateAt(fates, 0).Written? && objs[ids[0]].cid !in shut && e == NextSent(objs, ids[0]))
        || Gets(objs, ids[1..], Tail(fates), shut', e)
  {
    var shut' := if FateAt(fates, 0).TimedOut? then shut + {objs[ids[0]].cid} else shut;
    if Gets(objs, ids, fates, shut, e) {
      var k :| 0 <= k < |ids| && Through(objs, ids, fates, shut, k) && e == NextSent(objs, ids[k]);
      if k > 0 {
        ThroughTail(objs, ids, fates, shut, k);
        assert ids[1..][k - 1] == ids[k];
      }
    }
    if Gets(objs, ids[1..], Tail(fates), shut', e) {
      var k :| 0 <= k < |ids[1..]| && Through(objs, ids[1..], Tail(fates), shut', k)
               && e == NextSent(objs, ids[1..][k]);
      ThroughTail(objs, ids, fates, shut, k + 1);
      assert ids[1..][k] == ids[k + 1];
    }
    if FateAt(fates, 0).Written? && objs[ids[0]].cid !in shut && e == NextSent(objs, ids[0]) {
      assert Through(objs, ids, fates, shut, 0);
    }
  }

  /** The entries written are those of the messages that get through. */
  lemma {:induction false} OutgoingExactly(objs: seq<Subscription>, ids: seq<nat>, fates: seq<Fate>, shut: set<nat>,
                                           e: Sent)
    requires Known(objs, ids)
    ensures e in Outgoing(objs, ids, fates, shut) <==> Gets(objs, ids, fates, shut, e)
    decreases |ids|
  {
    if ids != [] {
      var shut' := if FateAt(fates, 0).TimedOut? then shut + {objs[ids[0]].cid} else shut;
      OutgoingExactly(objs, ids[1..], Tail(fates), shut', e);
      GetsHead(objs, ids, fates, shut, e);
    }
  }

  /** One entry for one subscription at most. */
  ghost predicate OnceEach(log: seq<Sent>) {
    forall j, k :: 0 <= j < k < |log| ==> log[j].id != log[k].id
  }

  lemma {:induction false} OutgoingOnce(objs: seq<Subscription>, ids: seq<nat>, fates: seq<Fate>, shut: set<nat>)
    requires Known(objs, ids) && Distinct(ids)
    ensures OnceEach(Outgoing(objs, ids, fates, shut))
    decreases |ids|
  {
    if ids != [] {
      var shut' := if FateAt(fates, 0).TimedOut? then shut + {objs[ids[0]].cid} else shut;
      var rest := Outgoing(objs, ids[1..], Tail(fates), shut');
      OutgoingOnce(objs, ids[1..], Tail(fates), shut');
      forall k | 0 <= k < |rest| ensures rest[k].id != ids[0] {
        OutgoingExactly(objs, ids[1..], Tail(fates), shut', rest[k]);
        var i :| 0 <= i < |ids[1..]| && rest[k] == NextSent(objs, ids[1..][i]);
        assert ids[1..][i] == ids[i + 1];
      }
    }
  }

  // ---------- to whom ----------

  /** Subscription `i` is live and its subject matches. */
  ghost predicate Matching(s: Server, subject: string, i: nat) {
    LiveId(s.objs, s.clients, i) && TokensMatch(subject, s.objs[i].sub.subject)
  }

  /** `ids` are all matching plain subscriptions and one matching member of each queue group that
      has one, each once, and nobody else. */
  ghost predicate Chosen(s: Server, subject: string, ids: seq<nat>) {
    Distinct(ids) && OnlyMatching(s, subject, ids) && AllPlain(s, subject, ids) && AllGroups(s, subject, ids)
  }

  ghost predicate OnlyMatching(s: Server, subject: string, ids: seq<nat>) {
    forall k :: 0 <= k < |ids| ==> Matching(s, subject, ids[k])
  }

  ghost predicate AllPlain(s: Server, subject: string, ids: seq<nat>) {
    forall i: nat :: Matching(s, subject, i) && s.objs[i].sub.queue.None? ==> i in ids
  }

  /** Of a queue group with a matching member, somebody and only one. */
  ghost predicate AllGroups(s: Server, subject: string, ids: seq<nat>) {
    && (forall i: nat :: Matching(s, subject, i) && s.objs[i].sub.queue.Some? ==>
          Represented(s, ids, s.objs[i].sub.queue))
    && (forall j, k :: 0 <= j < k < |ids| && ids[j] < |s.objs| && ids[k] < |s.objs| && s.objs[ids[j]].sub.queue.Some?
          ==> s.objs[ids[j]].sub.queue != s.objs[ids[k]].sub.queue)
  }

  /** Somebody of the queue group is among `ids`. */
  ghost predicate Represented(s: Server, ids: seq<nat>, queue: Option<string>) {
    exists k :: 0 <= k < |ids| && ids[k] < |s.objs| && s.objs[ids[k]].sub.queue == queue
  }

  /** The byte-level test of cached results judges every subscription as the trie does. */
  ghost predicate Judged(objs: seq<Subscription>, literal: string) {
    forall i :: 0 <= i < |objs| && ValidSubject(objs[i].sub.subject) ==> M.Agree(objs[i].sub, literal)
  }

  /** A result that holds exactly the live matches. */
  ghost predicate ExactResult(s: Server, r: Result, subject: string) {
    && Grouped(r)
    && forall x :: Total(r, x) == if Held(s.objs, s.clients, x) && TokensMatch(subject, x.subject) then 1 else 0
  }

  lemma UsedExact(s: Server, cid: nat, subject: string)
    requires Inv(s) && Judged(s.objs, subject)
    ensures ExactResult(s, Used(s.sys, cid, subject), subject)
  {
    var r := Used(s.sys, cid, subject);
    UsedRight(s.sys, cid, subject);
    forall x ensures Total(r, x) == if Held(s.objs, s.clients, x) && TokensMatch(subject, x.subject) then 1 else 0 {
      assert x in s.sys.index.ever ==> M.Agree(x, subject);
      assert Total(r, x) == M.Expected(s.sys.index.live, x, subject);
    }
  }

  /** The subscription behind target `k`. */
  ghost function TargetSub(r: Result, picks: seq<nat>, k: nat): Sub
    requires Grouped(r) && k < |r.psubs| + |r.qsubs|
  {
    if k < |r.psubs| then r.psubs[k]
    else
      var g := r.qsubs[k - |r.psubs|];
      assert GroupOk(g);
      g[(if k - |r.psubs| < |picks| then picks[k - |r.psubs|] else 0) % |g|]
  }

  lemma InResult(s: Server, r: Result, subject: string, x: Sub)
    requires ExactResult(s, r, subject) && Total(r, x) > 0
    ensures Held(s.objs, s.clients, x) && TokensMatch(subject, x.subject)
  {
  }

  lemma PlainTarget(r: Result, picks: seq<nat>, k: nat)
    requires Grouped(r) && k < |r.psubs|
    ensures var x := TargetSub(r, picks, k);
      k < |Targets(r, picks)| && Targets(r, picks)[k] == x.id && x.queue.None? && Total(r, x) > 0
  {
  }

  lemma GroupTarget(r: Result, picks: seq<nat>, k: nat)
    requires Grouped(r) && |r.psubs| <= k < |r.psubs| + |r.qsubs|
    ensures var x, g := TargetSub(r, picks, k), r.qsubs[k - |r.psubs|];
      && k < |Targets(r, picks)| && Targets(r, picks)[k] == x.id && Total(r, x) > 0
      && g != [] && x.queue == g[0].queue && x.queue.Some?
  {
    assert GroupOk(r.qsubs[k - |r.psubs|]);
    QTotalHas(r.qsubs, k - |r.psubs|, TargetSub(r, picks, k));
  }

  lemma TargetIs(s: Server, r: Result, subject: string, picks: seq<nat>, k: nat)
    requires ExactResult(s, r, subject) && k < |Targets(r, picks)|
    ensures k < |r.psubs| + |r.qsubs|
    ensures var x := TargetSub(r, picks, k);
      && Targets(r, picks)[k] == x.id && Held(s.objs, s.clients, x) && TokensMatch(subject, x.subject)
      && (x.queue.None? <==> k < |r.psubs|)
      && (k >= |r.psubs| ==> r.qsubs[k - |r.psubs|] != [] && x.queue == r.qsubs[k - |r.psubs|][0].queue)
  {
    if k < |r.psubs| {
      PlainTarget(r, picks, k);
    } else {
      GroupTarget(r, picks, k);
    }
    InResult(s, r, subject, TargetSub(r, picks, k));
  }

  lemma TwiceCounted(g: seq<Sub>, j: nat, k: nat)
    requires j < k < |g| && g[j] == g[k]
    ensures Count(g, g[j]) >= 2
  {
    assert g == g[..k] + [g[k]] + g[k + 1..];
    assert g[j] in g[..k];
  }

  lemma TargetsDistinct(s: Server, r: Result, subject: string, picks: seq<nat>, j: nat, k: nat)
    requires ExactResult(s, r, subject) && j < k < |Targets(r, picks)|
    ensures var x, y := TargetSub(r, picks, j), TargetSub(r, picks, k);
      x.id != y.id && (x.queue.Some? ==> x.queue != y.queue)
  {
    TargetIs(s, r, subject, picks, j);
    TargetIs(s, r, subject, picks, k);
    var x, y, n := TargetSub(r, picks, j), TargetSub(r, picks, k), |r.psubs|;
    if k < n && x == y {
      TwiceCounted(r.psubs, j, k);
    }
    if j >= n {
      assert GroupOk(r.qsubs[j - n]) && GroupOk(r.qsubs[k - n]);
    }
  }

  lemma {:induction false} InSomeGroup(qs: seq<seq<Sub>>, x: Sub) returns (g: nat)
    requires QTotal(qs, x) > 0
    ensures g < |qs| && x in qs[g]
  {
    if Count(qs[0], x) > 0 {
      g := 0;
    } else {
      g := InSomeGroup(qs[1..], x);
      g := g + 1;
    }
  }

  lemma PlainReached(s: Server, r: Result, subject: string, picks: seq<nat>, x: Sub)
    requires ExactResult(s, r, subject) && Held(s.objs, s.clients, x)
    requires TokensMatch(subject, x.subject) && x.queue.None?
    ensures x.id in Targets(r, picks)
  {
    assert Total(r, x) == 1;
    forall i | 0 <= i < |r.qsubs| ensures r.qsubs[i][0].queue != x.queue {
      assert GroupOk(r.qsubs[i]);
    }
    NotInGroups(r.qsubs, x);
    assert x in r.psubs;
    var k :| 0 <= k < |r.psubs| && r.psubs[k] == x;
    assert Targets(r, picks)[k] == x.id;
  }

  lemma GroupReached(s: Server, r: Result, subject: string, picks: seq<nat>, x: Sub) returns (k: nat)
    requires ExactResult(s, r, subject) && Held(s.objs, s.clients, x)
    requires TokensMatch(subject, x.subject) && x.queue.Some?
    ensures k < |Targets(r, picks)| && k < |r.psubs| + |r.qsubs| && TargetSub(r, picks, k).queue == x.queue
  {
    assert Total(r, x) == 1;
    CountOther(r.psubs, x, None);
    var g := InSomeGroup(r.qsubs, x);
    assert GroupOk(r.qsubs[g]);
    k := |r.psubs| + g;
    TargetIs(s, r, subject, picks, k);
  }

  lemma LiveHeld(s: Server, i: nat)
    requires BooksOk(s.objs, s.clients) && LiveId(s.objs, s.clients, i)
    ensures s.objs[i].sub.id == i && Held(s.objs, s.clients, s.objs[i].sub)
  {
  }

  lemma TargetsMatch(s: Server, r: Result, subject: string, picks: seq<nat>)
    requires ExactResult(s, r, subject) && BooksOk(s.objs, s.clients)
    ensures OnlyMatching(s, subject, Targets(r, picks)) && AllPlain(s, subject, Targets(r, picks))
  {
    var ids := Targets(r, picks);
    forall k | 0 <= k < |ids| ensures Matching(s, subject, ids[k]) {
      TargetIs(s, r, subject, picks, k);
    }
    forall i: nat | Matching(s, subject, i) && s.objs[i].sub.queue.None? ensures i in ids {
      LiveHeld(s, i);
      PlainReached(s, r, subject, picks, s.objs[i].sub);
    }
  }

  /** The targets of an exact result are the chosen ones. */
  lemma TargetsChosen(s: Server, r: Result, subject: string, picks: seq<nat>)
    requires ExactResult(s, r, subject) && BooksOk(s.objs, s.clients)
    ensures Chosen(s, subject, Targets(r, picks))
  {
    var ids := Targets(r, picks);
    TargetsMatch(s, r, subject, picks);
    forall j, k | 0 <= j < k < |ids|
      ensures ids[j] != ids[k]
      ensures ids[j] < |s.objs| && ids[k] < |s.objs|
      ensures s.objs[ids[j]].sub.queue.Some? ==> s.objs[ids[j]].sub.queue != s.objs[ids[k]].sub.queue
    {
      TargetsDistinct(s, r, subject, picks, j, k);
      TargetIs(s, r, subject, picks, j);
      TargetIs(s, r, subject, picks, k);
    }
    forall i: nat | Matching(s, subject, i) && s.objs[i].sub.queue.Some?
      ensures Represented(s, ids, s.objs[i].sub.queue) {
      LiveHeld(s, i);
      var k := GroupReached(s, r, subject, picks, s.objs[i].sub);
      TargetIs(s, r, subject, picks, k);
    }
  }

  // ---------- a publish ----------

  /** Every live subscription can take a message. */
  lemma ChosenDeliverable(s: Server, subject: string, ids: seq<nat>)
    requires LimitsOk(s.objs, s.clients) && OnlyMatching(s, subject, ids)
    ensures Deliverable(s, ids, {})
  {
    forall k | 0 <= k < |ids|
      ensures ids[k] < |s.objs| && BelowLimit(s.objs[ids[k]]) && IsOpen(s, s.objs[ids[k]].cid) {
      assert Matching(s, subject, ids[k]);
    }
  }

  /** A publish counts one message for each of the chosen subscriptions, and writes one for each whose
      own write succeeds on a connection still open, numbered one above the old count. */
  lemma PublishWrites(s: Server, a: Action) returns (ids: seq<nat>)
    requires Inv(s) && a.DoPublish? && Judged(s.objs, a.subject)
    ensures Chosen(s, a.subject, ids) && Known(s.objs, ids)
    ensures Publish(s, a).log == s.log + Outgoing(s.objs, ids, a.fates, {})
    ensures |Publish(s, a).objs| == |s.objs|
    ensures forall i :: 0 <= i < |s.objs| ==> CountedIn(s.objs[i], Publish(s, a).objs[i], i in ids)
  {
    ids := Targets(Used(s.sys, a.cid, a.subject), a.picks);
    UsedExact(s, a.cid, a.subject);
    TargetsChosen(s, Used(s.sys, a.cid, a.subject), a.subject, a.picks);
    var sys := M.Step(M.Step(s.sys, M.OpLoad(a.cid)), M.OpFill(a.cid, a.subject, a.evicted, a.dropped));
    var t := s.(sys := sys);
    ChosenDeliverable(s, a.subject, ids);
    assert Deliverable(t, ids, {});
    FanOutWrites(t, ids, a.fates, {});
    FanOutSize(t, ids, a.fates);
    forall i | 0 <= i < |s.objs| ensures CountedIn(s.objs[i], Publish(s, a).objs[i], i in ids) {
      FanOutCounts(t, ids, a.fates, {}, i);
    }
  }

  /** The entries of one message to each of `ids`. */
  function AllSent(objs: seq<Subscription>, ids: seq<nat>): (r: seq<Sent>)
    requires Known(objs, ids)
    ensures |r| == |ids| && forall k :: 0 <= k < |ids| ==> r[k] == Sent(ids[k], objs[ids[k]].nm + 1, objs[ids[k]].max)
  {
    seq(|ids|, k requires 0 <= k < |ids| => NextSent(objs, ids[k]))
  }

  lemma {:induction false} AllGetThrough(objs: seq<Subscription>, ids: seq<nat>, fates: seq<Fate>)
    requires Known(objs, ids) && forall k :: 0 <= k < |fates| ==> fates[k].Written?
    ensures Outgoing(objs, ids, fates, {}) == AllSent(objs, ids)
    decreases |ids|
  {
    if ids != [] {
      AllGetThrough(objs, ids[1..], Tail(fates));
      assert AllSent(objs, ids) == [NextSent(objs, ids[0])] + AllSent(objs, ids[1..]);
    }
  }

  /** What a publish is for: the log grows by exactly one entry, numbered one above the old count,
      for each matching plain subscription and for one member of each matching queue group. */
  ghost predicate Reaches(s: Server, a: Action)
    requires a.DoPublish?
  {
    exists ids :: Known(s.objs, ids) && Chosen(s, a.subject, ids) && Publish(s, a).log == s.log + AllSent(s.objs, ids)
  }

  /** With every write successful, all of them get it, the message that reaches a limit included. */
  lemma PublishReaches(s: Server, a: Action)
    requires Inv(s) && a.DoPublish? && Judged(s.objs, a.subject)
    requires forall k :: 0 <= k < |a.fates| ==> a.fates[k].Written?
    ensures Reaches(s, a)
  {
    var ids := PublishWrites(s, a);
    AllGetThrough(s.objs, ids, a.fates);
  }

  /** With any fates: who of the chosen gets the message is decided by that subscription's own write and
      by timeouts on the same connection before it; nobody gets it twice. */
  lemma PublishMixed(s: Server, a: Action) returns (ids: seq<nat>, added: seq<Sent>)
    requires Inv(s) && a.DoPublish? && Judged(s.objs, a.subject)
    ensures Chosen(s, a.subject, ids) && Known(s.objs, ids) && Publish(s, a).log == s.log + added && OnceEach(added)
    ensures forall e :: e in added <==> Gets(s.objs, ids, a.fates, {}, e)
  {
    ids := PublishWrites(s, a);
    added := Outgoing(s.objs, ids, a.fates, {});
    OutgoingOnce(s.objs, ids, a.fates, {});
    forall e ensures e in added <==> Gets(s.objs, ids, a.fates, {}, e) {
      OutgoingExactly(s.objs, ids, a.fates, {}, e);
    }
  }

  // ---------- over whole runs ----------

  /** The byte-level test and the trie agree on all of them. */
  ghost predicate NoneMisjudged(ss: iset<string>, ls: iset<string>) {
    forall s, l :: s in ss && l in ls && ValidSubject(s) ==> (MatchRest(l, s) <==> TokensMatch(l, s))
  }

  /** After any run, a publish whose writes succeed reaches exactly the right subscriptions. */
  lemma RunReaches(run: seq<Action>, a: Action, ss: iset<string>, ls: iset<string>)
    requires Uses(run, ss, ls) && NoneMisjudged(ss, ls) && a.DoPublish? && a.subject in ls
    requires forall k :: 0 <= k < |a.fates| ==> a.fates[k].Written?
    ensures Reaches(After(run), a)
  {
    RunKeeps(run, ss, ls);
    PublishReaches(After(run), a);
  }

  /** Publish, subscribe, publish again. */
  function SecondTime(subject: string, literal: string): seq<Action> {
    [DoConnect(0), DoPublish(0, literal, literal, {}, [], []), DoSub(0, subject, None, "1")]
  }

  /** The server after `SecondTime`: the cached result decides who gets the next message. */
  ghost predicate Waits(s: Server, subject: string, literal: string) {
    && s.objs == [Subscription(Sub(0, subject, None), 0, "1", 0, 0)] && s.log == []
    && s.clients == map[0 := Client(true, map["1" := 0])]
    && Used(s.sys, 0, literal)
       == if MatchRest(literal, subject) then Result([Sub(0, subject, None)], []) else EMPTY
  }

  lemma FirstPublish(literal: string)
    ensures var s := Connect(NEW_SERVER, 0);
      var t := Publish(s, DoPublish(0, literal, literal, {}, [], []));
      && t == s.(sys := t.sys) && M.Inv(t.sys) && t.sys.index.cache == map[literal := EMPTY]
      && 0 in t.sys.clients && t.sys.clients[0].genid == t.sys.index.genid
  {
    NewSystemOk();
    FirstLookup(NEW_SERVER.sys, literal);
    M.FirstCached(literal);
  }

  lemma InsertedCache(sys: M.System, sub: Sub, literal: string)
    requires M.Inv(sys) && sys.index.cache == map[literal := EMPTY] && ValidSubject(sub.subject) && sub.queue == None
    requires 0 in sys.clients && sys.clients[0].genid == sys.index.genid
    ensures Used(M.Step(sys, M.OpInsert(sub)), 0, literal)
         == if MatchRest(literal, sub.subject) then Result([sub], []) else EMPTY
  {
    Trie.InsertOk(sys.index.root, Split(sub.subject), false, sub);
    StaleLookup(M.Step(sys, M.OpInsert(sub)), literal);
  }

  /** A first subscription of client 0. */
  lemma SubscribedIs(s: Server, subject: string)
    requires ValidSubject(subject) && s.objs == [] && s.clients == map[0 := Client(true, map[])]
    ensures var sub := Sub(0, subject, None);
      Subscribe(s, 0, subject, None, "1")
      == Server(M.Step(s.sys, M.OpInsert(sub)), [Subscription(sub, 0, "1", 0, 0)],
                map[0 := Client(true, map["1" := 0])], s.log)
  {
    Trie.InsertOk(s.sys.index.root, Split(subject), false, Sub(0, subject, None));
  }

  lemma ThreeSteps(run: seq<Action>)
    requires |run| == 3
    ensures After(run) == Next(Next(Next(NEW_SERVER, run[0]), run[1]), run[2])
  {
    assert run[..2][..1] == run[..1] && run[..1][..0] == [];
    assert After(run[..1]) == Next(NEW_SERVER, run[0]);
    assert After(run[..2]) == Next(After(run[..1]), run[1]);
  }

  lemma SubscribedWaits(s: Server, subject: string, literal: string)
    requires ValidSubject(subject) && s.objs == [] && s.log == [] && s.clients == map[0 := Client(true, map[])]
    requires M.Inv(s.sys) && s.sys.index.cache == map[literal := EMPTY]
    requires 0 in s.sys.clients && s.sys.clients[0].genid == s.sys.index.genid
    ensures Waits(Subscribe(s, 0, subject, None, "1"), subject, literal)
  {
    SubscribedIs(s, subject);
    InsertedCache(s.sys, Sub(0, subject, None), literal);
  }

  lemma SecondTimeIs(subject: string, literal: string)
    ensures var s := Publish(Connect(NEW_SERVER, 0), DoPublish(0, literal, literal, {}, [], []));
      After(SecondTime(subject, literal)) == Subscribe(s, 0, subject, None, "1")
  {
    ThreeSteps(SecondTime(subject, literal));
  }

  lemma SecondTimeWaits(subject: string, literal: string)
    requires ValidSubject(subject)
    ensures Waits(After(SecondTime(subject, literal)), subject, literal)
  {
    SecondTimeIs(subject, literal);
    FirstPublish(literal);
    var s := Publish(Connect(NEW_SERVER, 0), DoPublish(0, literal, literal, {}, [], []));
    assert s.objs == [] && s.log == [] && s.clients == map[0 := Client(true, map[])];
    SubscribedWaits(s, subject, literal);
  }

  /** The second message goes by the byte-level test. */
  lemma SecondMessage(s: Server, subject: string, literal: string)
    requires Waits(s, subject, literal)
    ensures |Publish(s, DoPublish(0, literal, literal, {}, [], [])).log| == if MatchRest(literal, subject) then 1 else 0
  {
    var sys := M.Step(M.Step(s.sys, M.OpLoad(0)), M.OpFill(0, literal, literal, {}));
    var t, ids := s.(sys := sys), Targets(Used(s.sys, 0, literal), []);
    if MatchRest(literal, subject) {
      assert ids == [0];
      FanOutWrites(t, [0], [], {});
      AllGetThrough(t.objs, [0], []);
    } else {
      assert ids == [];
    }
  }

  lemma FirstMatches(s: Server, subject: string, ids: seq<nat>)
    requires OnlyMatching(s, subject, ids) && ids != []
    ensures Matching(s, subject, ids[0])
  {
  }

  lemma AllSame(ids: seq<nat>)
    requires |ids| >= 2 && forall k :: 0 <= k < |ids| ==> ids[k] == 0
    ensures !Distinct(ids)
  {
    assert ids[0] == ids[1];
  }

  /** It should go by the tokens. */
  lemma SecondChosen(s: Server, subject: string, literal: string, ids: seq<nat>)
    requires Waits(s, subject, literal) && Chosen(s, literal, ids)
    ensures |ids| == if TokensMatch(literal, subject) then 1 else 0
  {
    if TokensMatch(literal, subject) {
      forall k | 0 <= k < |ids| ensures ids[k] == 0 {
        assert Matching(s, literal, ids[k]);
      }
      assert Matching(s, literal, 0);
      assert 0 in ids;
      if |ids| >= 2 {
        AllSame(ids);
      }
    } else if ids != [] {
      FirstMatches(s, literal, ids);
    }
  }

  lemma MisjudgedFails(subject: string, literal: string)
    requires ValidSubject(subject) && !(MatchRest(literal, subject) <==> TokensMatch(literal, subject))
    ensures !Reaches(After(SecondTime(subject, literal)), DoPublish(0, literal, literal, {}, [], []))
  {
    var s, a := After(SecondTime(subject, literal)), DoPublish(0, literal, literal, {}, [], []);
    SecondTimeWaits(subject, literal);
    SecondMessage(s, subject, literal);
    forall ids | Known(s.objs, ids) && Chosen(s, literal, ids)
      ensures Publish(s, a).log != s.log + AllSent(s.objs, ids) {
      SecondChosen(s, subject, literal, ids);
    }
  }

  /** Every publish with successful writes reaches exactly the right subscriptions, after every run that
      subscribes to `ss` and publishes to `ls`, if and only if the byte-level test misjudges none of them. */
  lemma DeliveryExactly(ss: iset<string>, ls: iset<string>)
    ensures (forall run, a: Action :: Uses(run, ss, ls) && a.DoPublish? && a.subject in ls && a.fates == []
                                      ==> Reaches(After(run), a))
            <==> NoneMisjudged(ss, ls)
  {
    if NoneMisjudged(ss, ls) {
      forall run, a: Action | Uses(run, ss, ls) && a.DoPublish? && a.subject in ls && a.fates == []
        ensures Reaches(After(run), a) {
        RunReaches(run, a, ss, ls);
      }
    } else {
      var s, l :| s in ss && l in ls && ValidSubject(s) && !(MatchRest(l, s) <==> TokensMatch(l, s));
      MisjudgedFails(s, l);
      assert Uses(SecondTime(s, l), ss, ls);
    }
  }

  /** Whole-token wildcards and proper literals: every publish reaches exactly the right ones. */
  lemma RunDelivers(run: seq<Action>, a: Action)
    requires forall i :: 0 <= i < |run| ==>
      (run[i].DoSub? ==> Exact(Split(run[i].subject))) && (run[i].DoPublish? ==> OkLiteral(run[i].subject))
    requires a.DoPublish? && OkLiteral(a.subject) && forall k :: 0 <= k < |a.fates| ==> a.fates[k].Written?
    ensures Reaches(After(run), a)
  {
    var ss := iset s | Exact(Split(s));
    var ls := iset l | OkLiteral(l);
    forall s, l | s in ss && l in ls && ValidSubject(s) ensures MatchRest(l, s) <==> TokensMatch(l, s) {
      SubjectExactly(s);
    }
    RunReaches(run, a, ss, ls);
  }
}
