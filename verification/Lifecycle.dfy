/**
 The life of subscriptions on one server: SUB, UNSUB with and without a limit, publish with its
 fan-out, automatic unsubscription at the limit, and connections that close, also in the middle
 of a fan-out. Subscription objects are shared by the client's map, the index and cached
 results, so they live in a table and are named by their position in it.
 */
module Lifecycle {
  import opened Common
  import opened Subjects
  import opened Results
  import M = SublistModel
  import Trie

  /** `nm` counts messages; `max` is the limit, 0 for none. */
  datatype Subscription = Subscription(sub: Sub, cid: nat, sid: string, nm: nat, max: nat)

  datatype Client = Client(open: bool, subs: map<string, nat>)

  /** History: a message written to a subscriber, with the count and the limit it then had. */
  datatype Sent = Sent(id: nat, nm: nat, max: nat)

  datatype Server = Server(sys: M.System, objs: seq<Subscription>, clients: map<nat, Client>, log: seq<Sent>)

  const NEW_SERVER := Server(M.System(M.NEW_INDEX, map[]), [], map[], [])

  /** How writing to a subscriber's connection goes; a timeout closes the connection, and its
      subscriptions go in an order that starts with `hint`. */
  datatype Fate = Written | Failed | TimedOut(hint: seq<string>)

  // ---------- the operations ----------

  function Connect(s: Server, cid: nat): Server {
    if cid in s.clients then s else s.(clients := s.clients[cid := Client(true, map[])])
  }

  function Subscribe(s: Server, cid: nat, subject: string, queue: Option<string>, sid: string): Server {
    if cid !in s.clients || !s.clients[cid].open || sid in s.clients[cid].subs then s
    else
      var id := |s.objs|;
      var sub := Sub(id, subject, queue);
      var ok := Trie.Insert(s.sys.index.root, Split(subject), false, sub).ok;
      var c := s.clients[cid];
      Server(M.Step(s.sys, M.OpInsert(sub)), s.objs + [Subscription(sub, cid, sid, 0, 0)],
             if ok then s.clients[cid := c.(subs := c.subs[sid := id])] else s.clients, s.log)
  }

  function Forget(clients: map<nat, Client>, cid: nat, sid: string): map<nat, Client> {
    if cid in clients then clients[cid := clients[cid].(subs := clients[cid].subs - {sid})] else clients
  }

  /** Put off while the limit is not reached. */
  function Unsubscribe(s: Server, id: nat): Server
    requires id < |s.objs|
  {
    var o := s.objs[id];
    if o.max > 0 && o.nm < o.max then s
    else s.(clients := Forget(s.clients, o.cid, o.sid), sys := M.Step(s.sys, M.OpRemove(o.sub)))
  }

  /** `max` is the parsed argument, -1 if absent or malformed. */
  function ProcessUnsub(s: Server, cid: nat, sid: string, max: int): Server {
    if cid !in s.clients || sid !in s.clients[cid].subs || s.clients[cid].subs[sid] >= |s.objs| then s
    else
      var id := s.clients[cid].subs[sid];
      Unsubscribe(s.(objs := s.objs[id := s.objs[id].(max := if max > 0 then max else 0)]), id)
  }

  function RemoveAll(sys: M.System, subs: seq<Sub>): M.System
    decreases |subs|
  {
    if subs == [] then sys else RemoveAll(M.Step(sys, M.OpRemove(subs[0])), subs[1..])
  }

  /** The keys in some order: the hinted ones first. */
  ghost function Order(hint: seq<string>, keys: set<string>): (o: seq<string>)
    ensures forall k :: k in o <==> k in keys
    decreases |hint| + |keys|
  {
    if hint != [] then
      if hint[0] in keys then [hint[0]] + Order(hint[1..], keys - {hint[0]}) else Order(hint[1..], keys)
    else if keys == {} then []
    else var k :| k in keys; [k] + Order([], keys - {k})
  }

  function Named(objs: seq<Subscription>, subs: map<string, nat>, sids: seq<string>): (r: seq<Sub>)
    requires forall k :: k in sids ==> k in subs && subs[k] < |objs|
    ensures forall x :: x in r <==> exists k :: k in sids && objs[subs[k]].sub == x
  {
    if sids == [] then [] else [objs[subs[sids[0]]].sub] + Named(objs, subs, sids[1..])
  }

  ghost function CloseConn(s: Server, cid: nat, hint: seq<string>): Server {
    if cid !in s.clients || !s.clients[cid].open then s
    else
      var c := s.clients[cid];
      var t := s.(clients := s.clients[cid := c.(open := false)]);
      if exists k :: k in c.subs && c.subs[k] >= |s.objs| then t
      else t.(sys := RemoveAll(s.sys, Named(s.objs, c.subs, Order(hint, c.subs.Keys))))
  }

  predicate IsOpen(s: Server, cid: nat) {
    cid in s.clients && s.clients[cid].open
  }

  ghost function WriteTo(s: Server, id: nat, fate: Fate): (t: Server)
    requires id < |s.objs|
    ensures t.objs == s.objs
  {
    var o := s.objs[id];
    if !IsOpen(s, o.cid) then s
    else match fate
      case Written => s.(log := s.log + [Sent(id, o.nm, o.max)])
      case Failed => s
      case TimedOut(hint) => CloseConn(s, o.cid, hint)
  }

  function Counted(s: Server, id: nat): Server
    requires id < |s.objs|
  {
    s.(objs := s.objs[id := s.objs[id].(nm := s.objs[id].nm + 1)])
  }

  /** The message in hand, once counted: sent up to the limit, and the last one unsubscribes. */
  ghost function HandOver(s: Server, id: nat, fate: Fate): Server
    requires id < |s.objs|
  {
    var o := s.objs[id];
    if o.max > 0 && o.nm > o.max then Unsubscribe(s, id)
    else if o.max > 0 && o.nm == o.max then Unsubscribe(WriteTo(s, id, fate), id)
    else WriteTo(s, id, fate)
  }

  ghost function Deliver(s: Server, id: nat, fate: Fate): Server
    requires id < |s.objs|
  {
    HandOver(Counted(s, id), id, fate)
  }

  ghost function DeliverAll(s: Server, ids: seq<nat>, fates: seq<Fate>): Server
    decreases |ids|
  {
    if ids == [] then s
    else
      var t := if ids[0] < |s.objs| then Deliver(s, ids[0], if fates == [] then Written else fates[0]) else s;
      DeliverAll(t, ids[1..], if fates == [] then [] else fates[1..])
  }

  /** The result a publish works with: the client's, if it is of the current generation. */
  function Used(sys: M.System, cid: nat, subject: string): Result {
    var t := M.Load(sys, cid);
    if subject in t.clients[cid].results then t.clients[cid].results[subject] else M.MatchResult(t.index, subject)
  }

  /** The member of a queue group that the random number `picks[k]` selects. */
  function Choose(g: seq<Sub>, picks: seq<nat>, k: nat): nat {
    if g == [] then 0 else g[(if k < |picks| then picks[k] else 0) % |g|].id
  }

  function Pick(qs: seq<seq<Sub>>, picks: seq<nat>): seq<nat> {
    seq(|qs|, k requires 0 <= k < |qs| => Choose(qs[k], picks, k))
  }

  function Ids(subs: seq<Sub>): seq<nat> {
    seq(|subs|, k requires 0 <= k < |subs| => subs[k].id)
  }

  /** Every plain subscription, then one of each queue group. */
  function Targets(r: Result, picks: seq<nat>): seq<nat> {
    Ids(r.psubs) + Pick(r.qsubs, picks)
  }

  datatype Action =
    | DoConnect(cid: nat)
    | DoSub(cid: nat, subject: string, queue: Option<string>, sid: string)
    | DoUnsub(cid: nat, sid: string, max: int)
    | DoPublish(cid: nat, subject: string, evicted: string, dropped: set<string>, picks: seq<nat>, fates: seq<Fate>)
    | DoClose(cid: nat, hint: seq<string>)

  ghost function Publish(s: Server, a: Action): Server
    requires a.DoPublish?
  {
    var r := Used(s.sys, a.cid, a.subject);
    var sys := M.Step(M.Step(s.sys, M.OpLoad(a.cid)), M.OpFill(a.cid, a.subject, a.evicted, a.dropped));
    DeliverAll(s.(sys := sys), Targets(r, a.picks), a.fates)
  }

  ghost function Next(s: Server, a: Action): Server {
    match a
    case DoConnect(cid) => Connect(s, cid)
    case DoSub(cid, subject, queue, sid) => Subscribe(s, cid, subject, queue, sid)
    case DoUnsub(cid, sid, max) => ProcessUnsub(s, cid, sid, max)
    case DoPublish(_, _, _, _, _, _) => Publish(s, a)
    case DoClose(cid, hint) => CloseConn(s, cid, hint)
  }

  ghost function After(run: seq<Action>): Server {
    if run == [] then NEW_SERVER else Next(After(run[..|run| - 1]), run[|run| - 1])
  }

  // ---------- the invariant ----------

  /** Subscription `i` is in the map of an open client. */
  ghost predicate LiveId(objs: seq<Subscription>, clients: map<nat, Client>, i: nat) {
    && i < |objs| && objs[i].cid in clients && clients[objs[i].cid].open
    && objs[i].sid in clients[objs[i].cid].subs && clients[objs[i].cid].subs[objs[i].sid] == i
  }

  ghost predicate Held(objs: seq<Subscription>, clients: map<nat, Client>, x: Sub) {
    LiveId(objs, clients, x.id) && objs[x.id].sub == x
  }

  /** The index holds exactly the subscriptions of open clients, each once. */
  ghost predicate LiveOk(live: multiset<Sub>, objs: seq<Subscription>, clients: map<nat, Client>) {
    forall x :: live[x] == if Held(objs, clients, x) then 1 else 0
  }

  /** Entry `sid` of client `c` names a subscription of that client with that sid. */
  ghost predicate Names(objs: seq<Subscription>, c: nat, sid: string, id: nat) {
    id < |objs| && objs[id].cid == c && objs[id].sid == sid
  }

  ghost predicate ClientOk(objs: seq<Subscription>, c: nat, subs: map<string, nat>) {
    forall sid :: sid in subs ==> Names(objs, c, sid, subs[sid])
  }

  ghost predicate BooksOk(objs: seq<Subscription>, clients: map<nat, Client>) {
    && (forall i :: 0 <= i < |objs| ==> objs[i].sub.id == i && objs[i].cid in clients)
    && (forall c :: c in clients ==> ClientOk(objs, c, clients[c].subs))
  }

  /** A live subscription with a limit has received fewer messages than its limit. */
  ghost predicate LimitsOk(objs: seq<Subscription>, clients: map<nat, Client>) {
    forall i :: 0 <= i < |objs| && LiveId(objs, clients, i) && objs[i].max > 0 ==> objs[i].nm < objs[i].max
  }

  ghost predicate SentOk(objs: seq<Subscription>, e: Sent) {
    e.id < |objs| && e.nm <= objs[e.id].nm && (e.max == 0 || e.nm <= e.max)
  }

  /** Nothing is sent beyond a limit, and no message of a subscription is sent twice. */
  ghost predicate LogOk(objs: seq<Subscription>, log: seq<Sent>) {
    && (forall k :: 0 <= k < |log| ==> SentOk(objs, log[k]))
    && (forall j, k :: 0 <= j < k < |log| && log[j].id == log[k].id ==> log[j].nm < log[k].nm)
  }

  ghost predicate EverOk(objs: seq<Subscription>, ever: set<Sub>) {
    forall x :: x in ever ==> x.id < |objs| && objs[x.id].sub == x && ValidSubject(x.subject)
  }

  ghost predicate Inv(s: Server) {
    && BooksOk(s.objs, s.clients) && LimitsOk(s.objs, s.clients) && LogOk(s.objs, s.log)
    && LiveOk(s.sys.index.live, s.objs, s.clients)
    && EverOk(s.objs, s.sys.index.ever) && M.Inv(s.sys)
  }

  // ---------- what the index does ----------

  lemma StepInsert(sys: M.System, sub: Sub)
    requires M.Inv(sys)
    ensures var t := M.Step(sys, M.OpInsert(sub));
            var ok := Trie.Insert(sys.index.root, Split(sub.subject), false, sub).ok;
            && M.Inv(t) && (ok <==> ValidSubject(sub.subject))
            && t.index.live == (if ok then sys.index.live + multiset{sub} else sys.index.live)
            && t.index.ever == (if ok then sys.index.ever + {sub} else sys.index.ever)
  {
    M.StepKeeps(sys, M.OpInsert(sub));
    Trie.InsertOk(sys.index.root, Split(sub.subject), false, sub);
  }

  lemma StepRemove(sys: M.System, sub: Sub)
    requires M.Inv(sys)
    ensures var t := M.Step(sys, M.OpRemove(sub));
            M.Inv(t) && t.index.live == sys.index.live - multiset{sub} && t.index.ever == sys.index.ever
  {
    M.StepKeeps(sys, M.OpRemove(sub));
    M.RemoveExactly(sys.index.root, sys.index.live, sub);
  }

  lemma {:induction false} RemoveAllLive(sys: M.System, subs: seq<Sub>)
    requires M.Inv(sys) && forall x :: sys.index.live[x] <= 1
    ensures var t := RemoveAll(sys, subs);
            && M.Inv(t) && t.index.ever == sys.index.ever
            && forall x :: t.index.live[x] == if x in subs then 0 else sys.index.live[x]
    decreases |subs|
  {
    if subs != [] {
      StepRemove(sys, subs[0]);
      RemoveAllLive(M.Step(sys, M.OpRemove(subs[0])), subs[1..]);
    }
  }

  // ---------- every step keeps the invariant ----------

  /** No other subscription has taken over the sid of `i`. */
  ghost predicate Safe(objs: seq<Subscription>, clients: map<nat, Client>, i: nat) {
    && i < |objs|
    && (objs[i].cid in clients && clients[objs[i].cid].open && objs[i].sid in clients[objs[i].cid].subs
        ==> clients[objs[i].cid].subs[objs[i].sid] == i)
  }

  ghost predicate LimitsBut(objs: seq<Subscription>, clients: map<nat, Client>, id: nat) {
    forall i :: 0 <= i < |objs| && i != id && LiveId(objs, clients, i) && objs[i].max > 0 ==> objs[i].nm < objs[i].max
  }

  /** The invariant, but for the limit of `id`. */
  ghost predicate Almost(s: Server, id: nat) {
    && BooksOk(s.objs, s.clients) && LimitsBut(s.objs, s.clients, id) && LogOk(s.objs, s.log)
    && LiveOk(s.sys.index.live, s.objs, s.clients)
    && EverOk(s.objs, s.sys.index.ever) && M.Inv(s.sys)
  }

  lemma ForgetBooks(objs: seq<Subscription>, clients: map<nat, Client>, id: nat)
    requires BooksOk(objs, clients) && id < |objs|
    ensures BooksOk(objs, Forget(clients, objs[id].cid, objs[id].sid))
  {
    var after := Forget(clients, objs[id].cid, objs[id].sid);
    forall c | c in after ensures ClientOk(objs, c, after[c].subs) {
      assert ClientOk(objs, c, clients[c].subs);
    }
  }

  lemma ForgetLiveId(objs: seq<Subscription>, clients: map<nat, Client>, id: nat, i: nat)
    requires id < |objs| && objs[id].cid in clients
    ensures LiveId(objs, Forget(clients, objs[id].cid, objs[id].sid), i)
            <==> LiveId(objs, clients, i) && !(objs[i].cid == objs[id].cid && objs[i].sid == objs[id].sid)
  {
  }

  lemma ForgetLive(live: multiset<Sub>, objs: seq<Subscription>, clients: map<nat, Client>, id: nat)
    requires BooksOk(objs, clients) && LiveOk(live, objs, clients) && Safe(objs, clients, id)
    ensures LiveOk(live - multiset{objs[id].sub}, objs, Forget(clients, objs[id].cid, objs[id].sid))
  {
    forall x ensures (live - multiset{objs[id].sub})[x]
                     == if Held(objs, Forget(clients, objs[id].cid, objs[id].sid), x) then 1 else 0 {
      ForgetLiveId(objs, clients, id, x.id);
      assert live[x] == if Held(objs, clients, x) then 1 else 0;
      assert live[objs[id].sub] == if Held(objs, clients, objs[id].sub) then 1 else 0;
    }
  }

  lemma UnsubscribeKeeps(s: Server, id: nat)
    requires Almost(s, id) && Safe(s.objs, s.clients, id)
    ensures Inv(Unsubscribe(s, id))
  {
    var o := s.objs[id];
    if !(o.max > 0 && o.nm < o.max) {
      StepRemove(s.sys, o.sub);
      ForgetBooks(s.objs, s.clients, id);
      ForgetLive(s.sys.index.live, s.objs, s.clients, id);
      forall i | 0 <= i < |s.objs| && LiveId(s.objs, Forget(s.clients, o.cid, o.sid), i) && s.objs[i].max > 0
        ensures s.objs[i].nm < s.objs[i].max {
        ForgetLiveId(s.objs, s.clients, id, i);
      }
    }
  }

  /** Same subscription, client and sid: only counters differ. */
  predicate SameNames(o: Subscription, p: Subscription) {
    o.sub == p.sub && o.cid == p.cid && o.sid == p.sid
  }

  lemma TouchLive(objs: seq<Subscription>, clients: map<nat, Client>, id: nat, o: Subscription)
    requires id < |objs| && SameNames(o, objs[id])
    ensures forall i :: LiveId(objs[id := o], clients, i) <==> LiveId(objs, clients, i)
    ensures forall x :: Held(objs[id := o], clients, x) <==> Held(objs, clients, x)
    ensures forall i :: Safe(objs, clients, i) ==> Safe(objs[id := o], clients, i)
  {
  }

  lemma TouchBooks(objs: seq<Subscription>, clients: map<nat, Client>, id: nat, o: Subscription)
    requires BooksOk(objs, clients) && id < |objs| && SameNames(o, objs[id])
    ensures BooksOk(objs[id := o], clients)
  {
    forall c | c in clients ensures ClientOk(objs[id := o], c, clients[c].subs) {
      assert ClientOk(objs, c, clients[c].subs);
    }
  }

  lemma TouchLog(objs: seq<Subscription>, id: nat, o: Subscription, log: seq<Sent>)
    requires LogOk(objs, log) && id < |objs| && o.nm >= objs[id].nm
    ensures LogOk(objs[id := o], log)
  {
    forall k | 0 <= k < |log| ensures SentOk(objs[id := o], log[k]) {
      assert SentOk(objs, log[k]);
    }
  }

  /** Counting a message or setting a limit concerns that subscription's limit only. */
  lemma TouchKeeps(s: Server, id: nat, o: Subscription)
    requires Almost(s, id) && id < |s.objs| && SameNames(o, s.objs[id]) && o.nm >= s.objs[id].nm
    ensures Almost(s.(objs := s.objs[id := o]), id)
    ensures forall i :: Safe(s.objs, s.clients, i) ==> Safe(s.objs[id := o], s.clients, i)
  {
    TouchLive(s.objs, s.clients, id, o);
    TouchBooks(s.objs, s.clients, id, o);
    TouchLog(s.objs, id, o, s.log);
  }

  lemma CloseLive(live: multiset<Sub>, left: multiset<Sub>, gone: seq<Sub>, objs: seq<Subscription>,
                  clients: map<nat, Client>, cid: nat)
    requires BooksOk(objs, clients) && LiveOk(live, objs, clients) && cid in clients && clients[cid].open
    requires forall x :: x in gone <==> exists k :: k in clients[cid].subs && objs[clients[cid].subs[k]].sub == x
    requires forall x :: left[x] == if x in gone then 0 else live[x]
    ensures LiveOk(left, objs, clients[cid := clients[cid].(open := false)])
  {
    var after := clients[cid := clients[cid].(open := false)];
    assert ClientOk(objs, cid, clients[cid].subs);
    forall x ensures left[x] == if Held(objs, after, x) then 1 else 0 {
      assert live[x] == if Held(objs, clients, x) then 1 else 0;
      if Held(objs, clients, x) {
        assert x in gone <==> objs[x.id].cid == cid;
      }
    }
  }

  lemma CloseBooks(objs: seq<Subscription>, clients: map<nat, Client>, cid: nat)
    requires BooksOk(objs, clients) && cid in clients
    ensures BooksOk(objs, clients[cid := clients[cid].(open := false)])
  {
    var after := clients[cid := clients[cid].(open := false)];
    forall d | d in after ensures ClientOk(objs, d, after[d].subs) {
      assert ClientOk(objs, d, clients[d].subs);
    }
  }

  lemma CloseLimits(objs: seq<Subscription>, clients: map<nat, Client>, cid: nat, id: nat)
    requires LimitsBut(objs, clients, id) && cid in clients
    ensures LimitsBut(objs, clients[cid := clients[cid].(open := false)], id)
  {
    var after := clients[cid := clients[cid].(open := false)];
    assert forall i :: LiveId(objs, after, i) ==> LiveId(objs, clients, i);
  }

  /** The subscriptions of the client, in the order they leave the index. */
  ghost function Leaving(s: Server, cid: nat, hint: seq<string>): seq<Sub>
    requires cid in s.clients && ClientOk(s.objs, cid, s.clients[cid].subs)
  {
    Named(s.objs, s.clients[cid].subs, Order(hint, s.clients[cid].subs.Keys))
  }

  lemma CloseConnIs(s: Server, cid: nat, hint: seq<string>)
    requires cid in s.clients && s.clients[cid].open && ClientOk(s.objs, cid, s.clients[cid].subs)
    ensures CloseConn(s, cid, hint)
         == Server(RemoveAll(s.sys, Leaving(s, cid, hint)), s.objs,
             s.clients[cid := s.clients[cid].(open := false)], s.log)
  {
    var subs := s.clients[cid].subs;
    assert !exists k :: k in subs && subs[k] >= |s.objs|;
  }

  lemma LeavingAre(s: Server, cid: nat, hint: seq<string>)
    requires cid in s.clients && ClientOk(s.objs, cid, s.clients[cid].subs)
    ensures forall x :: x in Leaving(s, cid, hint) <==>
              exists k :: k in s.clients[cid].subs && s.objs[s.clients[cid].subs[k]].sub == x
  {
  }

  lemma CloseKeeps(s: Server, cid: nat, hint: seq<string>, id: nat)
    requires Almost(s, id)
    ensures Almost(CloseConn(s, cid, hint), id)
  {
    if cid in s.clients && s.clients[cid].open {
      assert ClientOk(s.objs, cid, s.clients[cid].subs);
      var gone := Leaving(s, cid, hint);
      CloseConnIs(s, cid, hint);
      LeavingAre(s, cid, hint);
      RemoveAllLive(s.sys, gone);
      CloseLive(s.sys.index.live, RemoveAll(s.sys, gone).index.live, gone, s.objs, s.clients, cid);
      CloseBooks(s.objs, s.clients, cid);
      CloseLimits(s.objs, s.clients, cid, id);
    }
  }

  lemma SubscribeLive(live: multiset<Sub>, objs: seq<Subscription>, clients: map<nat, Client>, o: Subscription)
    requires BooksOk(objs, clients) && LiveOk(live, objs, clients)
    requires o.cid in clients && clients[o.cid].open && o.sid !in clients[o.cid].subs && o.sub.id == |objs|
    ensures var c := clients[o.cid];
            LiveOk(live + multiset{o.sub}, objs + [o], clients[o.cid := c.(subs := c.subs[o.sid := |objs|])])
    ensures LiveOk(live, objs + [o], clients)
  {
    var c := clients[o.cid];
    assert ClientOk(objs, o.cid, c.subs);
    var after := clients[o.cid := c.(subs := c.subs[o.sid := |objs|])];
    forall i ensures LiveId(objs + [o], after, i) <==> LiveId(objs, clients, i) || i == |objs| {
    }
    forall i ensures LiveId(objs + [o], clients, i) <==> LiveId(objs, clients, i) {
    }
    forall x ensures (live + multiset{o.sub})[x] == if Held(objs + [o], after, x) then 1 else 0 {
      assert live[x] == if Held(objs, clients, x) then 1 else 0;
    }
    forall x ensures live[x] == if Held(objs + [o], clients, x) then 1 else 0 {
      assert live[x] == if Held(objs, clients, x) then 1 else 0;
    }
  }

  lemma SubscribeBooks(objs: seq<Subscription>, clients: map<nat, Client>, o: Subscription)
    requires BooksOk(objs, clients) && o.cid in clients && o.sub.id == |objs|
    ensures var c := clients[o.cid];
            BooksOk(objs + [o], clients[o.cid := c.(subs := c.subs[o.sid := |objs|])])
    ensures BooksOk(objs + [o], clients)
  {
    var c := clients[o.cid];
    var after := clients[o.cid := c.(subs := c.subs[o.sid := |objs|])];
    forall d | d in clients ensures ClientOk(objs + [o], d, after[d].subs) && ClientOk(objs + [o], d, clients[d].subs) {
      assert ClientOk(objs, d, clients[d].subs);
    }
  }

  lemma SubscribeLimits(objs: seq<Subscription>, clients: map<nat, Client>, o: Subscription)
    requires LimitsOk(objs, clients) && o.cid in clients && o.max == 0
    ensures var c := clients[o.cid];
            LimitsOk(objs + [o], clients[o.cid := c.(subs := c.subs[o.sid := |objs|])])
    ensures LimitsOk(objs + [o], clients)
  {
    var c := clients[o.cid];
    var after := clients[o.cid := c.(subs := c.subs[o.sid := |objs|])];
    assert forall i :: 0 <= i < |objs| && LiveId(objs + [o], after, i) ==> LiveId(objs, clients, i);
    assert forall i :: 0 <= i < |objs| && LiveId(objs + [o], clients, i) ==> LiveId(objs, clients, i);
  }

  lemma SubscribeHistory(objs: seq<Subscription>, o: Subscription, log: seq<Sent>, ever: set<Sub>)
    requires LogOk(objs, log) && EverOk(objs, ever) && o.sub.id == |objs|
    ensures LogOk(objs + [o], log) && EverOk(objs + [o], ever)
    ensures ValidSubject(o.sub.subject) ==> EverOk(objs + [o], ever + {o.sub})
  {
    forall k | 0 <= k < |log| ensures SentOk(objs + [o], log[k]) {
      assert SentOk(objs, log[k]);
    }
  }

  lemma SubscribeKeeps(s: Server, cid: nat, subject: string, queue: Option<string>, sid: string)
    requires Inv(s)
    ensures Inv(Subscribe(s, cid, subject, queue, sid))
  {
    if cid in s.clients && s.clients[cid].open && sid !in s.clients[cid].subs {
      var sub := Sub(|s.objs|, subject, queue);
      var o := Subscription(sub, cid, sid, 0, 0);
      StepInsert(s.sys, sub);
      SubscribeBooks(s.objs, s.clients, o);
      SubscribeLive(s.sys.index.live, s.objs, s.clients, o);
      SubscribeLimits(s.objs, s.clients, o);
      SubscribeHistory(s.objs, o, s.log, s.sys.index.ever);
    }
  }

  lemma ProcessUnsubKeeps(s: Server, cid: nat, sid: string, max: int)
    requires Inv(s)
    ensures Inv(ProcessUnsub(s, cid, sid, max))
  {
    if cid in s.clients && sid in s.clients[cid].subs {
      assert ClientOk(s.objs, cid, s.clients[cid].subs);
      var id := s.clients[cid].subs[sid];
      var o := s.objs[id].(max := if max > 0 then max else 0);
      TouchKeeps(s, id, o);
      UnsubscribeKeeps(s.(objs := s.objs[id := o]), id);
    }
  }

  /** No message with the present count of `id` has been sent yet. */
  ghost predicate Unsent(s: Server, id: nat) {
    id < |s.objs| && forall k :: 0 <= k < |s.log| && s.log[k].id == id ==> s.log[k].nm < s.objs[id].nm
  }

  lemma SendLog(s: Server, id: nat)
    requires LogOk(s.objs, s.log) && Unsent(s, id) && (s.objs[id].max == 0 || s.objs[id].nm <= s.objs[id].max)
    ensures LogOk(s.objs, s.log + [Sent(id, s.objs[id].nm, s.objs[id].max)])
  {
    var log := s.log + [Sent(id, s.objs[id].nm, s.objs[id].max)];
    assert forall k :: 0 <= k < |s.log| ==> log[k] == s.log[k];
  }

  lemma WriteToKeeps(s: Server, id: nat, fate: Fate)
    requires Almost(s, id) && Unsent(s, id) && (s.objs[id].max == 0 || s.objs[id].nm <= s.objs[id].max)
    ensures Almost(WriteTo(s, id, fate), id)
  {
    var o := s.objs[id];
    if IsOpen(s, o.cid) {
      match fate
      case Written =>
        SendLog(s, id);
      case Failed =>
      case TimedOut(hint) =>
        CloseKeeps(s, o.cid, hint, id);
    }
  }

  /** Deliveries only ever take entries away. */
  ghost predicate Shrinks(s: Server, t: Server) {
    && |t.objs| == |s.objs|
    && (forall i :: 0 <= i < |s.objs| ==> t.objs[i].cid == s.objs[i].cid && t.objs[i].sid == s.objs[i].sid)
    && (forall c :: c in t.clients ==> Less(s.clients, t.clients, c))
  }

  ghost predicate Less(s: map<nat, Client>, t: map<nat, Client>, c: nat)
    requires c in t
  {
    && c in s && (t[c].open ==> s[c].open)
    && (forall k :: k in t[c].subs ==> k in s[c].subs && t[c].subs[k] == s[c].subs[k])
  }

  lemma SafeShrinks(s: Server, t: Server, i: nat)
    requires Shrinks(s, t) && Safe(s.objs, s.clients, i)
    ensures Safe(t.objs, t.clients, i)
  {
    if t.objs[i].cid in t.clients {
      assert Less(s.clients, t.clients, t.objs[i].cid);
    }
  }

  lemma ShrinksTrans(s: Server, t: Server, u: Server)
    requires Shrinks(s, t) && Shrinks(t, u)
    ensures Shrinks(s, u)
  {
    forall c | c in u.clients ensures Less(s.clients, u.clients, c) {
      assert Less(t.clients, u.clients, c);
      assert Less(s.clients, t.clients, c);
    }
  }

  lemma CountedShrinks(s: Server, id: nat)
    requires id < |s.objs|
    ensures Shrinks(s, Counted(s, id))
  {
  }

  lemma UnsubscribeShrinks(s: Server, id: nat)
    requires id < |s.objs|
    ensures Shrinks(s, Unsubscribe(s, id))
  {
  }

  lemma WriteToShrinks(s: Server, id: nat, fate: Fate)
    requires id < |s.objs|
    ensures Shrinks(s, WriteTo(s, id, fate))
  {
  }

  lemma DeliverShrinks(s: Server, id: nat, fate: Fate)
    requires id < |s.objs|
    ensures Shrinks(s, Deliver(s, id, fate))
  {
    var t := Counted(s, id);
    CountedShrinks(s, id);
    UnsubscribeShrinks(t, id);
    WriteToShrinks(t, id, fate);
    UnsubscribeShrinks(WriteTo(t, id, fate), id);
    ShrinksTrans(t, WriteTo(t, id, fate), Unsubscribe(WriteTo(t, id, fate), id));
    ShrinksTrans(s, t, HandOver(t, id, fate));
  }

  lemma InvAlmost(s: Server, id: nat)
    requires Inv(s)
    ensures Almost(s, id)
  {
  }

  lemma CountedUnsent(s: Server, id: nat)
    requires LogOk(s.objs, s.log) && id < |s.objs|
    ensures Unsent(Counted(s, id), id)
  {
    assert forall k :: 0 <= k < |s.log| ==> SentOk(s.objs, s.log[k]);
  }

  lemma CountedKeeps(s: Server, id: nat)
    requires Inv(s) && Safe(s.objs, s.clients, id)
    ensures var t := Counted(s, id); Almost(t, id) && Unsent(t, id) && Safe(t.objs, t.clients, id)
  {
    InvAlmost(s, id);
    TouchKeeps(s, id, s.objs[id].(nm := s.objs[id].nm + 1));
    CountedUnsent(s, id);
  }

  lemma WriteToSafe(s: Server, id: nat, fate: Fate)
    requires Safe(s.objs, s.clients, id)
    ensures Safe(WriteTo(s, id, fate).objs, WriteTo(s, id, fate).clients, id)
  {
  }

  lemma HandOverKeeps(s: Server, id: nat, fate: Fate)
    requires Almost(s, id) && Unsent(s, id) && Safe(s.objs, s.clients, id)
    ensures Inv(HandOver(s, id, fate))
  {
    var o := s.objs[id];
    if o.max > 0 && o.nm > o.max {
      UnsubscribeKeeps(s, id);
    } else {
      WriteToKeeps(s, id, fate);
      if o.max > 0 && o.nm == o.max {
        WriteToSafe(s, id, fate);
        UnsubscribeKeeps(WriteTo(s, id, fate), id);
      }
    }
  }

  lemma DeliverKeeps(s: Server, id: nat, fate: Fate)
    requires Inv(s) && Safe(s.objs, s.clients, id)
    ensures Inv(Deliver(s, id, fate))
  {
    CountedKeeps(s, id);
    HandOverKeeps(Counted(s, id), id, fate);
  }

  lemma {:induction false} DeliverAllKeeps(s: Server, ids: seq<nat>, fates: seq<Fate>)
    requires Inv(s) && forall k :: 0 <= k < |ids| ==> Safe(s.objs, s.clients, ids[k])
    ensures Inv(DeliverAll(s, ids, fates))
    decreases |ids|
  {
    if ids != [] {
      var fate := if fates == [] then Written else fates[0];
      assert Safe(s.objs, s.clients, ids[0]);
      DeliverKeeps(s, ids[0], fate);
      DeliverShrinks(s, ids[0], fate);
      var t := Deliver(s, ids[0], fate);
      forall k | 0 <= k < |ids[1..]| ensures Safe(t.objs, t.clients, ids[1..][k]) {
        SafeShrinks(s, t, ids[k + 1]);
      }
      DeliverAllKeeps(t, ids[1..], if fates == [] then [] else fates[1..]);
    }
  }

  // ---------- publishing ----------

  lemma {:induction false} QTotalHas(qs: seq<seq<Sub>>, g: nat, x: Sub)
    requires g < |qs| && x in qs[g]
    ensures QTotal(qs, x) > 0
  {
    if g > 0 {
      QTotalHas(qs[1..], g - 1, x);
    }
  }

  /** Messages go to members of the result only. */
  lemma TargetsIn(r: Result, picks: seq<nat>, k: nat)
    requires Grouped(r) && k < |Targets(r, picks)|
    ensures exists x :: Total(r, x) > 0 && x.id == Targets(r, picks)[k]
  {
    var n := |r.psubs|;
    if k < n {
      assert Total(r, r.psubs[k]) > 0;
    } else {
      var g := r.qsubs[k - n];
      assert GroupOk(g);
      var x := g[(if k - n < |picks| then picks[k - n] else 0) % |g|];
      QTotalHas(r.qsubs, k - n, x);
      assert Total(r, x) > 0;
    }
  }

  lemma UsedRight(sys: M.System, cid: nat, subject: string)
    requires M.Inv(sys)
    ensures M.Right(Used(sys, cid, subject), sys.index.live, sys.index.ever, subject)
  {
    M.StepKeeps(sys, M.OpLoad(cid));
    var t := M.Load(sys, cid);
    if subject in t.clients[cid].results {
      assert M.ClientOk(t.clients[cid], t.index);
    } else {
      M.MatchValid(t.index, subject, subject);
    }
  }

  lemma TwoSteps(sys: M.System, a: M.Op, b: M.Op)
    requires M.Inv(sys)
    ensures M.Inv(M.Step(M.Step(sys, a), b))
  {
    M.StepKeeps(sys, a);
    M.StepKeeps(M.Step(sys, a), b);
  }

  lemma LookupSame(sys: M.System, cid: nat, subject: string, evicted: string, dropped: set<string>)
    ensures var t := M.Step(M.Step(sys, M.OpLoad(cid)), M.OpFill(cid, subject, evicted, dropped));
            t.index.live == sys.index.live && t.index.ever == sys.index.ever
  {
  }

  lemma SwapSys(s: Server, sys: M.System)
    requires Inv(s) && M.Inv(sys) && sys.index.live == s.sys.index.live && sys.index.ever == s.sys.index.ever
    ensures Inv(s.(sys := sys))
  {
  }

  lemma LookupKeeps(s: Server, a: Action)
    requires Inv(s) && a.DoPublish?
    ensures var sys := M.Step(M.Step(s.sys, M.OpLoad(a.cid)), M.OpFill(a.cid, a.subject, a.evicted, a.dropped));
            Inv(s.(sys := sys)) && sys.index.live == s.sys.index.live
  {
    TwoSteps(s.sys, M.OpLoad(a.cid), M.OpFill(a.cid, a.subject, a.evicted, a.dropped));
    LookupSame(s.sys, a.cid, a.subject, a.evicted, a.dropped);
    SwapSys(s, M.Step(M.Step(s.sys, M.OpLoad(a.cid)), M.OpFill(a.cid, a.subject, a.evicted, a.dropped)));
  }

  /** No subscription has a subject that the byte-level test misses for `literal`. */
  ghost predicate Seen(objs: seq<Subscription>, literal: string) {
    forall i :: 0 <= i < |objs| && ValidSubject(objs[i].sub.subject) ==> !M.Missed(objs[i].sub, literal)
  }

  lemma UsedSafe(s: Server, a: Action, k: nat)
    requires Inv(s) && a.DoPublish? && Seen(s.objs, a.subject)
    requires k < |Targets(Used(s.sys, a.cid, a.subject), a.picks)|
    ensures Safe(s.objs, s.clients, Targets(Used(s.sys, a.cid, a.subject), a.picks)[k])
  {
    var r := Used(s.sys, a.cid, a.subject);
    UsedRight(s.sys, a.cid, a.subject);
    TargetsIn(r, a.picks, k);
    var x :| Total(r, x) > 0 && x.id == Targets(r, a.picks)[k];
    assert x in s.sys.index.live;
    assert Held(s.objs, s.clients, x);
  }

  lemma PublishKeeps(s: Server, a: Action)
    requires Inv(s) && a.DoPublish? && Seen(s.objs, a.subject)
    ensures Inv(Publish(s, a))
  {
    LookupKeeps(s, a);
    var sys := M.Step(M.Step(s.sys, M.OpLoad(a.cid)), M.OpFill(a.cid, a.subject, a.evicted, a.dropped));
    var ids := Targets(Used(s.sys, a.cid, a.subject), a.picks);
    forall k | 0 <= k < |ids| ensures Safe(s.objs, s.clients, ids[k]) {
      UsedSafe(s, a, k);
    }
    DeliverAllKeeps(s.(sys := sys), ids, a.fates);
  }

  lemma ConnectKeeps(s: Server, cid: nat)
    requires Inv(s)
    ensures Inv(Connect(s, cid))
  {
    var t := Connect(s, cid);
    assert forall i :: LiveId(s.objs, t.clients, i) <==> LiveId(s.objs, s.clients, i);
    assert forall x :: Held(s.objs, t.clients, x) <==> Held(s.objs, s.clients, x);
    forall c | c in t.clients ensures ClientOk(s.objs, c, t.clients[c].subs) {
      if c in s.clients {
        assert ClientOk(s.objs, c, s.clients[c].subs);
      }
    }
  }

  // ---------- every run ----------

  /** What a run may do: subscribe to subjects in `ss`, publish to subjects in `ls`. */
  ghost predicate Uses(run: seq<Action>, ss: iset<string>, ls: iset<string>) {
    forall i :: 0 <= i < |run| ==>
      (run[i].DoSub? ==> run[i].subject in ss) && (run[i].DoPublish? ==> run[i].subject in ls)
  }

  /** Whenever the trie finds that a published subject matches, so does the byte-level test. */
  ghost predicate NoneMissed(ss: iset<string>, ls: iset<string>) {
    forall s, l :: s in ss && l in ls && ValidSubject(s) && TokensMatch(l, s) ==> MatchRest(l, s)
  }

  ghost predicate SubjectsIn(objs: seq<Subscription>, ss: iset<string>) {
    forall i :: 0 <= i < |objs| ==> objs[i].sub.subject in ss
  }

  /** A step by a client other than a publish. */
  lemma ClientStepKeeps(s: Server, a: Action)
    requires Inv(s) && !a.DoPublish? && !a.DoClose?
    ensures Inv(Next(s, a))
  {
    if a.DoConnect? {
      ConnectKeeps(s, a.cid);
    } else if a.DoSub? {
      SubscribeKeeps(s, a.cid, a.subject, a.queue, a.sid);
    } else {
      ProcessUnsubKeeps(s, a.cid, a.sid, a.max);
    }
  }

  lemma NextKeeps(s: Server, a: Action)
    requires Inv(s) && (a.DoPublish? ==> Seen(s.objs, a.subject))
    ensures Inv(Next(s, a))
  {
    if a.DoPublish? {
      PublishKeeps(s, a);
    } else if a.DoClose? {
      CloseInv(s, a.cid, a.hint);
    } else {
      ClientStepKeeps(s, a);
    }
  }

  lemma CloseInv(s: Server, cid: nat, hint: seq<string>)
    requires Inv(s)
    ensures Inv(CloseConn(s, cid, hint))
  {
    InvAlmost(s, |s.objs|);
    CloseKeeps(s, cid, hint, |s.objs|);
  }

  lemma {:induction false} DeliverAllObjs(s: Server, ids: seq<nat>, fates: seq<Fate>, ss: iset<string>)
    requires SubjectsIn(s.objs, ss)
    ensures SubjectsIn(DeliverAll(s, ids, fates).objs, ss)
    decreases |ids|
  {
    if ids != [] {
      var t := if ids[0] < |s.objs| then Deliver(s, ids[0], if fates == [] then Written else fates[0]) else s;
      DeliverAllObjs(t, ids[1..], if fates == [] then [] else fates[1..], ss);
    }
  }

  lemma NextObjs(s: Server, a: Action, ss: iset<string>)
    requires SubjectsIn(s.objs, ss) && (a.DoSub? ==> a.subject in ss)
    ensures SubjectsIn(Next(s, a).objs, ss)
  {
    if a.DoPublish? {
      var sys := M.Step(M.Step(s.sys, M.OpLoad(a.cid)), M.OpFill(a.cid, a.subject, a.evicted, a.dropped));
      DeliverAllObjs(s.(sys := sys), Targets(Used(s.sys, a.cid, a.subject), a.picks), a.fates, ss);
    }
  }

  lemma {:induction false} RunKeeps(run: seq<Action>, ss: iset<string>, ls: iset<string>)
    requires Uses(run, ss, ls) && NoneMissed(ss, ls)
    ensures Inv(After(run)) && SubjectsIn(After(run).objs, ss)
    decreases |run|
  {
    if run != [] {
      var before, a := run[..|run| - 1], run[|run| - 1];
      assert forall i :: 0 <= i < |before| ==> before[i] == run[i];
      RunKeeps(before, ss, ls);
      var s := After(before);
      NextKeeps(s, a);
      NextObjs(s, a, ss);
    }
  }

  /** What the books promise: the index holds exactly the subscriptions of open clients, one per
      client and sid; live limits are not reached; nothing was sent beyond a limit or twice. */
  ghost predicate Promised(s: Server) {
    && LiveOk(s.sys.index.live, s.objs, s.clients) && LimitsOk(s.objs, s.clients) && LogOk(s.objs, s.log)
  }

  // ---------- a missed match breaks the books ----------

  /** Subscribe with a limit of one, use it up, subscribe again under the same sid, publish. */
  function BreakingRun(subject: string, literal: string): seq<Action> {
    var publish := DoPublish(0, literal, literal, {}, [], []);
    var subscribe := DoSub(0, subject, None, "1");
    [DoConnect(0), subscribe, DoUnsub(0, "1", 1), publish, subscribe, publish]
  }

  lemma CountAll(g: seq<Sub>, x: Sub)
    requires forall k :: 0 <= k < |g| ==> g[k] == x
    ensures Count(g, x) == |g|
    decreases |g|
  {
    if g != [] {
      assert g == [g[0]] + g[1..];
      CountAll(g[1..], x);
    }
  }

  lemma FirstMember(r: Result)
    requires r.qsubs != [] && GroupOk(r.qsubs[0])
    ensures Total(r, r.qsubs[0][0]) > 0
  {
    assert Count(r.qsubs[0], r.qsubs[0][0]) > 0;
  }

  lemma OneTarget(r: Result, x: Sub)
    requires Grouped(r) && x.queue == None && forall y :: Total(r, y) == if y == x then 1 else 0
    ensures Targets(r, []) == [x.id]
  {
    if r.qsubs != [] {
      FirstMember(r);
      assert false;
    }
    assert Total(r, x) == Count(r.psubs, x);
    forall k | 0 <= k < |r.psubs| ensures r.psubs[k] == x {
      assert Total(r, r.psubs[k]) > 0;
    }
    CountAll(r.psubs, x);
    assert r.psubs == [x];
  }

  /** Facts about the server after the first four steps: the limited subscription is used up and
      gone, but the cached result for `literal` still holds it. */
  ghost predicate UsedUp(s: Server, subject: string, literal: string, r: Result) {
    && s.objs == [Subscription(Sub(0, subject, None), 0, "1", 1, 1)]
    && s.clients == map[0 := Client(true, map[])]
    && M.Inv(s.sys) && s.sys.index.live == multiset{}
    && literal in s.sys.index.cache && s.sys.index.cache[literal] == r
    && 0 in s.sys.clients && s.sys.clients[0].genid < s.sys.index.genid
  }

  ghost predicate Limited(s: Server, subject: string) {
    && s.objs == [Subscription(Sub(0, subject, None), 0, "1", 0, 1)]
    && s.clients == map[0 := Client(true, map["1" := 0])]
    && M.Inv(s.sys) && s.sys.index.live == multiset{Sub(0, subject, None)}
    && s.sys.index.cache == map[] && s.sys.clients == map[]
  }

  lemma FirstSteps(run: seq<Action>)
    requires |run| >= 3 && run[0] == DoConnect(0) && run[1].DoSub? && run[2] == DoUnsub(0, "1", 1)
    ensures After(run[..3])
         == ProcessUnsub(Subscribe(Connect(NEW_SERVER, 0), run[1].cid, run[1].subject, run[1].queue, run[1].sid),
             0, "1", 1)
  {
    assert run[..3][..2] == run[..2] && run[..2][..1] == run[..1] && run[..1][..0] == [];
    assert After(run[..1]) == Connect(NEW_SERVER, 0);
  }

  lemma FirstSubscribed(subject: string)
    requires ValidSubject(subject)
    ensures var s := Subscribe(Connect(NEW_SERVER, 0), 0, subject, None, "1");
            var sub := Sub(0, subject, None);
            && s.objs == [Subscription(sub, 0, "1", 0, 0)] && s.clients == map[0 := Client(true, map["1" := 0])]
            && s.sys == M.Step(NEW_SERVER.sys, M.OpInsert(sub)) && s.log == []
  {
    var sub := Sub(0, subject, None);
    Trie.InsertOk(NEW_SERVER.sys.index.root, Split(subject), false, sub);
  }

  lemma FirstInserted(sub: Sub)
    requires ValidSubject(sub.subject)
    ensures var t := M.Step(NEW_SERVER.sys, M.OpInsert(sub));
            && M.Inv(t) && t.index.live == multiset{sub} && t.index.cache == map[] && t.clients == map[]
  {
    NewSystemOk();
    StepInsert(NEW_SERVER.sys, sub);
    assert NEW_SERVER.sys.index.live + multiset{sub} == multiset{sub};
  }

  lemma LimitedState(subject: string, literal: string)
    requires ValidSubject(subject)
    ensures Limited(After(BreakingRun(subject, literal)[..3]), subject)
  {
    FirstSteps(BreakingRun(subject, literal));
    FirstSubscribed(subject);
    FirstInserted(Sub(0, subject, None));
  }

  lemma NewSystemOk()
    ensures M.Inv(NEW_SERVER.sys)
  {
    M.RunCoherent([]);
  }

  lemma DeliverLast(s: Server, sub: Sub)
    requires s.objs == [Subscription(sub, 0, "1", 0, 1)] && s.clients == map[0 := Client(true, map["1" := 0])]
    ensures var t := DeliverAll(s, [0], []);
            && t.objs == [Subscription(sub, 0, "1", 1, 1)] && t.clients == map[0 := Client(true, map[])]
            && t.sys == M.Step(s.sys, M.OpRemove(sub))
  {
    assert [0][1..] == [];
    assert map["1" := 0] - {"1"} == map[];
    assert DeliverAll(s, [0], []) == Deliver(s, 0, Written);
  }

  lemma FirstLoad(sys: M.System)
    requires sys.clients == map[]
    ensures M.Step(sys, M.OpLoad(0)) == M.System(sys.index, map[0 := M.ReadCache(sys.index.genid, map[])])
  {
  }

  lemma FirstFill(index: M.Index, literal: string)
    requires index.cache == map[]
    ensures var s := M.System(index, map[0 := M.ReadCache(index.genid, map[])]);
      var t := M.Step(s, M.OpFill(0, literal, literal, {}));
      && t.index == index.(cache := map[literal := M.Answer(index.root, literal)])
      && 0 in t.clients && t.clients[0].genid == index.genid
  {
  }

  lemma FirstUse(sys: M.System, literal: string)
    requires sys.index.cache == map[] && sys.clients == map[]
    ensures Used(sys, 0, literal) == M.Answer(sys.index.root, literal)
  {
    FirstLoad(sys);
  }

  lemma FirstLookup(sys: M.System, literal: string)
    requires M.Inv(sys) && sys.index.cache == map[] && sys.clients == map[]
    ensures var t := M.Step(M.Step(sys, M.OpLoad(0)), M.OpFill(0, literal, literal, {}));
            && M.Inv(t) && t.index == sys.index.(cache := map[literal := M.Answer(sys.index.root, literal)])
            && 0 in t.clients && t.clients[0].genid == sys.index.genid
            && Used(sys, 0, literal) == M.Answer(sys.index.root, literal)
  {
    TwoSteps(sys, M.OpLoad(0), M.OpFill(0, literal, literal, {}));
    FirstLoad(sys);
    FirstFill(sys.index, literal);
    FirstUse(sys, literal);
  }

  /** Removing a subscription does not touch entries the byte-level test misses. */
  lemma MissedStays(sys: M.System, sub: Sub, literal: string)
    requires M.Inv(sys) && sub in sys.index.live && literal in sys.index.cache && !MatchRest(literal, sub.subject)
    ensures var t := M.Step(sys, M.OpRemove(sub));
            && literal in t.index.cache && t.index.cache[literal] == sys.index.cache[literal]
            && t.index.genid == sys.index.genid + 1 && t.clients == sys.clients
  {
    M.RemoveExactly(sys.index.root, sys.index.live, sub);
  }

  lemma UsedUpState(s: Server, subject: string, literal: string)
    requires Limited(s, subject) && ValidSubject(subject) && TokensMatch(literal, subject) &&
        !MatchRest(literal, subject)
    ensures var r := M.Answer(s.sys.index.root, literal);
            Targets(r, []) == [0] && UsedUp(Publish(s, DoPublish(0, literal, literal, {}, [], [])), subject, literal, r)
  {
    var sub := Sub(0, subject, None);
    M.AnswerExact(s.sys.index.root, s.sys.index.live, literal);
    OneTarget(M.Answer(s.sys.index.root, literal), sub);
    FirstLookup(s.sys, literal);
    var sys := M.Step(M.Step(s.sys, M.OpLoad(0)), M.OpFill(0, literal, literal, {}));
    DeliverLast(s.(sys := sys), sub);
    StepRemove(sys, sub);
    MissedStays(sys, sub, literal);
  }

  lemma StaleLookup(sys: M.System, literal: string)
    requires 0 in sys.clients && sys.clients[0].genid < sys.index.genid && literal in sys.index.cache
    ensures Used(sys, 0, literal) == sys.index.cache[literal]
    ensures M.Step(M.Step(sys, M.OpLoad(0)), M.OpFill(0, literal, literal, {})).index == sys.index
  {
  }

  /** The used-up subscription takes the entry of its successor with it. */
  lemma DeliverStale(s: Server, old0: Sub, new1: Sub)
    requires s.objs == [Subscription(old0, 0, "1", 1, 1), Subscription(new1, 0, "1", 0, 0)]
    requires s.clients == map[0 := Client(true, map["1" := 1])]
    ensures var t := DeliverAll(s, [0], []);
            t.clients == map[0 := Client(true, map[])] && t.sys == M.Step(s.sys, M.OpRemove(old0)) && |t.objs| == 2
  {
    assert [0][1..] == [];
    assert map["1" := 1] - {"1"} == map[];
    assert DeliverAll(s, [0], []) == Deliver(s, 0, Written);
  }

  /** Nor does inserting one. */
  lemma MissedUnchanged(sys: M.System, sub: Sub, literal: string)
    requires M.Inv(sys) && ValidSubject(sub.subject) && literal in sys.index.cache && !MatchRest(literal, sub.subject)
    ensures var t := M.Step(sys, M.OpInsert(sub));
            && literal in t.index.cache && t.index.cache[literal] == sys.index.cache[literal]
            && t.index.genid == sys.index.genid + 1 && t.clients == sys.clients
  {
    Trie.InsertOk(sys.index.root, Split(sub.subject), false, sub);
  }

  lemma SecondInsert(sys: M.System, second: Sub, literal: string, r: Result)
    requires M.Inv(sys) && sys.index.live == multiset{} && ValidSubject(second.subject) &&
        !MatchRest(literal, second.subject)
    requires literal in sys.index.cache && sys.index.cache[literal] == r
    requires 0 in sys.clients && sys.clients[0].genid < sys.index.genid
    ensures var t := M.Step(sys, M.OpInsert(second));
            && t.index.live == multiset{second} && literal in t.index.cache && t.index.cache[literal] == r
            && 0 in t.clients && t.clients[0].genid < t.index.genid
  {
    StepInsert(sys, second);
    MissedUnchanged(sys, second, literal);
    assert multiset{} + multiset{second} == multiset{second};
  }

  lemma Resubscribed(s: Server, first: Sub, second: Sub)
    requires s.objs == [Subscription(first, 0, "1", 1, 1)] && s.clients == map[0 := Client(true, map[])]
    requires M.Inv(s.sys) && ValidSubject(second.subject) && second.id == 1 && second.queue == None
    ensures var u := Subscribe(s, 0, second.subject, None, "1");
            && u.objs == [Subscription(first, 0, "1", 1, 1), Subscription(second, 0, "1", 0, 0)]
            && u.clients == map[0 := Client(true, map["1" := 1])]
            && u.sys == M.Step(s.sys, M.OpInsert(second))
  {
    Trie.InsertOk(s.sys.index.root, Split(second.subject), false, second);
  }

  lemma BrokenState(u: Server, sys: M.System, op: M.Op, first: Sub, second: Sub, literal: string)
    requires first.id == 0 && second.id == 1
    requires u.objs == [Subscription(first, 0, "1", 1, 1), Subscription(second, 0, "1", 0, 0)]
    requires u.clients == map[0 := Client(true, map["1" := 1])]
    requires M.Inv(sys) && u.sys == M.Step(sys, op) && u.sys.index.live == multiset{second}
    requires literal in u.sys.index.cache && Targets(u.sys.index.cache[literal], []) == [0]
    requires 0 in u.sys.clients && u.sys.clients[0].genid < u.sys.index.genid
    ensures var t := Publish(u, DoPublish(0, literal, literal, {}, [], []));
            t.sys.index.live[second] == 1 && !Held(t.objs, t.clients, second)
  {
    StaleLookup(u.sys, literal);
    M.StepKeeps(sys, op);
    TwoSteps(u.sys, M.OpLoad(0), M.OpFill(0, literal, literal, {}));
    var looked := M.Step(M.Step(u.sys, M.OpLoad(0)), M.OpFill(0, literal, literal, {}));
    DeliverStale(u.(sys := looked), first, second);
    StepRemove(looked, first);
  }

  lemma MissedBreaks(subject: string, literal: string)
    requires ValidSubject(subject) && TokensMatch(literal, subject) && !MatchRest(literal, subject)
    ensures !Promised(After(BreakingRun(subject, literal)))
  {
    var run := BreakingRun(subject, literal);
    var first, second := Sub(0, subject, None), Sub(1, subject, None);
    LimitedState(subject, literal);
    var s := Publish(After(run[..3]), run[3]);
    UsedUpState(After(run[..3]), subject, literal);
    Resubscribed(s, first, second);
    SecondInsert(s.sys, second, literal, s.sys.index.cache[literal]);
    BrokenState(Subscribe(s, 0, subject, None, "1"), s.sys, M.OpInsert(second), first, second, literal);
    LastSteps(run);
  }

  lemma LastSteps(run: seq<Action>)
    requires |run| == 6 && run[3].DoPublish? && run[4].DoSub? && run[5].DoPublish?
    ensures var s := Publish(After(run[..3]), run[3]);
            After(run) == Publish(Subscribe(s, run[4].cid, run[4].subject, run[4].queue, run[4].sid), run[5])
  {
    assert run[..4][..3] == run[..3] && run[..5][..4] == run[..4] && run[..6] == run;
    assert After(run[..4]) == Publish(After(run[..3]), run[3]);
  }

  lemma BreakingUses(s: string, l: string, ss: iset<string>, ls: iset<string>)
    requires s in ss && l in ls
    ensures Uses(BreakingRun(s, l), ss, ls)
  {
    var run := BreakingRun(s, l);
    assert |run| == 6;
    forall i | 0 <= i < |run| ensures (run[i].DoSub? ==> run[i].subject in ss) &&
        (run[i].DoPublish? ==> run[i].subject in ls) {
      assert i == 0 || i == 1 || i == 2 || i == 3 || i == 4 || i == 5;
    }
  }

  lemma MissingBreaks(ss: iset<string>, ls: iset<string>) returns (run: seq<Action>)
    requires !NoneMissed(ss, ls)
    ensures Uses(run, ss, ls) && !Promised(After(run))
  {
    var s, l :| s in ss && l in ls && ValidSubject(s) && TokensMatch(l, s) && !MatchRest(l, s);
    run := BreakingRun(s, l);
    MissedBreaks(s, l);
    BreakingUses(s, l, ss, ls);
  }

  /** The books are kept over every run that subscribes to `ss` and publishes to `ls` exactly if
      the byte-level test misses no match between them. */
  lemma LifecycleExactly(ss: iset<string>, ls: iset<string>)
    ensures (forall run :: Uses(run, ss, ls) ==> Promised(After(run))) <==> NoneMissed(ss, ls)
  {
    if NoneMissed(ss, ls) {
      forall run | Uses(run, ss, ls) ensures Promised(After(run)) {
        RunKeeps(run, ss, ls);
      }
    } else {
      var run := MissingBreaks(ss, ls);
    }
  }

  /** Subjects whose wildcards are whole tokens and literals without an empty last token are safe. */
  lemma RunLifecycle(run: seq<Action>)
    requires forall i :: 0 <= i < |run| ==>
      (run[i].DoSub? ==> Exact(Split(run[i].subject))) && (run[i].DoPublish? ==> OkLiteral(run[i].subject))
    ensures Promised(After(run))
  {
    var ss := iset s | Exact(Split(s));
    var ls := iset l | OkLiteral(l);
    forall s, l | s in ss && l in ls && ValidSubject(s) && TokensMatch(l, s) ensures MatchRest(l, s) {
      SubjectExactly(s);
    }
    RunKeeps(run, ss, ls);
  }
}
