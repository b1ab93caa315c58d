/**
 One publish in a full mesh of servers with synchronised interest: every server knows every
 subscription of the cluster, its own ones directly and the others through the route to their
 server. The origin sends one copy over each route with a plain match and one copy for each
 queue group; the receiving server fans a plain copy out to its own clients and hands a queue
 copy to the subscription its id names, and forwards nothing.
 */
module Cluster {
  import opened Common
  import opened WireArgs
  import opened Subjects
  import opened Results
  import opened RouteSids
  import M = SublistModel

  /** A client's subscription, on its own server. */
  datatype Local = Local(server: nat, cid: nat, sid: string, subject: string, queue: Option<string>)

  /** A message for another server, with the subscription id it carries. */
  datatype Send = Send(server: nat, rsid: string)

  datatype Out = Out(local: seq<nat>, sends: seq<Send>)

  function Join(a: Out, b: Out): Out {
    Out(a.local + b.local, a.sends + b.sends)
  }

  function SubOf(us: seq<Local>, k: nat): Sub
    requires k < |us|
  {
    Sub(k, us[k].subject, us[k].queue)
  }

  function SidOf(u: Local): string {
    RouteSid(u.cid, u.sid, u.queue.Some? && u.queue.value != "")
  }

  // ---------- the server the message comes in at ----------

  /** To subscription `k`, directly or over its route. */
  function SendTo(us: seq<Local>, origin: nat, k: nat): Out
    requires k < |us|
  {
    if us[k].server == origin then Out([k], []) else Out([], [Send(us[k].server, SidOf(us[k]))])
  }

  /** Plain matches; `seen` are the servers that have their copy already. */
  function PlainOut(us: seq<Local>, origin: nat, ps: seq<Sub>, seen: set<nat>): Out
    decreases |ps|
  {
    if ps == [] then Out([], [])
    else if ps[0].id >= |us| || us[ps[0].id].server in seen then PlainOut(us, origin, ps[1..], seen)
    else
      var server := us[ps[0].id].server;
      Join(SendTo(us, origin, ps[0].id),
           PlainOut(us, origin, ps[1..], if server == origin then seen else seen + {server}))
  }

  function Chosen(g: seq<Sub>, pick: nat): nat
    requires g != []
  {
    g[pick % |g|].id
  }

  /** One member of each queue group, whichever the random numbers pick. */
  function QueueOut(us: seq<Local>, origin: nat, qs: seq<seq<Sub>>, picks: nat -> nat, i: nat): Out
    decreases |qs|
  {
    if qs == [] then Out([], [])
    else
      var rest := QueueOut(us, origin, qs[1..], picks, i + 1);
      if qs[0] == [] || Chosen(qs[0], picks(i)) >= |us| then rest
      else Join(SendTo(us, origin, Chosen(qs[0], picks(i))), rest)
  }

  function FromClient(us: seq<Local>, origin: nat, r: Result, picks: nat -> nat): Out {
    Join(PlainOut(us, origin, r.psubs, {}), QueueOut(us, origin, r.qsubs, picks, 0))
  }

  // ---------- the server a copy arrives at ----------

  function Owner(us: seq<Local>, server: nat, cid: int, sid: string, i: nat): Option<nat>
    requires i <= |us|
    decreases |us| - i
  {
    if i == |us| then None
    else if us[i].server == server && us[i].cid == cid && us[i].sid == sid then Some(i)
    else Owner(us, server, cid, sid, i + 1)
  }

  function OwnPlain(us: seq<Local>, server: nat, ps: seq<Sub>): seq<nat> {
    if ps == [] then []
    else (if ps[0].id < |us| && us[ps[0].id].server == server then [ps[0].id] else [])
         + OwnPlain(us, server, ps[1..])
  }

  function FromRoute(us: seq<Local>, server: nat, r: Result, rsid: string): seq<nat> {
    if r.psubs == [] && r.qsubs == [] then []
    else match ParseQueueSid(rsid)
      case Some(q) =>
        (match Owner(us, server, q.cid, q.sid, 0)
         case None => []
         case Some(k) => [k])
      case None => OwnPlain(us, server, r.psubs)
  }

  function Arrivals(us: seq<Local>, rs: nat -> Result, sends: seq<Send>): seq<nat> {
    if sends == [] then []
    else FromRoute(us, sends[0].server, rs(sends[0].server), sends[0].rsid) + Arrivals(us, rs, sends[1..])
  }

  /** Every copy delivered in the cluster, by subscription. `rs` is each server's match result. */
  function Delivered(us: seq<Local>, origin: nat, rs: nat -> Result, picks: nat -> nat): seq<nat> {
    var out := FromClient(us, origin, rs(origin), picks);
    out.local + Arrivals(us, rs, out.sends)
  }

  function Copies(us: seq<Local>, origin: nat, rs: nat -> Result, picks: nat -> nat, k: nat): nat {
    multiset(Delivered(us, origin, rs, picks))[k]
  }

  /** The two loops of processMsg, with the set of servers that have their copy. */
  method RouteMsg(us: seq<Local>, origin: nat, r: Result, picks: nat -> nat) returns (out: Out)
    ensures out == FromClient(us, origin, r, picks)
  {
    out := Out([], []);
    var seen := {};
    for i := 0 to |r.psubs|
      invariant Join(out, PlainOut(us, origin, r.psubs[i..], seen)) == PlainOut(us, origin, r.psubs, {})
    {
      var k := r.psubs[i].id;
      assert r.psubs[i..][1..] == r.psubs[i + 1..];
      if k < |us| && us[k].server !in seen {
        JoinJoin(out, SendTo(us, origin, k),
                 PlainOut(us, origin, r.psubs[i + 1..],
                          if us[k].server == origin then seen else seen + {us[k].server}));
        out := Join(out, SendTo(us, origin, k));
        if us[k].server != origin {
          seen := seen + {us[k].server};
        }
      }
    }
    JoinNothing(out);
    for g := 0 to |r.qsubs|
      invariant Join(out, QueueOut(us, origin, r.qsubs[g..], picks, g)) == FromClient(us, origin, r, picks)
    {
      assert r.qsubs[g..][1..] == r.qsubs[g + 1..];
      if r.qsubs[g] != [] && Chosen(r.qsubs[g], picks(g)) < |us| {
        var k := Chosen(r.qsubs[g], picks(g));
        JoinJoin(out, SendTo(us, origin, k), QueueOut(us, origin, r.qsubs[g + 1..], picks, g + 1));
        out := Join(out, SendTo(us, origin, k));
      }
    }
    JoinNothing(out);
  }

  lemma JoinJoin(a: Out, b: Out, c: Out)
    ensures Join(Join(a, b), c) == Join(a, Join(b, c))
  {
    assert (a.local + b.local) + c.local == a.local + (b.local + c.local);
    assert (a.sends + b.sends) + c.sends == a.sends + (b.sends + c.sends);
  }

  lemma JoinNothing(a: Out)
    ensures Join(a, Out([], [])) == a
  {
    assert a.local + [] == a.local && a.sends + [] == a.sends;
  }

  // ---------- the setting ----------

  predicate Matching(us: seq<Local>, k: nat, subject: string)
    requires k < |us|
  {
    TokensMatch(subject, us[k].subject)
  }

  /** What the index answers when it holds each subscription of the cluster once. */
  ghost predicate Answers(r: Result, us: seq<Local>, subject: string) {
    && Grouped(r)
    && forall x :: Total(r, x) == if x.id < |us| && x == SubOf(us, x.id) && Matching(us, x.id, subject) then 1 else 0
  }

  /** Synchronised interest: an index that holds each subscription of the cluster once answers so. */
  lemma SyncedAnswers(r: Result, live: multiset<Sub>, us: seq<Local>, subject: string)
    requires M.FullAnswer(r, live, subject)
    requires forall x :: live[x] == if x.id < |us| && x == SubOf(us, x.id) then 1 else 0
    ensures Answers(r, us, subject)
  {
    forall x
      ensures Total(r, x) == if x.id < |us| && x == SubOf(us, x.id) && Matching(us, x.id, subject) then 1 else 0 {
      assert Total(r, x) == M.Expected(live, x, subject);
    }
  }

  ghost predicate Proper(us: seq<Local>) {
    && (forall k :: 0 <= k < |us| ==> Word(us[k].sid) && us[k].queue != Some(""))
    && (forall j, k :: 0 <= j < k < |us| ==>
          us[j].server != us[k].server || us[j].cid != us[k].cid || us[j].sid != us[k].sid)
  }

  /** No queue subscription's sid holds a form feed. */
  ghost predicate Routable(us: seq<Local>) {
    forall k :: 0 <= k < |us| && us[k].queue.Some? ==> FORM_FEED !in us[k].sid
  }

  // ---------- counting copies ----------

  function N(s: seq<nat>, k: nat): nat {
    multiset(s)[k]
  }

  function IdCount(ps: seq<Sub>, k: nat): nat {
    if ps == [] then 0 else (if ps[0].id == k then 1 else 0) + IdCount(ps[1..], k)
  }

  ghost predicate Known(us: seq<Local>, ps: seq<Sub>) {
    forall i :: 0 <= i < |ps| ==> ps[i].id < |us| && us[ps[i].id].queue == None
  }

  /** Some match in `ps` lives on `server`. */
  ghost predicate Reaches(us: seq<Local>, ps: seq<Sub>, server: nat) {
    exists i :: 0 <= i < |ps| && ps[i].id < |us| && us[ps[i].id].server == server
  }

  lemma {:induction false} PlainLocal(us: seq<Local>, origin: nat, ps: seq<Sub>, seen: set<nat>, k: nat)
    requires Known(us, ps) && k < |us| && origin !in seen
    ensures N(PlainOut(us, origin, ps, seen).local, k) == if us[k].server == origin then IdCount(ps, k) else 0
    decreases |ps|
  {
    if ps != [] {
      var server := us[ps[0].id].server;
      PlainLocal(us, origin, ps[1..], if server in seen || server == origin then seen else seen + {server}, k);
    }
  }

  lemma {:induction false} OwnPlainCount(us: seq<Local>, server: nat, ps: seq<Sub>, k: nat)
    requires k < |us|
    ensures N(OwnPlain(us, server, ps), k) == if us[k].server == server then IdCount(ps, k) else 0
  {
    if ps != [] {
      OwnPlainCount(us, server, ps[1..], k);
    }
  }

  lemma PlainFromRoute(us: seq<Local>, r: Result, k: nat)
    requires k < |us| && us[k].queue == None
    ensures FromRoute(us, us[k].server, r, SidOf(us[k])) == OwnPlain(us, us[k].server, r.psubs)
  {
    PlainSidIsPlain(us[k].cid, us[k].sid);
  }

  lemma {:induction false} ReachesTail(us: seq<Local>, ps: seq<Sub>, server: nat)
    requires ps != [] && Known(us, ps)
    ensures Reaches(us, ps, server) <==> us[ps[0].id].server == server || Reaches(us, ps[1..], server)
  {
    if Reaches(us, ps, server) {
      var i :| 0 <= i < |ps| && ps[i].id < |us| && us[ps[i].id].server == server;
      assert i > 0 ==> ps[1..][i - 1] == ps[i];
    }
    if Reaches(us, ps[1..], server) {
      var i :| 0 <= i < |ps[1..]| && ps[1..][i].id < |us| && us[ps[1..][i].id].server == server;
      assert ps[i + 1] == ps[1..][i];
    }
  }

  lemma FirstArrival(us: seq<Local>, rs: nat -> Result, j: nat, rest: seq<Send>, k: nat)
    requires j < |us| && us[j].queue == None && k < |us|
    ensures var server := us[j].server;
            N(Arrivals(us, rs, [Send(server, SidOf(us[j]))] + rest), k)
            == (if us[k].server == server then IdCount(rs(server).psubs, k) else 0) + N(Arrivals(us, rs, rest), k)
  {
    var server := us[j].server;
    var sends := [Send(server, SidOf(us[j]))] + rest;
    assert sends[1..] == rest;
    PlainFromRoute(us, rs(server), j);
    OwnPlainCount(us, server, rs(server).psubs, k);
  }

  /** Each server with a match and without a copy yet gets one, and fans it out. */
  lemma {:induction false} PlainArrivals(us: seq<Local>, origin: nat, ps: seq<Sub>, seen: set<nat>,
                                         rs: nat -> Result, k: nat)
    requires Known(us, ps) && k < |us| && origin !in seen
    ensures N(Arrivals(us, rs, PlainOut(us, origin, ps, seen).sends), k)
         == if us[k].server != origin && us[k].server !in seen && Reaches(us, ps, us[k].server)
            then IdCount(rs(us[k].server).psubs, k) else 0
    decreases |ps|
  {
    if ps == [] {
      assert !Reaches(us, ps, us[k].server);
    } else {
      var j := ps[0].id;
      var server := us[j].server;
      ReachesTail(us, ps, us[k].server);
      if server in seen {
        PlainArrivals(us, origin, ps[1..], seen, rs, k);
      } else if server == origin {
        PlainArrivals(us, origin, ps[1..], seen, rs, k);
        assert PlainOut(us, origin, ps, seen).sends == PlainOut(us, origin, ps[1..], seen).sends;
      } else {
        PlainArrivals(us, origin, ps[1..], seen + {server}, rs, k);
        FirstArrival(us, rs, j, PlainOut(us, origin, ps[1..], seen + {server}).sends, k);
      }
    }
  }

  // ---------- queue groups ----------

  lemma {:induction false} OwnerIs(us: seq<Local>, k: nat, i: nat)
    requires Proper(us) && i <= k < |us|
    ensures Owner(us, us[k].server, us[k].cid, us[k].sid, i) == Some(k)
    decreases k - i
  {
    if i < k {
      OwnerIs(us, k, i + 1);
    }
  }

  /** A queue copy arrives at the subscription it was sent for, and nowhere else. */
  lemma QueueFromRoute(us: seq<Local>, r: Result, k: nat)
    requires Proper(us) && k < |us| && us[k].queue.Some? && FORM_FEED !in us[k].sid
    requires r.psubs != [] || r.qsubs != []
    ensures FromRoute(us, us[k].server, r, SidOf(us[k])) == [k]
  {
    RouteSidBack(us[k].cid, us[k].sid);
    OwnerIs(us, k, 0);
  }

  function Picks(qs: seq<seq<Sub>>, picks: nat -> nat, i: nat): seq<nat>
    requires forall g :: 0 <= g < |qs| ==> qs[g] != []
  {
    if qs == [] then [] else [Chosen(qs[0], picks(i))] + Picks(qs[1..], picks, i + 1)
  }

  /** Members of the groups are queue subscriptions whose servers have an answer too. */
  ghost predicate GroupsKnown(us: seq<Local>, qs: seq<seq<Sub>>, rs: nat -> Result) {
    forall g :: 0 <= g < |qs| ==> qs[g] != [] && forall m :: 0 <= m < |qs[g]| ==> MemberKnown(us, qs[g][m], rs)
  }

  ghost predicate MemberKnown(us: seq<Local>, x: Sub, rs: nat -> Result) {
    && x.id < |us| && us[x.id].queue.Some? && FORM_FEED !in us[x.id].sid
    && (rs(us[x.id].server).psubs != [] || rs(us[x.id].server).qsubs != [])
  }

  lemma {:induction false} ArrivalsConcat(us: seq<Local>, rs: nat -> Result, a: seq<Send>, b: seq<Send>)
    ensures Arrivals(us, rs, a + b) == Arrivals(us, rs, a) + Arrivals(us, rs, b)
    decreases |a|
  {
    if a == [] {
      ConcatNothing(b);
    } else {
      ConcatTail(a, b);
      ArrivalsConcat(us, rs, a[1..], b);
      var first := FromRoute(us, a[0].server, rs(a[0].server), a[0].rsid);
      ConcatAssoc(first, Arrivals(us, rs, a[1..]), Arrivals(us, rs, b));
    }
  }

  lemma SendToArrives(us: seq<Local>, origin: nat, rs: nat -> Result, j: nat)
    requires Proper(us) && j < |us| && us[j].queue.Some? && FORM_FEED !in us[j].sid
    requires rs(us[j].server).psubs != [] || rs(us[j].server).qsubs != []
    ensures var out := SendTo(us, origin, j); out.local + Arrivals(us, rs, out.sends) == [j]
  {
    if us[j].server != origin {
      QueueFromRoute(us, rs(us[j].server), j);
      var sends := SendTo(us, origin, j).sends;
      assert sends[1..] == [];
    }
  }

  lemma {:induction false} QueueArrivals(us: seq<Local>, origin: nat, qs: seq<seq<Sub>>, picks: nat -> nat,
                                         i: nat, rs: nat -> Result, k: nat)
    requires Proper(us) && GroupsKnown(us, qs, rs)
    ensures var out := QueueOut(us, origin, qs, picks, i);
            N(out.local, k) + N(Arrivals(us, rs, out.sends), k) == N(Picks(qs, picks, i), k)
    decreases |qs|
  {
    if qs != [] {
      QueueArrivals(us, origin, qs[1..], picks, i + 1, rs, k);
      var j := Chosen(qs[0], picks(i));
      assert MemberKnown(us, qs[0][picks(i) % |qs[0]|], rs);
      SendToArrives(us, origin, rs, j);
      var first, rest := SendTo(us, origin, j), QueueOut(us, origin, qs[1..], picks, i + 1);
      ArrivalsConcat(us, rs, first.sends, rest.sends);
      assert N([j], k) == N(first.local, k) + N(Arrivals(us, rs, first.sends), k) by {
        assert [j] == first.local + Arrivals(us, rs, first.sends);
      }
    }
  }

  // ---------- what the answers hold ----------

  lemma AnswerMember(r: Result, us: seq<Local>, subject: string, x: Sub)
    requires Answers(r, us, subject) && Total(r, x) > 0
    ensures x.id < |us| && x == SubOf(us, x.id) && Matching(us, x.id, subject)
  {
  }

  lemma AnswerKnown(r: Result, us: seq<Local>, subject: string)
    requires Answers(r, us, subject)
    ensures Known(us, r.psubs)
    ensures forall i :: 0 <= i < |r.psubs| ==> r.psubs[i].id < |us| && r.psubs[i] == SubOf(us, r.psubs[i].id)
  {
    forall i | 0 <= i < |r.psubs| ensures r.psubs[i].id < |us| && r.psubs[i] == SubOf(us, r.psubs[i].id) {
      assert Count(r.psubs, r.psubs[i]) > 0;
      AnswerMember(r, us, subject, r.psubs[i]);
    }
  }

  lemma {:induction false} IdCountIs(us: seq<Local>, ps: seq<Sub>, k: nat)
    requires k < |us| && forall i :: 0 <= i < |ps| ==> ps[i].id < |us| && ps[i] == SubOf(us, ps[i].id)
    ensures IdCount(ps, k) == Count(ps, SubOf(us, k))
  {
    if ps != [] {
      IdCountIs(us, ps[1..], k);
      assert ps == [ps[0]] + ps[1..];
    }
  }

  lemma {:induction false} NoPlainInGroups(qs: seq<seq<Sub>>, x: Sub)
    requires (forall g :: 0 <= g < |qs| ==> GroupOk(qs[g])) && x.queue == None
    ensures QTotal(qs, x) == 0
  {
    if qs != [] {
      assert GroupOk(qs[0]);
      assert x !in qs[0];
      NoPlainInGroups(qs[1..], x);
    }
  }

  lemma PlainCount(r: Result, us: seq<Local>, subject: string, k: nat)
    requires Answers(r, us, subject) && k < |us|
    ensures IdCount(r.psubs, k) == if us[k].queue == None && Matching(us, k, subject) then 1 else 0
  {
    var x := SubOf(us, k);
    AnswerKnown(r, us, subject);
    IdCountIs(us, r.psubs, k);
    assert Total(r, x) == if Matching(us, k, subject) then 1 else 0;
    if us[k].queue == None {
      NoPlainInGroups(r.qsubs, x);
    } else {
      assert x !in r.psubs;
    }
  }

  lemma {:induction false} IdCountHas(ps: seq<Sub>, k: nat)
    requires IdCount(ps, k) > 0
    ensures exists i :: 0 <= i < |ps| && ps[i].id == k
  {
    if ps[0].id != k {
      IdCountHas(ps[1..], k);
      var i :| 0 <= i < |ps[1..]| && ps[1..][i].id == k;
      assert ps[i + 1].id == k;
    }
  }

  /** Plain copies, in the whole cluster. */
  lemma PlainCopies(us: seq<Local>, origin: nat, rs: nat -> Result, subject: string, k: nat)
    requires (forall t :: Answers(rs(t), us, subject)) && k < |us|
    ensures var out := PlainOut(us, origin, rs(origin).psubs, {});
            N(out.local, k) + N(Arrivals(us, rs, out.sends), k)
            == if us[k].queue == None && Matching(us, k, subject) then 1 else 0
  {
    var ps := rs(origin).psubs;
    AnswerKnown(rs(origin), us, subject);
    PlainLocal(us, origin, ps, {}, k);
    PlainArrivals(us, origin, ps, {}, rs, k);
    PlainCount(rs(origin), us, subject, k);
    PlainCount(rs(us[k].server), us, subject, k);
    if IdCount(ps, k) > 0 {
      IdCountHas(ps, k);
      assert Reaches(us, ps, us[k].server);
    }
  }

  // ---------- one member of each group ----------

  lemma {:induction false} PicksAt(qs: seq<seq<Sub>>, picks: nat -> nat, i: nat, g: nat)
    requires g < |qs| && forall h :: 0 <= h < |qs| ==> qs[h] != []
    ensures |Picks(qs, picks, i)| == |qs| && Picks(qs, picks, i)[g] == Chosen(qs[g], picks(i + g))
    decreases |qs|
  {
    if g > 0 {
      PicksAt(qs[1..], picks, i + 1, g - 1);
      assert qs[1..][g - 1] == qs[g] && i + 1 + (g - 1) == i + g;
    } else if |qs| > 1 {
      PicksAt(qs[1..], picks, i + 1, 0);
    }
  }

  lemma OnceIn(s: seq<nat>, h: nat)
    requires h < |s| && forall g :: 0 <= g < |s| && g != h ==> s[g] != s[h]
    ensures N(s, s[h]) == 1
  {
    var before, after := s[..h], s[h + 1..];
    assert s == before + [s[h]] + after;
    assert s[h] !in before && s[h] !in after;
  }

  lemma {:induction false} QTotalIn(qs: seq<seq<Sub>>, x: Sub) returns (g: nat)
    requires QTotal(qs, x) > 0
    ensures g < |qs| && x in qs[g]
  {
    if x in qs[0] {
      g := 0;
    } else {
      var h := QTotalIn(qs[1..], x);
      g := h + 1;
    }
  }

  lemma {:induction false} QTotalOf(qs: seq<seq<Sub>>, g: nat, m: nat)
    requires g < |qs| && m < |qs[g]|
    ensures QTotal(qs, qs[g][m]) > 0
  {
    if g == 0 {
      assert Count(qs[0], qs[0][m]) > 0;
    } else {
      QTotalOf(qs[1..], g - 1, m);
    }
  }

  /** Members of a group are matching queue subscriptions with the group's name. */
  lemma GroupMember(r: Result, us: seq<Local>, subject: string, g: nat, m: nat)
    requires Answers(r, us, subject) && g < |r.qsubs| && m < |r.qsubs[g]|
    ensures var k := r.qsubs[g][m].id;
            k < |us| && us[k].queue == r.qsubs[g][0].queue && us[k].queue.Some? && Matching(us, k, subject)
  {
    QTotalOf(r.qsubs, g, m);
    AnswerMember(r, us, subject, r.qsubs[g][m]);
    assert GroupOk(r.qsubs[g]);
  }

  lemma GroupsAreKnown(us: seq<Local>, origin: nat, rs: nat -> Result, subject: string)
    requires (forall t :: Answers(rs(t), us, subject)) && Routable(us)
    ensures GroupsKnown(us, rs(origin).qsubs, rs)
  {
    var qs := rs(origin).qsubs;
    forall g | 0 <= g < |qs| ensures qs[g] != [] && forall m :: 0 <= m < |qs[g]| ==> MemberKnown(us, qs[g][m], rs) {
      assert GroupOk(qs[g]);
      forall m | 0 <= m < |qs[g]| ensures MemberKnown(us, qs[g][m], rs) {
        GroupMember(rs(origin), us, subject, g, m);
        var k := rs(origin).qsubs[g][m].id;
        var there := rs(us[k].server);
        assert Total(there, SubOf(us, k)) == 1;
      }
    }
  }

  /** The pick of group `g` is a matching member of it. */
  lemma PickedMember(r: Result, us: seq<Local>, picks: nat -> nat, subject: string, g: nat)
    requires Answers(r, us, subject) && g < |r.qsubs|
    ensures forall h :: 0 <= h < |r.qsubs| ==> r.qsubs[h] != []
    ensures |Picks(r.qsubs, picks, 0)| == |r.qsubs|
    ensures var k := Picks(r.qsubs, picks, 0)[g];
            k < |us| && us[k].queue == r.qsubs[g][0].queue && us[k].queue.Some? && Matching(us, k, subject)
  {
    forall h | 0 <= h < |r.qsubs| ensures r.qsubs[h] != [] {
      assert GroupOk(r.qsubs[h]);
    }
    PicksAt(r.qsubs, picks, 0, g);
    GroupMember(r, us, subject, g, picks(0 + g) % |r.qsubs[g]|);
  }

  lemma OtherGroup(r: Result, us: seq<Local>, picks: nat -> nat, subject: string, g: nat, h: nat, k: nat)
    requires Answers(r, us, subject) && g < |r.qsubs| && h < |r.qsubs| && g != h && k < |us|
    requires us[k].queue == r.qsubs[h][0].queue
    ensures forall f :: 0 <= f < |r.qsubs| ==> r.qsubs[f] != []
    ensures |Picks(r.qsubs, picks, 0)| == |r.qsubs| && Picks(r.qsubs, picks, 0)[g] != k
  {
    PickedMember(r, us, picks, subject, g);
  }

  /** The copies of the picked member of group `h`, and of any other subscription of that queue. */
  lemma GroupPicked(r: Result, us: seq<Local>, picks: nat -> nat, subject: string, h: nat, k: nat)
    requires Answers(r, us, subject) && h < |r.qsubs| && k < |us|
    requires us[k].queue == r.qsubs[h][0].queue
    ensures (forall g :: 0 <= g < |r.qsubs| ==> r.qsubs[g] != []) && |Picks(r.qsubs, picks, 0)| == |r.qsubs|
    ensures N(Picks(r.qsubs, picks, 0), k) == if k == Picks(r.qsubs, picks, 0)[h] then 1 else 0
  {
    PickedMember(r, us, picks, subject, h);
    var s := Picks(r.qsubs, picks, 0);
    forall g | 0 <= g < |s| && g != h ensures s[g] != k {
      OtherGroup(r, us, picks, subject, g, h, k);
    }
    if k == s[h] {
      OnceIn(s, h);
    } else {
      assert k !in s;
    }
  }

  lemma {:induction false} NothingPicked(r: Result, us: seq<Local>, picks: nat -> nat, subject: string, k: nat)
    requires Answers(r, us, subject) && k < |us|
    requires forall h :: 0 <= h < |r.qsubs| ==> r.qsubs[h] != [] && us[k].queue != r.qsubs[h][0].queue
    ensures N(Picks(r.qsubs, picks, 0), k) == 0
  {
    var s := Picks(r.qsubs, picks, 0);
    if r.qsubs != [] {
      PickedMember(r, us, picks, subject, 0);
    }
    forall g | 0 <= g < |s| ensures s[g] != k {
      PickedMember(r, us, picks, subject, g);
    }
  }

  // ---------- the main results ----------

  /** Copies split into plain fan-out and group picks. */
  lemma CopiesAre(us: seq<Local>, origin: nat, rs: nat -> Result, picks: nat -> nat, subject: string, k: nat)
    requires (forall t :: Answers(rs(t), us, subject)) && Proper(us) && Routable(us) && k < |us|
    ensures forall g :: 0 <= g < |rs(origin).qsubs| ==> rs(origin).qsubs[g] != []
    ensures Copies(us, origin, rs, picks, k)
         == (if us[k].queue == None && Matching(us, k, subject) then 1 else 0) + N(Picks(rs(origin).qsubs, picks, 0), k)
  {
    GroupsAreKnown(us, origin, rs, subject);
    PlainCopies(us, origin, rs, subject, k);
    QueueArrivals(us, origin, rs(origin).qsubs, picks, 0, rs, k);
    var p := PlainOut(us, origin, rs(origin).psubs, {});
    var q := QueueOut(us, origin, rs(origin).qsubs, picks, 0);
    ArrivalsConcat(us, rs, p.sends, q.sends);
    assert Delivered(us, origin, rs, picks)
        == (p.local + q.local) + (Arrivals(us, rs, p.sends) + Arrivals(us, rs, q.sends));
  }

  /** Every plain subscription in the cluster gets exactly one copy if it matches, and none
      otherwise, whichever server the message came in at. */
  lemma PlainExactlyOnce(us: seq<Local>, origin: nat, rs: nat -> Result, picks: nat -> nat, subject: string, k: nat)
    requires (forall t :: Answers(rs(t), us, subject)) && Proper(us) && Routable(us)
    requires k < |us| && us[k].queue == None
    ensures Copies(us, origin, rs, picks, k) == if Matching(us, k, subject) then 1 else 0
  {
    CopiesAre(us, origin, rs, picks, subject, k);
    forall h | 0 <= h < |rs(origin).qsubs| ensures us[k].queue != rs(origin).qsubs[h][0].queue {
      assert GroupOk(rs(origin).qsubs[h]);
    }
    NothingPicked(rs(origin), us, picks, subject, k);
  }

  ghost predicate HasMatch(us: seq<Local>, q: string, subject: string) {
    exists k :: 0 <= k < |us| && us[k].queue == Some(q) && Matching(us, k, subject)
  }

  lemma MatchedGroup(us: seq<Local>, origin: nat, rs: nat -> Result, picks: nat -> nat, subject: string, m: nat)
      returns (j: nat)
    requires (forall t :: Answers(rs(t), us, subject)) && Proper(us) && Routable(us)
    requires m < |us| && us[m].queue.Some? && Matching(us, m, subject)
    ensures j < |us| && us[j].queue == us[m].queue && Matching(us, j, subject)
    ensures forall k :: 0 <= k < |us| && us[k].queue == us[m].queue ==>
              Copies(us, origin, rs, picks, k) == if k == j then 1 else 0
  {
    var r := rs(origin);
    var x := SubOf(us, m);
    assert Total(r, x) == 1 && x !in r.psubs;
    var h := QTotalIn(r.qsubs, x);
    assert GroupOk(r.qsubs[h]);
    PickedMember(r, us, picks, subject, h);
    j := Picks(r.qsubs, picks, 0)[h];
    forall k | 0 <= k < |us| && us[k].queue == us[m].queue
      ensures Copies(us, origin, rs, picks, k) == if k == j then 1 else 0 {
      CopiesAre(us, origin, rs, picks, subject, k);
      GroupPicked(r, us, picks, subject, h, k);
    }
  }

  lemma UnmatchedGroup(us: seq<Local>, origin: nat, rs: nat -> Result, picks: nat -> nat, subject: string, k: nat)
    requires (forall t :: Answers(rs(t), us, subject)) && Proper(us) && Routable(us)
    requires k < |us| && us[k].queue.Some? && !HasMatch(us, us[k].queue.value, subject)
    ensures Copies(us, origin, rs, picks, k) == 0
  {
    var r := rs(origin);
    CopiesAre(us, origin, rs, picks, subject, k);
    forall h | 0 <= h < |r.qsubs| ensures us[k].queue != r.qsubs[h][0].queue {
      PickedMember(r, us, picks, subject, h);
    }
    NothingPicked(r, us, picks, subject, k);
  }

  /** A queue group with a match gets exactly one copy in total, at one of its matching members
      anywhere in the cluster; a group without a match gets none. */
  lemma GroupExactlyOnce(us: seq<Local>, origin: nat, rs: nat -> Result, picks: nat -> nat, subject: string, q: string)
    requires (forall t :: Answers(rs(t), us, subject)) && Proper(us) && Routable(us)
    ensures HasMatch(us, q, subject) ==>
      exists j :: 0 <= j < |us| && us[j].queue == Some(q) && Matching(us, j, subject)
        && forall k :: 0 <= k < |us| && us[k].queue == Some(q) ==>
             Copies(us, origin, rs, picks, k) == if k == j then 1 else 0
    ensures !HasMatch(us, q, subject) ==>
      forall k :: 0 <= k < |us| && us[k].queue == Some(q) ==> Copies(us, origin, rs, picks, k) == 0
  {
    if HasMatch(us, q, subject) {
      var m :| 0 <= m < |us| && us[m].queue == Some(q) && Matching(us, m, subject);
      var j := MatchedGroup(us, origin, rs, picks, subject, m);
    } else {
      forall k | 0 <= k < |us| && us[k].queue == Some(q) ensures Copies(us, origin, rs, picks, k) == 0 {
        UnmatchedGroup(us, origin, rs, picks, subject, k);
      }
    }
  }

  // ---------- a form feed in a sid loses the message ----------

  lemma {:induction false} OnlySends(us: seq<Local>, qs: seq<seq<Sub>>, picks: nat -> nat, i: nat, rs: nat -> Result)
    requires |us| == 1 && us[0].server == 1 && FromRoute(us, 1, rs(1), SidOf(us[0])) == []
    ensures QueueOut(us, 0, qs, picks, i).local == [] && Arrivals(us, rs, QueueOut(us, 0, qs, picks, i).sends) == []
    decreases |qs|
  {
    if qs != [] {
      OnlySends(us, qs[1..], picks, i + 1, rs);
      var rest := QueueOut(us, 0, qs[1..], picks, i + 1).sends;
      assert ([Send(1, SidOf(us[0]))] + rest)[1..] == rest;
    }
  }

  lemma {:induction false} OwnerHas(us: seq<Local>, server: nat, cid: int, sid: string, i: nat)
    requires i <= |us| && Owner(us, server, cid, sid, i).Some?
    ensures var k := Owner(us, server, cid, sid, i).value; k < |us| && us[k].cid == cid && us[k].sid == sid
    decreases |us| - i
  {
    if !(us[i].server == server && us[i].cid == cid && us[i].sid == sid) {
      OwnerHas(us, server, cid, sid, i + 1);
    }
  }

  lemma NotAmongPlain(us: seq<Local>, r: Result, k: nat, subject: string)
    requires k < |us| && us[k].queue.Some? && Answers(r, us, subject)
    ensures k !in OwnPlain(us, us[k].server, r.psubs)
  {
    PlainCount(r, us, subject, k);
    OwnPlainCount(us, us[k].server, r.psubs, k);
    assert N(OwnPlain(us, us[k].server, r.psubs), k) == 0;
  }

  /** The server of a queue subscription delivers a copy sent for it to that subscription, and
      only to it, exactly if the sid holds no form feed. */
  lemma QueueRoutedExactly(us: seq<Local>, r: Result, k: nat, subject: string)
    requires Proper(us) && k < |us| && us[k].queue.Some? && Answers(r, us, subject)
    requires r.psubs != [] || r.qsubs != []
    ensures FromRoute(us, us[k].server, r, SidOf(us[k])) == [k] <==> FORM_FEED !in us[k].sid
    ensures FORM_FEED in us[k].sid ==> k !in FromRoute(us, us[k].server, r, SidOf(us[k]))
  {
    if FORM_FEED !in us[k].sid {
      QueueFromRoute(us, r, k);
    } else {
      RouteSidExactly(us[k].cid, us[k].sid);
      NotAmongPlain(us, r, k, subject);
      var q := ParseQueueSid(SidOf(us[k]));
      if q.Some? && Owner(us, us[k].server, q.value.cid, q.value.sid, 0).Some? {
        OwnerHas(us, us[k].server, q.value.cid, q.value.sid, 0);
      }
    }
  }

  lemma NotFound(u: Local, head: string, tail: string, r: Result)
    requires Word(head) && FORM_FEED !in head && u.sid == head + [FORM_FEED] + tail
    requires u.queue.Some? && u.queue.value != ""
    ensures FromRoute([u], u.server, r, SidOf(u)) == []
  {
    CutSid(u.cid, head, tail);
    assert |u.sid| > |head|;
    assert Owner([u], u.server, u.cid, head, 0) == Owner([u], u.server, u.cid, head, 1) == None;
  }

  lemma NoPlainSubs(us: seq<Local>, ps: seq<Sub>)
    requires Known(us, ps) && |us| == 1 && us[0].queue.Some?
    ensures ps == []
  {
    assert ps == [] || ps[0].id == 0;
  }

  lemma LostAlone(us: seq<Local>, rs: nat -> Result, picks: nat -> nat, subject: string)
    requires |us| == 1 && us[0].server == 1 && us[0].queue.Some? && Answers(rs(0), us, subject)
    requires FromRoute(us, 1, rs(1), SidOf(us[0])) == []
    ensures Copies(us, 0, rs, picks, 0) == 0
  {
    var r := rs(0);
    AnswerKnown(r, us, subject);
    NoPlainSubs(us, r.psubs);
    OnlySends(us, r.qsubs, picks, 0, rs);
    var out, q := FromClient(us, 0, r, picks), QueueOut(us, 0, r.qsubs, picks, 0);
    assert out.local == [] + q.local && out.sends == [] + q.sends;
    assert [] + q.sends == q.sends;
    assert Delivered(us, 0, rs, picks) == [];
  }

  /** A queue subscription whose sid holds a form feed behind its first byte gets nothing when it
      is alone in the cluster and the message comes in at another server. */
  lemma FormFeedLoses(cid: nat, head: string, tail: string, subject: string, q: string, rs: nat -> Result,
                      picks: nat -> nat)
    requires Word(head) && FORM_FEED !in head && q != ""
    requires var us := [Local(1, cid, head + [FORM_FEED] + tail, subject, Some(q))];
             forall t :: Answers(rs(t), us, subject)
    ensures var us := [Local(1, cid, head + [FORM_FEED] + tail, subject, Some(q))];
            Copies(us, 0, rs, picks, 0) == 0
  {
    var u := Local(1, cid, head + [FORM_FEED] + tail, subject, Some(q));
    NotFound(u, head, tail, rs(1));
    LostAlone([u], rs, picks, subject);
  }
}
