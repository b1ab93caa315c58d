/**
 Leader election. Agents are ranked by one order, in which a later lease counts as better; an
 agent keeps the best unexpired proposal as its leader, and makes proposals of its own only when
 the leader's lease and the allowed clock skew are over.
 */
module Election {
  import opened Common

  /** Times are nanoseconds; `extra` stands for the fields the order ignores. */
  datatype Loc = Loc(id: string, host: string, port: int, rank: int, pid: int, lease: int, extra: int)

  /** The zero time, 1 January of the year 1. */
  const ZERO_TIME := -62135596800 * 1000000000

  const NOBODY := Loc("", "", 0, 0, 0, ZERO_TIME, 0)

  /** Time as a 64-bit count of nanoseconds, which wraps outside the years 1678 to 2262. */
  function UnixNano(t: int): int {
    (t + TWO63) % TWO64 - TWO63
  }

  // ---------- the order ----------

  /** Empty strings are big, not small. */
  predicate LessString(i: string, j: string) {
    if i == "" || j == "" then j == "" else StrLess(i, j)
  }

  predicate Less(i: Loc, j: Loc) {
    if i.id == "" || j.id == "" then i.id != "" && j.id == ""
    else if i.rank != j.rank then i.rank < j.rank
    else if i.id != j.id then LessString(i.id, j.id)
    else if i.host != j.host then LessString(i.host, j.host)
    else if i.port != j.port then i.port < j.port
    else if i.pid != j.pid then i.pid < j.pid
    else UnixNano(i.lease) > UnixNano(j.lease)
  }

  /** Neither is before the other. */
  predicate Tied(i: Loc, j: Loc) {
    !Less(i, j) && !Less(j, i)
  }

  /** On different strings, a strict total order. */
  lemma LessStringOrder(a: string, b: string, c: string)
    ensures a != b ==> (LessString(a, b) <==> !LessString(b, a))
    ensures a != b && b != c && LessString(a, b) && LessString(b, c) ==> a != c && LessString(a, c)
  {
    StrLessTotal(a, b);
    StrLessIrreflexive(a);
    if StrLess(a, b) && StrLess(b, a) {
      StrLessTransitive(a, b, a);
    }
    if StrLess(a, b) && StrLess(b, c) {
      StrLessTransitive(a, b, c);
      StrLessIrreflexive(c);
    }
  }

  /** AgentLocLessThan is a strict weak order: irreflexive, transitive, and being tied is
      transitive too. */
  lemma LessTransitive(a: Loc, b: Loc, c: Loc)
    requires Less(a, b) && Less(b, c)
    ensures Less(a, c)
  {
    LessStringOrder(a.id, b.id, c.id);
    LessStringOrder(a.host, b.host, c.host);
  }

  /** What ties leave open: the fields the order ignores, and everything about nobody. */
  lemma TiedExactly(a: Loc, b: Loc)
    ensures Tied(a, b) <==>
      (a.id == "" && b.id == "") ||
      (a.id != "" && a.(lease := 0, extra := 0) == b.(lease := 0, extra := 0) && UnixNano(a.lease) == UnixNano(b.lease))
  {
    LessStringOrder(a.id, b.id, b.id);
    LessStringOrder(a.host, b.host, b.host);
  }

  lemma TiedTransitive(a: Loc, b: Loc, c: Loc)
    requires Tied(a, b) && Tied(b, c)
    ensures Tied(a, c)
  {
    TiedExactly(a, b);
    TiedExactly(b, c);
    TiedExactly(a, c);
  }

  /** Not being after is transitive: what ranking needs. */
  lemma NotLessTransitive(a: Loc, b: Loc, c: Loc)
    requires !Less(b, a) && !Less(c, b)
    ensures !Less(c, a)
  {
    if Less(c, a) {
      if Less(a, b) {
        LessTransitive(c, a, b);
      } else {
        TiedTransitiveLess(c, a, b);
      }
    }
  }

  lemma TiedTransitiveLess(c: Loc, a: Loc, b: Loc)
    requires Less(c, a) && Tied(a, b)
    ensures Less(c, b)
  {
    TiedExactly(a, b);
  }

  // ---------- what the order ranks by ----------

  /** The first host in dictionary order, a missing one last. */
  ghost predicate HostNotAfter(a: string, b: string) {
    a == b || (a != "" && (b == "" || Sooner(a, b)))
  }

  /** `a` is at least as electable as `b`, field by field: an agent without id is behind everybody
      with one; then the lowest rank, the first id in dictionary order, the first host, the lowest
      port and the lowest process id decide. */
  ghost predicate Electable(a: Loc, b: Loc) {
    b.id == "" || (
      && a.id != ""
      && a.rank <= b.rank
      && (a.rank == b.rank ==>
          && (a.id == b.id || Sooner(a.id, b.id))
          && (a.id == b.id ==>
              && HostNotAfter(a.host, b.host)
              && (a.host == b.host ==>
                  && a.port <= b.port
                  && (a.port == b.port ==> a.pid <= b.pid)))))
  }

  /** All that the order ranks by before the lease. */
  ghost predicate SameAgent(a: Loc, b: Loc) {
    a.id == b.id != "" && a.rank == b.rank && a.host == b.host && a.port == b.port && a.pid == b.pid
  }

  /** Not being behind, field by field; of two records of one agent the later lease is ahead. */
  lemma OrderExactly(a: Loc, b: Loc)
    ensures !Less(b, a) <==> Electable(a, b) && (SameAgent(a, b) ==> UnixNano(a.lease) >= UnixNano(b.lease))
  {
    LessStringOrder(a.id, b.id, b.id);
    LessStringOrder(a.host, b.host, b.host);
    StrLessExactly(a.id, b.id);
    StrLessExactly(a.host, b.host);
    StrLessTotal(a.id, b.id);
    StrLessTotal(a.host, b.host);
  }

  // ---------- keeping the best proposal ----------

  predicate Expired(x: Loc, now: int) {
    UnixNano(x.lease) <= UnixNano(now)
  }

  /** Whether the proposal replaces the current leader. */
  predicate Wins(x: Loc, cur: Loc, now: int) {
    && x.id != "" && !Expired(x, now)
    && (Expired(cur, now) || Less(x, cur) || (Tied(x, cur) && x.lease > cur.lease))
  }

  /** setLeader answers with the rank comparison, as its comment says, exactly in these cases; it
      differs by turning down an expired proposal, by taking any other one once the leader's lease
      is over, and by renewing leases that only wrap-around makes look equal. */
  lemma RankDecidesExactly(x: Loc, cur: Loc, now: int)
    ensures (Wins(x, cur, now) <==> Less(x, cur)) <==>
      (x.id == "" ||
       (if Expired(x, now) then !Less(x, cur)
        else if Expired(cur, now) then Less(x, cur)
        else !(Tied(x, cur) && x.lease > cur.lease)))
  {
  }

  /** Whoever ranks behind the leader still takes over once the leader's lease is over. */
  lemma BehindTakesOver(x: Loc, cur: Loc, now: int)
    requires Less(cur, x) && x.id != "" && !Expired(x, now) && Expired(cur, now)
    ensures SetLeader(cur, x, now) == x && !Less(x, cur)
  {
    if Less(x, cur) {
      LessTransitive(x, cur, x);
    }
  }

  lemma BehindExample()
    ensures var cur, x := Loc("a", "h", 1, 0, 1, 10, 0), Loc("b", "h", 1, 1, 1, 30, 0);
            Wins(x, cur, 20) && !Less(x, cur)
  {
  }

  function SetLeader(cur: Loc, x: Loc, now: int): Loc {
    if Wins(x, cur, now) then x else cur
  }

  function Fold(cur: Loc, xs: seq<Loc>, now: int): Loc
    decreases |xs|
  {
    if xs == [] then cur else Fold(SetLeader(cur, xs[0], now), xs[1..], now)
  }

  predicate Candidate(c: Loc, cur: Loc, xs: seq<Loc>, now: int) {
    !Expired(c, now) && (c == cur || (c in xs && c.id != ""))
  }

  /** `lead` is a candidate, and no candidate is before it. */
  ghost predicate Least(lead: Loc, cur: Loc, xs: seq<Loc>, now: int) {
    Candidate(lead, cur, xs, now) && forall c :: Candidate(c, cur, xs, now) ==> !Less(c, lead)
  }

  /** Folding setLeader over any proposals leaves the least unexpired candidate, counting an
      unexpired current leader, or the current leader when there is none. */
  lemma {:induction false} FoldLeast(cur: Loc, xs: seq<Loc>, now: int)
    ensures (exists c :: Candidate(c, cur, xs, now)) ==> Least(Fold(cur, xs, now), cur, xs, now)
    ensures !(exists c :: Candidate(c, cur, xs, now)) ==> Fold(cur, xs, now) == cur
    decreases |xs|
  {
    if xs == [] {
      LessIrreflexive(cur);
    } else {
      var next := SetLeader(cur, xs[0], now);
      FoldLeast(next, xs[1..], now);
      CandidatesStep(cur, xs, now);
      var lead := Fold(cur, xs, now);
      forall c | Candidate(c, cur, xs, now)
        ensures (exists d :: Candidate(d, next, xs[1..], now)) && !Less(c, lead) {
        StepBounds(cur, xs, now, c);
        if !Candidate(c, next, xs[1..], now) {
          NotLessTransitive(lead, next, c);
        }
      }
    }
  }

  lemma LessIrreflexive(a: Loc)
    ensures !Less(a, a)
  {
  }

  /** Whatever is a candidate after one step was one before. */
  lemma CandidatesStep(cur: Loc, xs: seq<Loc>, now: int)
    requires xs != []
    ensures var next := SetLeader(cur, xs[0], now);
            forall c :: Candidate(c, next, xs[1..], now) ==> Candidate(c, cur, xs, now)
  {
  }

  /** A candidate is still one after the step, or the new leader is at least as good. */
  lemma StepBounds(cur: Loc, xs: seq<Loc>, now: int, c: Loc)
    requires xs != [] && Candidate(c, cur, xs, now)
    ensures var next := SetLeader(cur, xs[0], now);
            Candidate(c, next, xs[1..], now) || (Candidate(next, next, xs[1..], now) && !Less(c, next))
  {
    assert xs == [xs[0]] + xs[1..];
    LessIrreflexive(c);
    if Less(xs[0], cur) && Less(cur, xs[0]) {
      LessTransitive(cur, xs[0], cur);
    }
  }

  /** Of all agents that were offered with an id and an unexpired lease, and of an unexpired current
      leader, the fold keeps the most electable one; of the records of that agent, the latest lease. */
  lemma FoldElects(cur: Loc, xs: seq<Loc>, now: int, c: Loc)
    requires !Expired(c, now) && (c == cur || (c in xs && c.id != ""))
    ensures var lead := Fold(cur, xs, now);
      && !Expired(lead, now) && (lead == cur || (lead in xs && lead.id != ""))
      && Electable(lead, c)
      && (SameAgent(lead, c) ==> UnixNano(lead.lease) >= UnixNano(c.lease))
  {
    assert Candidate(c, cur, xs, now);
    FoldLeast(cur, xs, now);
    OrderExactly(Fold(cur, xs, now), c);
  }

  /** The outcome does not depend on the order or the repetition of proposals, up to ties. */
  lemma FoldOrderFree(cur: Loc, xs: seq<Loc>, ys: seq<Loc>, now: int)
    requires forall x :: x in xs <==> x in ys
    ensures Tied(Fold(cur, xs, now), Fold(cur, ys, now))
  {
    FoldLeast(cur, xs, now);
    FoldLeast(cur, ys, now);
    assert forall c :: Candidate(c, cur, xs, now) <==> Candidate(c, cur, ys, now);
    LessIrreflexive(cur);
  }

  // ---------- the candidates of a round ----------

  /** The rank tree: in order, no two members tied. */
  ghost predicate Ranked(t: seq<Loc>) {
    forall i, j :: 0 <= i < j < |t| ==> Less(t[i], t[j])
  }

  /** Replace the tied member, or insert in order. */
  function Insert(t: seq<Loc>, x: Loc): seq<Loc> {
    if t == [] then [x]
    else if Less(x, t[0]) then [x] + t
    else if Less(t[0], x) then [t[0]] + Insert(t[1..], x)
    else [x] + t[1..]
  }

  function Delete(t: seq<Loc>, x: Loc): seq<Loc> {
    if t == [] then []
    else if Tied(x, t[0]) then t[1..]
    else [t[0]] + Delete(t[1..], x)
  }

  predicate Has(t: seq<Loc>, x: Loc) {
    exists i :: 0 <= i < |t| && Tied(t[i], x)
  }

  lemma {:induction false} InsertHas(t: seq<Loc>, x: Loc, y: Loc)
    ensures Has(Insert(t, x), y) <==> Has(t, y) || Tied(x, y)
  {
    if t != [] {
      HasHead(Insert(t, x), y);
      HasHead(t, y);
      if Less(x, t[0]) {
        assert ([x] + t)[1..] == t;
      } else if Less(t[0], x) {
        InsertHas(t[1..], x, y);
        assert Insert(t, x)[1..] == Insert(t[1..], x);
      } else {
        assert ([x] + t[1..])[1..] == t[1..];
        SameTies(x, t[0], y);
      }
    } else {
      HasHead([x], y);
      assert !Has([x][1..], y) && !Has(t, y);
    }
  }

  lemma SameTies(x: Loc, z: Loc, y: Loc)
    requires Tied(x, z)
    ensures Tied(x, y) <==> Tied(z, y)
  {
    TiedExactly(x, z);
    TiedExactly(x, y);
    TiedExactly(z, y);
  }

  lemma HasHead(t: seq<Loc>, y: Loc)
    requires t != []
    ensures Has(t, y) <==> Tied(t[0], y) || Has(t[1..], y)
  {
    if Has(t, y) {
      var i :| 0 <= i < |t| && Tied(t[i], y);
      assert i > 0 ==> t[1..][i - 1] == t[i];
    }
    if Has(t[1..], y) {
      var i :| 0 <= i < |t[1..]| && Tied(t[1..][i], y);
      assert t[i + 1] == t[1..][i];
    }
  }

  lemma {:induction false} InsertRanked(t: seq<Loc>, x: Loc)
    requires Ranked(t)
    ensures Ranked(Insert(t, x))
    ensures forall i :: 0 <= i < |Insert(t, x)| ==> Insert(t, x)[i] == x || Insert(t, x)[i] in t
  {
    if t != [] {
      var r := Insert(t, x);
      if Less(x, t[0]) {
        forall i | 0 < i < |r| ensures Less(r[0], r[i]) {
          if i > 1 {
            LessTransitive(x, t[0], t[i - 1]);
          }
        }
      } else if Less(t[0], x) {
        InsertRanked(t[1..], x);
        forall i | 0 < i < |r| ensures Less(r[0], r[i]) {
          assert r[i] == Insert(t[1..], x)[i - 1];
        }
      } else {
        forall i | 0 < i < |r| ensures Less(r[0], r[i]) {
          TiedBefore(x, t[0], t[i]);
        }
      }
    }
  }

  lemma TiedBefore(x: Loc, z: Loc, y: Loc)
    requires Tied(x, z) && Less(z, y)
    ensures Less(x, y)
  {
    TiedExactly(x, z);
  }

  lemma {:induction false} DeleteHas(t: seq<Loc>, x: Loc, y: Loc)
    requires Ranked(t)
    ensures Has(Delete(t, x), y) <==> Has(t, y) && !Tied(x, y)
  {
    if t != [] {
      HasHead(t, y);
      if Tied(x, t[0]) {
        SameTies(x, t[0], y);
        if Tied(t[0], y) {
          NoOtherTie(t, y);
        }
      } else {
        DeleteHas(t[1..], x, y);
        HasHead(Delete(t, x), y);
        assert Delete(t, x)[1..] == Delete(t[1..], x);
        if Tied(x, y) {
          SameTies(x, y, t[0]);
        }
      }
    }
  }

  lemma NoOtherTie(t: seq<Loc>, y: Loc)
    requires Ranked(t) && t != [] && Tied(t[0], y)
    ensures !Has(t[1..], y)
  {
    forall i | 0 <= i < |t[1..]| ensures !Tied(t[1..][i], y) {
      assert Less(t[0], t[i + 1]);
      SameTies(t[0], y, t[i + 1]);
    }
  }

  lemma {:induction false} DeleteRanked(t: seq<Loc>, x: Loc)
    requires Ranked(t)
    ensures Ranked(Delete(t, x)) && forall i :: 0 <= i < |Delete(t, x)| ==> Delete(t, x)[i] in t
  {
    if t != [] && !Tied(x, t[0]) {
      DeleteRanked(t[1..], x);
    }
  }

  /** Iteration goes in order up to the empty agent. */
  function Named(t: seq<Loc>): seq<Loc> {
    if t == [] || !Less(t[0], NOBODY) then [] else [t[0]] + Named(t[1..])
  }

  function InsertAll(t: seq<Loc>, xs: seq<Loc>): seq<Loc>
    decreases |xs|
  {
    if xs == [] then t else InsertAll(Insert(t, xs[0]), xs[1..])
  }

  function DeleteAll(t: seq<Loc>, xs: seq<Loc>): seq<Loc>
    decreases |xs|
  {
    if xs == [] then t else DeleteAll(Delete(t, xs[0]), xs[1..])
  }

  function Clone(t: seq<Loc>): seq<Loc> {
    InsertAll([], Named(t))
  }

  function SetDiff(a: seq<Loc>, b: seq<Loc>): seq<Loc> {
    DeleteAll(Clone(a), Named(b))
  }

  predicate SetsEqual(a: seq<Loc>, b: seq<Loc>) {
    |a| == |b| && forall i :: 0 <= i < |Named(a)| ==> Has(b, Named(a)[i])
  }

  lemma {:induction false} InsertAllHas(t: seq<Loc>, xs: seq<Loc>, y: Loc)
    requires Ranked(t)
    ensures Ranked(InsertAll(t, xs))
    ensures Has(InsertAll(t, xs), y) <==> Has(t, y) || Has(xs, y)
    decreases |xs|
  {
    if xs != [] {
      InsertRanked(t, xs[0]);
      InsertHas(t, xs[0], y);
      InsertAllHas(Insert(t, xs[0]), xs[1..], y);
      HasHead(xs, y);
    }
  }

  lemma {:induction false} DeleteAllHas(t: seq<Loc>, xs: seq<Loc>, y: Loc)
    requires Ranked(t)
    ensures Ranked(DeleteAll(t, xs))
    ensures Has(DeleteAll(t, xs), y) <==> Has(t, y) && !Has(xs, y)
    decreases |xs|
  {
    if xs != [] {
      DeleteRanked(t, xs[0]);
      DeleteHas(t, xs[0], y);
      DeleteAllHas(Delete(t, xs[0]), xs[1..], y);
      HasHead(xs, y);
    }
  }

  lemma LastIsLast(t: seq<Loc>)
    requires Ranked(t) && t != [] && t[0].id == ""
    ensures |t| == 1
  {
    assert |t| == 1 || !Less(t[0], t[1]);
  }

  lemma {:induction false} NamedHas(t: seq<Loc>, y: Loc)
    requires Ranked(t)
    ensures Has(Named(t), y) <==> Has(t, y) && y.id != ""
  {
    if t != [] {
      HasHead(t, y);
      TiedExactly(t[0], y);
      if Less(t[0], NOBODY) {
        NamedHas(t[1..], y);
        HasHead(Named(t), y);
        assert Named(t)[1..] == Named(t[1..]);
      } else {
        LastIsLast(t);
        assert t[1..] == [] && !Has([], y);
      }
    }
  }

  /** setDiff: everybody with an id that is in `a` and not in `b`. */
  lemma SetDiffHas(a: seq<Loc>, b: seq<Loc>, y: Loc)
    requires Ranked(a) && Ranked(b)
    ensures Ranked(SetDiff(a, b))
    ensures Has(SetDiff(a, b), y) <==> y.id != "" && Has(a, y) && !Has(b, y)
  {
    InsertAllHas([], Named(a), y);
    DeleteAllHas(Clone(a), Named(b), y);
    NamedHas(a, y);
    NamedHas(b, y);
  }

  predicate HasNobody(t: seq<Loc>) {
    Has(t, NOBODY)
  }

  ghost predicate SameSet(a: seq<Loc>, b: seq<Loc>) {
    forall y :: Has(a, y) <==> Has(b, y)
  }

  /** Everybody in `a` is in `b`. */
  ghost predicate Subset(a: seq<Loc>, b: seq<Loc>) {
    forall i :: 0 <= i < |a| ==> Has(b, a[i])
  }

  lemma DropFirst(a: seq<Loc>, b: seq<Loc>)
    requires Ranked(a) && Ranked(b) && b != [] && Subset(a, b)
    requires a != [] ==> !Tied(b[0], a[0])
    ensures Subset(a, b[1..])
  {
    forall i | 0 <= i < |a| ensures Has(b[1..], a[i]) {
      HasHead(b, a[0]);
      HasHead(b, a[i]);
      if Tied(b[0], a[i]) && i > 0 {
        var j :| 0 <= j < |b[1..]| && Tied(b[1..][j], a[0]);
        assert Less(b[0], b[j + 1]);
        TiedTransitiveLess(b[0], b[j + 1], a[0]);
        LessTransitive(b[0], a[0], a[i]);
      }
    }
  }

  lemma TailSubset(a: seq<Loc>, b: seq<Loc>)
    requires Ranked(a) && Ranked(b) && a != [] && b != [] && Subset(a, b) && Tied(b[0], a[0])
    ensures Subset(a[1..], b[1..])
  {
    forall i | 0 <= i < |a[1..]| ensures Has(b[1..], a[1..][i]) {
      HasHead(b, a[i + 1]);
      if Tied(b[0], a[i + 1]) {
        SameTies(b[0], a[0], a[i + 1]);
      }
    }
  }

  /** Ranked trees, one inside the other: the inner is no longer, and if it is as long they agree
      place by place. */
  lemma {:induction false} SubsetRanked(a: seq<Loc>, b: seq<Loc>)
    requires Ranked(a) && Ranked(b) && Subset(a, b)
    ensures |a| <= |b| && (|a| == |b| ==> forall i :: 0 <= i < |a| ==> Tied(a[i], b[i]))
    decreases |b|
  {
    if b == [] {
      assert forall y :: !Has(b, y);
    } else if a != [] && Tied(b[0], a[0]) {
      TailSubset(a, b);
      SubsetRanked(a[1..], b[1..]);
      forall i | 0 <= i < |a| && |a| == |b| ensures Tied(a[i], b[i]) {
        assert i > 0 ==> Tied(a[1..][i - 1], b[1..][i - 1]);
      }
    } else {
      DropFirst(a, b);
      SubsetRanked(a, b[1..]);
    }
  }

  lemma PlacesAgree(a: seq<Loc>, b: seq<Loc>)
    requires |a| == |b| && forall i :: 0 <= i < |a| ==> Tied(a[i], b[i])
    ensures SameSet(a, b)
  {
    forall y ensures Has(a, y) <==> Has(b, y) {
      if Has(a, y) {
        var i :| 0 <= i < |a| && Tied(a[i], y);
        SameTies(a[i], b[i], y);
      }
      if Has(b, y) {
        var i :| 0 <= i < |b| && Tied(b[i], y);
        SameTies(a[i], b[i], y);
      }
    }
  }

  lemma SameSetSubset(a: seq<Loc>, b: seq<Loc>)
    requires SameSet(a, b)
    ensures Subset(a, b) && Subset(b, a)
  {
    forall i | 0 <= i < |a| ensures Has(b, a[i]) {
      assert Tied(a[i], a[i]);
      assert Has(a, a[i]);
    }
    forall i | 0 <= i < |b| ensures Has(a, b[i]) {
      assert Tied(b[i], b[i]);
      assert Has(b, b[i]);
    }
  }

  lemma NamedSubset(a: seq<Loc>, b: seq<Loc>)
    requires Ranked(a) && Ranked(b) && SetsEqual(a, b) && (HasNobody(a) ==> HasNobody(b))
    ensures Subset(a, b)
  {
    forall i | 0 <= i < |a| ensures Has(b, a[i]) {
      var x := a[i];
      assert Tied(x, x);
      if x.id == "" {
        TiedExactly(x, NOBODY);
        var j :| 0 <= j < |b| && Tied(b[j], NOBODY);
        SameTies(NOBODY, x, b[j]);
      } else {
        NamedHas(a, x);
        var j :| 0 <= j < |Named(a)| && Tied(Named(a)[j], x);
        HasTied(b, Named(a)[j], x);
      }
    }
  }

  lemma HasTied(t: seq<Loc>, x: Loc, y: Loc)
    requires Has(t, x) && Tied(x, y)
    ensures Has(t, y)
  {
    var i :| 0 <= i < |t| && Tied(t[i], x);
    TiedTransitive(t[i], x, y);
  }

  lemma SameSetEqual(a: seq<Loc>, b: seq<Loc>)
    requires Ranked(a) && Ranked(b) && SameSet(a, b)
    ensures SetsEqual(a, b) && forall i :: 0 <= i < |a| ==> Tied(a[i], b[i])
  {
    SameSetSubset(a, b);
    SubsetRanked(a, b);
    SubsetRanked(b, a);
    NamedInTree(a, b);
  }

  lemma NamedInTree(a: seq<Loc>, b: seq<Loc>)
    requires Ranked(a) && SameSet(a, b)
    ensures forall i :: 0 <= i < |Named(a)| ==> Has(b, Named(a)[i])
  {
    forall i | 0 <= i < |Named(a)| ensures Has(b, Named(a)[i]) {
      var x := Named(a)[i];
      assert Tied(x, x);
      assert Has(Named(a), x);
      NamedHas(a, x);
    }
  }

  /** setsEqual tells whether the sets are equal, unless the empty agent is in the first tree and
      not in the second. */
  lemma SetsEqualUnless(a: seq<Loc>, b: seq<Loc>)
    requires Ranked(a) && Ranked(b) && (HasNobody(a) ==> HasNobody(b))
    ensures SetsEqual(a, b) <==> SameSet(a, b)
  {
    if SetsEqual(a, b) {
      NamedSubset(a, b);
      SubsetRanked(a, b);
      PlacesAgree(a, b);
    } else if SameSet(a, b) {
      SameSetEqual(a, b);
    }
  }

  lemma {:induction false} NamedPrefix(t: seq<Loc>)
    requires Ranked(t)
    ensures |Named(t)| == (if HasNobody(t) then |t| - 1 else |t|) && Named(t) == t[..|Named(t)|]
  {
    if t != [] {
      HasHead(t, NOBODY);
      TiedExactly(t[0], NOBODY);
      if Less(t[0], NOBODY) {
        NamedPrefix(t[1..]);
      } else {
        LastIsLast(t);
      }
    }
  }

  lemma {:induction false} NamedHaveIds(t: seq<Loc>)
    ensures forall i :: 0 <= i < |Named(t)| ==> Named(t)[i].id != ""
    ensures |Named(t)| <= |t| && (|Named(t)| < |t| ==> t[|Named(t)|].id == "")
  {
    if t != [] && Less(t[0], NOBODY) {
      NamedHaveIds(t[1..]);
    }
  }

  lemma {:induction false} InsertGrows(t: seq<Loc>, x: Loc)
    requires !Has(t, x)
    ensures |Insert(t, x)| == |t| + 1
  {
    if t != [] {
      HasHead(t, x);
      InsertGrows(t[1..], x);
    }
  }

  /** With the empty agent in the first tree only, setsEqual takes it for anybody at all. */
  lemma NobodyFools(a: seq<Loc>, x: Loc)
    requires Ranked(a) && HasNobody(a) && x.id != "" && !Has(a, x)
    ensures var b := Insert(Named(a), x); Ranked(b) && SetsEqual(a, b) && !SameSet(a, b)
  {
    var t := Named(a);
    var b := Insert(t, x);
    NamedPrefix(a);
    NamedHas(a, x);
    InsertRanked(t, x);
    InsertGrows(t, x);
    forall i | 0 <= i < |t| ensures Has(b, t[i]) {
      assert Tied(t[i], t[i]);
      assert Has(t, t[i]);
      InsertHas(t, x, t[i]);
    }
    InsertHas(t, x, x);
    assert Tied(x, x);
  }

  /** An id that nobody in the tree has. */
  function FreshId(t: seq<Loc>): (id: string)
    ensures id != "" && forall i :: 0 <= i < |t| ==> |t[i].id| < |id|
  {
    if t == [] then "x" else t[0].id + FreshId(t[1..])
  }

  /** setsEqual decides equality with every other tree exactly if the empty agent is not in the
      first one. */
  lemma SetsEqualExactly(a: seq<Loc>)
    requires Ranked(a)
    ensures (forall b :: Ranked(b) ==> (SetsEqual(a, b) <==> SameSet(a, b))) <==> !HasNobody(a)
  {
    if HasNobody(a) {
      var x := NOBODY.(id := FreshId(a));
      if Has(a, x) {
        var i :| 0 <= i < |a| && Tied(a[i], x);
        TiedExactly(a[i], x);
      }
      NobodyFools(a, x);
    } else {
      forall b | Ranked(b) ensures SetsEqual(a, b) <==> SameSet(a, b) {
        SetsEqualUnless(a, b);
      }
    }
  }

  lemma EmptyDiff(a: seq<Loc>, b: seq<Loc>)
    requires Ranked(a) && Ranked(b) && !HasNobody(a)
    ensures SetDiff(a, b) == [] <==> Subset(a, b)
  {
    if SetDiff(a, b) == [] {
      forall i | 0 <= i < |a| ensures Has(b, a[i]) {
        InOwnTree(a, i);
        SetDiffHas(a, b, a[i]);
      }
    } else {
      var y := SetDiff(a, b)[0];
      assert Tied(y, y);
      assert Has(SetDiff(a, b), y);
      SetDiffHas(a, b, y);
      var i :| 0 <= i < |a| && Tied(a[i], y);
      if Has(b, a[i]) {
        HasTied(b, a[i], y);
      }
    }
  }

  lemma InOwnTree(a: seq<Loc>, i: nat)
    requires i < |a| && !HasNobody(a)
    ensures Has(a, a[i]) && a[i].id != ""
  {
    assert Tied(a[i], a[i]);
    TiedExactly(a[i], NOBODY);
  }

  /** Of two trees without the empty agent, setsEqual is true exactly if neither difference has
      anybody in it: a round that finds no change has nobody to announce, and one that finds a
      change has somebody. */
  lemma ChangeIsAnnounced(a: seq<Loc>, b: seq<Loc>)
    requires Ranked(a) && Ranked(b) && !HasNobody(a) && !HasNobody(b)
    ensures SetsEqual(a, b) <==> SetDiff(a, b) == [] && SetDiff(b, a) == []
  {
    SetsEqualUnless(a, b);
    EmptyDiff(a, b);
    EmptyDiff(b, a);
    if SameSet(a, b) {
      SameSetSubset(a, b);
    } else if Subset(a, b) && Subset(b, a) {
      SubsetRanked(a, b);
      SubsetRanked(b, a);
      PlacesAgree(a, b);
    }
  }
}
