/** Heartbeat rounds: collecting pongs, checking the lease, granting leadership. */
module ElectionRounds {
  import opened Common
  import opened Election

  datatype Config = Config(lease: int, skew: int)

  /** One heartbeat: the clock, and the members heard from. */
  datatype Beat = Beat(now: int, mem: seq<Loc>)

  // ---------- collecting ----------

  function Unleased(xs: seq<Loc>): seq<Loc> {
    seq(|xs|, i requires 0 <= i < |xs| => xs[i].(lease := ZERO_TIME))
  }

  /** The set handed to a round: everybody entered since the collector was last cleared, without
      their leases and without agents that have no id. Clearing enters oneself, so from the second
      round on `heard` starts with oneself; the first collector starts empty. */
  function Collected(heard: seq<Loc>): seq<Loc> {
    Clone(InsertAll([], Unleased(heard)))
  }

  lemma CollectedHas(heard: seq<Loc>, y: Loc)
    ensures Ranked(Collected(heard)) && !HasNobody(Collected(heard))
    ensures Collected(heard) != [] ==> Collected(heard)[0].id != ""
    ensures Has(Collected(heard), y) <==> y.id != "" && Has(Unleased(heard), y)
  {
    CollectedMembers(heard, y);
    CollectedMembers(heard, NOBODY);
    if Collected(heard) != [] {
      var x := Collected(heard)[0];
      assert Tied(x, x);
      assert Has(Collected(heard), x);
      CollectedMembers(heard, x);
    }
  }

  lemma CollectedMembers(heard: seq<Loc>, y: Loc)
    ensures Ranked(Collected(heard))
    ensures Has(Collected(heard), y) <==> y.id != "" && Has(Unleased(heard), y)
  {
    var t := InsertAll([], Unleased(heard));
    InsertAllHas([], Unleased(heard), y);
    NamedHas(t, y);
    InsertAllHas([], Named(t), y);
  }

  /** Between the sets of any two rounds setsEqual decides equality, without condition, and it
      finds a change exactly if somebody was lost or gained. */
  lemma RoundsCompared(before: seq<Loc>, heard: seq<Loc>)
    ensures var a, b := Collected(before), Collected(heard);
            && (SetsEqual(a, b) <==> SameSet(a, b))
            && (SetsEqual(a, b) <==> SetDiff(a, b) == [] && SetDiff(b, a) == [])
  {
    CollectedHas(before, NOBODY);
    CollectedHas(heard, NOBODY);
    SetsEqualUnless(Collected(before), Collected(heard));
    ChangeIsAnnounced(Collected(before), Collected(heard));
  }

  // ---------- a round ----------

  predicate LeaseOver(sloc: Loc, now: int, cfg: Config) {
    sloc.lease + cfg.skew <= now
  }

  predicate Elects(sloc: Loc, b: Beat, cfg: Config) {
    LeaseOver(sloc, b.now, cfg) && b.mem != []
  }

  /** The best member, with a lease from now on. */
  function Proposal(b: Beat, cfg: Config): Loc
    requires b.mem != []
  {
    b.mem[0].(lease := b.now + cfg.lease)
  }

  predicate Grants(sloc: Loc, b: Beat, cfg: Config) {
    Elects(sloc, b, cfg) && Wins(Proposal(b, cfg), sloc, b.now)
  }

  function Round(sloc: Loc, b: Beat, cfg: Config): Loc {
    if Elects(sloc, b, cfg) then SetLeader(sloc, Proposal(b, cfg), b.now) else sloc
  }

  function After(beats: seq<Beat>, cfg: Config): Loc {
    if beats == [] then NOBODY else Round(After(beats[..|beats| - 1], cfg), beats[|beats| - 1], cfg)
  }

  /** Round `k` of the run grants leadership. */
  predicate GrantsAt(beats: seq<Beat>, k: nat, cfg: Config) {
    k < |beats| && Grants(After(beats[..k], cfg), beats[k], cfg)
  }

  predicate Forward(beats: seq<Beat>) {
    forall i, j :: 0 <= i < j < |beats| ==> beats[i].now <= beats[j].now
  }

  lemma AfterStep(beats: seq<Beat>, k: nat, cfg: Config)
    requires k < |beats|
    ensures After(beats[..k + 1], cfg) == Round(After(beats[..k], cfg), beats[k], cfg)
  {
    assert beats[..k + 1][..k] == beats[..k];
  }

  /** From a grant on, the stored lease never ends before the granted one. */
  lemma {:induction false} LeaseKept(beats: seq<Beat>, cfg: Config, i: nat, k: nat)
    requires Forward(beats) && GrantsAt(beats, i, cfg) && i < k <= |beats|
    ensures After(beats[..k], cfg).lease >= beats[i].now + cfg.lease
    decreases k
  {
    AfterStep(beats, k - 1, cfg);
    if i < k - 1 {
      LeaseKept(beats, cfg, i, k - 1);
    }
  }

  /** Grants are at least the lease and the clock skew apart. */
  lemma GrantsApart(beats: seq<Beat>, cfg: Config, i: nat, j: nat)
    requires Forward(beats) && i < j && GrantsAt(beats, i, cfg) && GrantsAt(beats, j, cfg)
    ensures beats[j].now - beats[i].now >= cfg.lease + cfg.skew
  {
    LeaseKept(beats, cfg, i, j);
  }

  // ---------- no grant is refused ----------

  predicate SaneLease(x: Loc) {
    x.lease == ZERO_TIME || -TWO63 <= x.lease < TWO63
  }

  /** A clock between the years 1970 and 2262, and a lease that is a 64-bit duration. */
  predicate Clocked(b: Beat, cfg: Config) {
    0 <= b.now < TWO63 && -TWO63 <= cfg.lease < TWO63
  }

  lemma ZeroIsOld()
    ensures UnixNano(ZERO_TIME) < 0
  {
  }

  /** A proposal made after expiry is accepted exactly if it names somebody, leases have a positive
      length and the new one ends within the 64-bit range of nanoseconds. */
  lemma GrantExactly(sloc: Loc, b: Beat, cfg: Config)
    requires Elects(sloc, b, cfg) && Clocked(b, cfg) && SaneLease(sloc) && cfg.skew >= 0
    ensures Grants(sloc, b, cfg) <==> b.mem[0].id != "" && cfg.lease > 0 && b.now + cfg.lease < TWO63
  {
    ZeroIsOld();
  }

  lemma {:induction false} LeasesSane(beats: seq<Beat>, cfg: Config)
    requires (forall k :: 0 <= k < |beats| ==> Clocked(beats[k], cfg)) && cfg.skew >= 0
    ensures SaneLease(After(beats, cfg))
  {
    if beats != [] {
      var before, b := beats[..|beats| - 1], beats[|beats| - 1];
      LeasesSane(before, cfg);
      if Elects(After(before, cfg), b, cfg) {
        GrantExactly(After(before, cfg), b, cfg);
      }
    }
  }

  /** In every run, an election that follows an expired lease makes the proposed leader lead,
      exactly under the condition of `GrantExactly`. */
  lemma NeverRejected(beats: seq<Beat>, cfg: Config, k: nat)
    requires (forall i :: 0 <= i < |beats| ==> Clocked(beats[i], cfg)) && k < |beats| && cfg.skew >= 0
    requires Elects(After(beats[..k], cfg), beats[k], cfg)
    ensures GrantsAt(beats, k, cfg) <==>
              beats[k].mem[0].id != "" && cfg.lease > 0 && beats[k].now + cfg.lease < TWO63
    ensures GrantsAt(beats, k, cfg) ==> After(beats[..k + 1], cfg) == Proposal(beats[k], cfg)
  {
    LeasesSane(beats[..k], cfg);
    GrantExactly(After(beats[..k], cfg), beats[k], cfg);
    AfterStep(beats, k, cfg);
  }

  /** What every heartbeat does: it leaves the leader alone until its lease and the skew are over; then
      the best member heard of leads, with a lease from now on. */
  lemma BeatExactly(beats: seq<Beat>, cfg: Config, k: nat)
    requires (forall i :: 0 <= i < |beats| ==> Clocked(beats[i], cfg)) && k < |beats| && cfg.skew >= 0
    ensures var cur, b := After(beats[..k], cfg), beats[k];
      After(beats[..k + 1], cfg) ==
        if cur.lease + cfg.skew <= b.now && b.mem != [] && b.mem[0].id != ""
           && cfg.lease > 0 && b.now + cfg.lease < TWO63
        then b.mem[0].(lease := b.now + cfg.lease) else cur
  {
    LeasesSane(beats[..k], cfg);
    AfterStep(beats, k, cfg);
    if Elects(After(beats[..k], cfg), beats[k], cfg) {
      GrantExactly(After(beats[..k], cfg), beats[k], cfg);
    }
  }

  // ---------- agreement ----------

  /** Two agents that collected the same member set propose the same leader: same id, rank,
      address and process. */
  lemma SameMembersSameLeader(a: Beat, b: Beat, cfg: Config)
    requires Ranked(a.mem) && Ranked(b.mem) && a.mem != [] && b.mem != [] && SameSet(a.mem, b.mem)
    requires a.mem[0].id != ""
    ensures Proposal(a, cfg).(lease := 0, extra := 0) == Proposal(b, cfg).(lease := 0, extra := 0)
  {
    SameSetEqual(a.mem, b.mem);
    TiedExactly(a.mem[0], b.mem[0]);
  }

  /** Nobody in the set is before the proposed leader. */
  lemma ProposalIsBest(b: Beat, y: Loc)
    requires Ranked(b.mem) && b.mem != [] && Has(b.mem, y)
    ensures !Less(y, b.mem[0])
  {
    var i :| 0 <= i < |b.mem| && Tied(b.mem[i], y);
    if i > 0 {
      assert Less(b.mem[0], b.mem[i]);
      TiedTransitiveLess(b.mem[0], b.mem[i], y);
    }
    NotBoth(b.mem[0], y);
  }

  /** The proposal of a round names the most electable of the members: no named one has a lower rank,
      or the same rank and an id that comes first, and so on through host, port and process. */
  lemma ProposalElects(b: Beat, cfg: Config, y: Loc)
    requires Ranked(b.mem) && b.mem != [] && y in b.mem
    ensures Electable(Proposal(b, cfg), y)
    ensures y.id != "" ==> Proposal(b, cfg).id != "" && Proposal(b, cfg).rank <= y.rank
    ensures Proposal(b, cfg).lease == b.now + cfg.lease
  {
    LessIrreflexive(y);
    assert Has(b.mem, y);
    ProposalIsBest(b, y);
    OrderExactly(b.mem[0], y);
  }

  /** In a round over what was heard, everybody heard with an id counts. */
  lemma HeardElects(heard: seq<Loc>, now: int, cfg: Config, y: Loc)
    requires y in heard && y.id != ""
    ensures Collected(heard) != [] && Electable(Proposal(Beat(now, Collected(heard)), cfg), y)
  {
    var mem, y' := Collected(heard), y.(lease := ZERO_TIME);
    var i :| 0 <= i < |heard| && heard[i] == y;
    assert Unleased(heard)[i] == y';
    LessIrreflexive(y');
    assert Has(Unleased(heard), y');
    CollectedHas(heard, y');
    ProposalIsBest(Beat(now, mem), y');
    OrderExactly(mem[0], y');
  }

  lemma NotBoth(a: Loc, b: Loc)
    ensures !(Less(a, b) && Less(b, a))
  {
    if Less(a, b) && Less(b, a) {
      LessTransitive(a, b, a);
    }
  }

  /** Hearing the same agents, in any order and any number of times, gives the same leader. */
  lemma SamePongsSameLeader(heard: seq<Loc>, heard': seq<Loc>)
    requires forall y :: Has(Unleased(heard), y) <==> Has(Unleased(heard'), y)
    ensures SameSet(Collected(heard), Collected(heard'))
    ensures |Collected(heard)| == |Collected(heard')|
    ensures Collected(heard) != [] ==> Tied(Collected(heard)[0], Collected(heard')[0])
  {
    var a, b := Collected(heard), Collected(heard');
    forall y ensures Has(a, y) <==> Has(b, y) {
      CollectedHas(heard, y);
      CollectedHas(heard', y);
    }
    CollectedHas(heard, NOBODY);
    CollectedHas(heard', NOBODY);
    SameSetEqual(a, b);
  }
}
