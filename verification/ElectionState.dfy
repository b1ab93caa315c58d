/** The leader holder, the rank tree and the heartbeat loop, updated in place. */
module ElectionState {
  import opened Election
  import opened ElectionRounds

  class LeadHolder {
    var sloc: Loc
    var history: seq<Loc>

    constructor ()
      ensures sloc == NOBODY && history == []
    {
      sloc, history := NOBODY, [];
    }

    /** Accept a proposal that is not expired and better than the leader, or the leader's lease has
        run out; `alt` is the leader afterwards. */
    method SetLead(x: Loc, now: int) returns (won: bool, alt: Loc)
      modifies this
      ensures won == Wins(x, old(sloc), now)
      ensures sloc == SetLeader(old(sloc), x, now) && alt == sloc
      ensures history == if won then old(history) + [x] else old(history)
    {
      won, alt := false, sloc;
      if x.id == "" {
        return;
      }
      var curExpired, newExpired := Expired(sloc, now), Expired(x, now);
      if newExpired {
        return;
      }
      var newWon, oldWon := true, false;
      if !curExpired {
        newWon, oldWon := Less(x, sloc), Less(sloc, x);
        NotBoth(x, sloc);
      }
      if !newWon && !oldWon {
        won := x.lease > sloc.lease;
      } else {
        won := newWon;
      }
      if won {
        sloc, alt := x, x;
        history := history + [x];
      }
    }

    /** Offering any number of proposals at one instant keeps the least unexpired candidate. */
    method OfferAll(xs: seq<Loc>, now: int)
      modifies this
      ensures sloc == Fold(old(sloc), xs, now)
      ensures (exists c :: Candidate(c, old(sloc), xs, now)) ==> Least(sloc, old(sloc), xs, now)
      ensures forall c :: c in xs && c.id != "" && !Expired(c, now) ==> Electable(sloc, c)
    {
      FoldLeast(sloc, xs, now);
      forall c | c in xs && c.id != "" && !Expired(c, now) ensures Electable(Fold(sloc, xs, now), c) {
        FoldElects(sloc, xs, now, c);
      }
      for i := 0 to |xs|
        invariant Fold(sloc, xs[i..], now) == Fold(old(sloc), xs, now)
      {
        assert xs[i..][1..] == xs[i + 1..];
        var won, alt := SetLead(xs[i], now);
      }
    }
  }

  class RankTree {
    var items: seq<Loc>

    ghost predicate Valid()
      reads this
    {
      Ranked(items)
    }

    constructor ()
      ensures Valid() && items == []
    {
      items := [];
    }

    method InsertLoc(x: Loc)
      requires Valid()
      modifies this
      ensures Valid() && items == Insert(old(items), x)
    {
      InsertRanked(items, x);
      items := Insert(items, x);
    }

    method DeleteLoc(x: Loc)
      requires Valid()
      modifies this
      ensures Valid() && items == Delete(old(items), x)
    {
      DeleteRanked(items, x);
      items := Delete(items, x);
    }

    /** Copy everybody before the empty agent, in order. */
    method CloneTree() returns (t: RankTree)
      requires Valid()
      ensures fresh(t) && t.Valid() && t.items == Clone(items)
    {
      t := new RankTree();
      var i := 0;
      while i < |items| && Less(items[i], NOBODY)
        invariant 0 <= i <= |items| && t.Valid() && fresh(t)
        invariant InsertAll(t.items, Named(items[i..])) == Clone(items)
      {
        assert items[i..][1..] == items[i + 1..];
        assert Named(items[i..])[1..] == Named(items[i + 1..]);
        t.InsertLoc(items[i]);
        i := i + 1;
      }
    }
  }

  method DiffOf(a: RankTree, b: RankTree) returns (res: RankTree)
    requires a.Valid() && b.Valid()
    ensures fresh(res) && res.Valid() && res.items == SetDiff(a.items, b.items)
  {
    res := a.CloneTree();
    var i := 0;
    while i < |b.items| && Less(b.items[i], NOBODY)
      invariant 0 <= i <= |b.items| && res.Valid() && fresh(res)
      invariant DeleteAll(res.items, Named(b.items[i..])) == SetDiff(a.items, b.items)
    {
      assert b.items[i..][1..] == b.items[i + 1..];
      assert Named(b.items[i..])[1..] == Named(b.items[i + 1..]);
      res.DeleteLoc(b.items[i]);
      i := i + 1;
    }
  }

  method EqualSets(a: RankTree, b: RankTree) returns (same: bool)
    requires a.Valid() && b.Valid()
    ensures same == SetsEqual(a.items, b.items)
  {
    if |a.items| != |b.items| {
      return false;
    }
    var named := Named(a.items);
    NamedPrefix(a.items);
    NamedHaveIds(a.items);
    var i := 0;
    while i < |a.items| && Less(a.items[i], NOBODY)
      invariant 0 <= i <= |named| && named == Named(a.items)
      invariant forall j :: 0 <= j < i ==> Has(b.items, named[j])
    {
      assert i < |named|;
      if !Has(b.items, a.items[i]) {
        return false;
      }
      i := i + 1;
    }
    same := true;
  }

  /** The heartbeat loop over a list of beats. */
  method Rounds(e: LeadHolder, beats: seq<Beat>, cfg: Config) returns (grants: seq<nat>)
    requires e.sloc == NOBODY
    modifies e
    ensures e.sloc == After(beats, cfg)
    ensures forall k: nat :: k in grants <==> GrantsAt(beats, k, cfg)
  {
    grants := [];
    for k := 0 to |beats|
      invariant e.sloc == After(beats[..k], cfg)
      invariant forall i: nat :: i in grants <==> i < k && GrantsAt(beats, i, cfg)
    {
      AfterStep(beats, k, cfg);
      var b := beats[k];
      if e.sloc.lease + cfg.skew <= b.now && b.mem != [] {
        var won, alt := e.SetLead(Proposal(b, cfg), b.now);
        if won {
          grants := grants + [k];
        }
      }
    }
    assert beats[..|beats|] == beats;
  }
}
