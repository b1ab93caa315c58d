/**
 The subject trie as a value: levels of nodes keyed by token, with a node each for `*` and `>`.
 Its meaning is `SubsAt`, the subscriptions stored at a path; insertion and removal change it
 at one path only, and matching collects it over the paths that match.
 */
module Trie {
  import opened Common
  import opened Subjects
  import opened Results

  datatype Node = Node(next: Option<Level>, subs: Result)
  datatype Level = Level(nodes: map<string, Node>, pwc: Option<Node>, fwc: Option<Node>)

  const NEW_LEVEL := Level(map[], None, None)

  function Get(l: Level, tok: Tok): Option<Node> {
    match tok
    case Pwc => l.pwc
    case Fwc => l.fwc
    case Lit(t) => if t in l.nodes then Some(l.nodes[t]) else None
  }

  function Put(l: Level, tok: Tok, n: Node): Level {
    match tok
    case Pwc => l.(pwc := Some(n))
    case Fwc => l.(fwc := Some(n))
    case Lit(t) => l.(nodes := l.nodes[t := n])
  }

  function PruneNode(l: Level, tok: Tok): Level {
    match tok
    case Pwc => l.(pwc := None)
    case Fwc => l.(fwc := None)
    case Lit(t) => l.(nodes := l.nodes - {t})
  }

  function NumNodes(l: Level): nat {
    |l.nodes| + (if l.pwc.Some? then 1 else 0) + (if l.fwc.Some? then 1 else 0)
  }

  predicate IsEmpty(n: Node) {
    n.subs.psubs == [] && n.subs.qsubs == [] && (n.next.None? || NumNodes(n.next.value) == 0)
  }

  /** The subscriptions stored at a path. */
  function SubsAt(l: Level, p: seq<Tok>): Result {
    if p == [] then EMPTY
    else
      match Get(l, p[0])
      case None => EMPTY
      case Some(n) =>
        if |p| == 1 then n.subs
        else if n.next.None? then EMPTY
        else SubsAt(n.next.value, p[1..])
  }

  // ---------- insertion ----------

  datatype Inserted = Inserted(level: Level, ok: bool)

  /** The node for `tok` with a level below it, both created when missing. */
  function Reach(l: Level, tok: Tok): (n: Node)
    ensures n.next.Some?
  {
    match Get(l, tok)
    case None => Node(Some(NEW_LEVEL), EMPTY)
    case Some(n) => if n.next.None? then n.(next := Some(NEW_LEVEL)) else n
  }

  /** Insert walks the tokens, creating what is missing, and stops at a bad token. */
  function Insert(l: Level, ts: seq<string>, sfwc: bool, sub: Sub): Inserted
    requires ts != []
    decreases |ts|
  {
    if ts[0] == "" || sfwc then Inserted(l, false)
    else
      var tok := Classify(ts[0]);
      var n := Reach(l, tok);
      if |ts| == 1 then Inserted(Put(l, tok, n.(subs := AddSub(n.subs, sub))), true)
      else
        var r := Insert(n.next.value, ts[1..], tok == Fwc, sub);
        Inserted(Put(l, tok, n.(next := Some(r.level))), r.ok)
  }

  lemma {:induction false} InsertOk(l: Level, ts: seq<string>, sfwc: bool, sub: Sub)
    requires ts != []
    ensures Insert(l, ts, sfwc, sub).ok <==> ValidTokens(ts) && !sfwc
    decreases |ts|
  {
    if ts[0] != "" && !sfwc && |ts| > 1 {
      InsertOk(Reach(l, Classify(ts[0])).next.value, ts[1..], Classify(ts[0]) == Fwc, sub);
    }
  }

  lemma ReachSubs(l: Level, tok: Tok, p: seq<Tok>)
    requires p != [] && p[0] == tok
    ensures |p| == 1 ==> Reach(l, tok).subs == SubsAt(l, p)
    ensures |p| > 1 ==> SubsAt(Reach(l, tok).next.value, p[1..]) == SubsAt(l, p)
  {
    if |p| > 1 {
      assert SubsAt(NEW_LEVEL, p[1..]) == EMPTY;
    }
  }

  lemma PutSubs(l: Level, tok: Tok, n: Node, p: seq<Tok>)
    requires p != []
    ensures p[0] != tok ==> SubsAt(Put(l, tok, n), p) == SubsAt(l, p)
    ensures p[0] == tok && |p| == 1 ==> SubsAt(Put(l, tok, n), p) == n.subs
    ensures p[0] == tok && |p| > 1 ==>
      SubsAt(Put(l, tok, n), p) == if n.next.None? then EMPTY else SubsAt(n.next.value, p[1..])
  {
  }

  /** Insertion adds the subscription at its path and changes nothing else; a bad subject adds nothing. */
  lemma {:induction false} InsertSubs(l: Level, ts: seq<string>, sfwc: bool, sub: Sub, p: seq<Tok>)
    requires ts != [] && p != []
    ensures var r := Insert(l, ts, sfwc, sub);
      SubsAt(r.level, p) == if r.ok && p == Path(ts) then AddSub(SubsAt(l, p), sub) else SubsAt(l, p)
    decreases |ts|
  {
    if ts[0] != "" && !sfwc {
      var tok := Classify(ts[0]);
      var n := Reach(l, tok);
      var r := Insert(l, ts, sfwc, sub);
      PutSubs(l, tok, Get(r.level, tok).value, p);
      assert Path(ts)[1..] == Path(ts[1..]) && Path(ts)[0] == tok;
      if p[0] == tok {
        ReachSubs(l, tok, p);
        if |ts| > 1 && |p| > 1 {
          InsertSubs(n.next.value, ts[1..], tok == Fwc, sub, p[1..]);
          assert p == [tok] + p[1..] && Path(ts) == [tok] + Path(ts[1..]);
        } else if |ts| == 1 {
          assert Path(ts) == [tok];
          if |p| == 1 { assert p == [tok]; }
        }
      }
    }
  }

  // ---------- removal ----------

  datatype Removal = Removed(level: Level) | ErrNotFound | ErrInvalidSubject

  /** Put a changed node back, or take it out when nothing is left in it. */
  function PutOrPrune(l: Level, tok: Tok, n: Node): Level {
    if IsEmpty(n) then PruneNode(l, tok) else Put(l, tok, n)
  }

  function Remove(l: Option<Level>, ts: seq<string>, sfwc: bool, sub: Sub): Removal
    requires ts != []
    decreases |ts|
  {
    if ts[0] == "" || sfwc then ErrInvalidSubject
    else if l.None? then ErrNotFound
    else
      var tok := Classify(ts[0]);
      var n := Get(l.value, tok);
      if |ts| == 1 then
        if n.None? || RemoveSub(n.value.subs, sub).None? then ErrNotFound
        else Removed(PutOrPrune(l.value, tok, n.value.(subs := RemoveSub(n.value.subs, sub).value)))
      else
        var r := Remove(if n.None? then None else n.value.next, ts[1..], tok == Fwc, sub);
        if r.Removed? then
          (if n.None? then ErrNotFound
           else Removed(PutOrPrune(l.value, tok, n.value.(next := Some(r.level)))))
        else r
  }

  lemma {:induction false} EmptyBelow(l: Level, p: seq<Tok>)
    requires NumNodes(l) == 0
    ensures SubsAt(l, p) == EMPTY
  {
    if p != [] {
      assert l.nodes.Keys == {};
    }
  }

  lemma PutOrPruneSubs(l: Level, tok: Tok, n: Node, p: seq<Tok>)
    requires p != []
    ensures p[0] != tok ==> SubsAt(PutOrPrune(l, tok, n), p) == SubsAt(l, p)
    ensures p[0] == tok && |p| == 1 ==> SubsAt(PutOrPrune(l, tok, n), p) == n.subs
    ensures p[0] == tok && |p| > 1 ==>
      SubsAt(PutOrPrune(l, tok, n), p) == if n.next.None? then EMPTY else SubsAt(n.next.value, p[1..])
  {
    if IsEmpty(n) {
      assert n.subs == EMPTY;
      if |p| > 1 && n.next.Some? { EmptyBelow(n.next.value, p[1..]); }
    } else {
      PutSubs(l, tok, n, p);
    }
  }

  lemma {:induction false} RemoveNone(ts: seq<string>, sfwc: bool, sub: Sub)
    requires ts != []
    ensures !Remove(None, ts, sfwc, sub).Removed?
  {
  }

  /** Removal takes the subscription out at its path and changes nothing else. */
  lemma {:induction false} RemoveSubs(l: Level, ts: seq<string>, sfwc: bool, sub: Sub, p: seq<Tok>)
    requires ts != [] && p != [] && Remove(Some(l), ts, sfwc, sub).Removed?
    ensures RemoveSub(SubsAt(l, Path(ts)), sub).Some?
    ensures SubsAt(Remove(Some(l), ts, sfwc, sub).level, p) ==
            if p == Path(ts) then RemoveSub(SubsAt(l, p), sub).value else SubsAt(l, p)
    decreases |ts|
  {
    var tok := Classify(ts[0]);
    var n := Get(l, tok);
    assert Path(ts)[1..] == Path(ts[1..]) && Path(ts)[0] == tok;
    if |ts| == 1 {
      assert Path(ts) == [tok];
      PutOrPruneSubs(l, tok, n.value.(subs := RemoveSub(n.value.subs, sub).value), p);
      if |p| == 1 && p[0] == tok { assert p == [tok]; }
    } else {
      RemoveNone(ts[1..], tok == Fwc, sub);
      var below := n.value.next;
      var r := Remove(below, ts[1..], tok == Fwc, sub);
      PutOrPruneSubs(l, tok, n.value.(next := Some(r.level)), p);
      RemoveSubs(below.value, ts[1..], tok == Fwc, sub, if |p| > 1 then p[1..] else p);
      if p[0] == tok { assert p == [tok] + p[1..] && Path(ts) == [tok] + Path(ts[1..]); }
    }
  }

  /** The subscription is removed exactly when it is stored at its path. */
  lemma {:induction false} RemoveFinds(l: Level, ts: seq<string>, sfwc: bool, sub: Sub)
    requires ts != []
    ensures Remove(Some(l), ts, sfwc, sub).Removed? <==>
            ValidTokens(ts) && !sfwc && RemoveSub(SubsAt(l, Path(ts)), sub).Some?
    decreases |ts|
  {
    if ts[0] != "" && !sfwc {
      var tok := Classify(ts[0]);
      var n := Get(l, tok);
      assert Path(ts)[1..] == Path(ts[1..]) && Path(ts)[0] == tok;
      if |ts| > 1 {
        RemoveNone(ts[1..], tok == Fwc, sub);
        if n.Some? && n.value.next.Some? {
          RemoveFinds(n.value.next.value, ts[1..], tok == Fwc, sub);
        }
      } else {
        assert Path(ts) == [tok];
      }
    }
  }

  // ---------- matching ----------

  function Add(r: Result, n: Option<Node>): Result {
    if n.None? then r else Merge(r, n.value.subs)
  }

  function Below(n: Option<Node>): Option<Level> {
    if n.None? then None else n.value.next
  }

  /** The results collected from level `l` for the remaining literal tokens. */
  function MatchAt(l: Option<Level>, toks: seq<string>, acc: Result): Result
    decreases |toks|
  {
    if l.None? || toks == [] then acc
    else
      var lv := l.value;
      var n := Get(lv, Lit(toks[0]));
      var acc1 := Add(acc, lv.fwc);
      if |toks| == 1 then Add(Add(acc1, n), lv.pwc)
      else MatchAt(Below(n), toks[1..], MatchAt(Below(lv.pwc), toks[1..], acc1))
  }

  method MatchLevel(l: Option<Level>, toks: seq<string>, results: Result) returns (r: Result)
    ensures r == MatchAt(l, toks, results)
    decreases |toks|
  {
    r := results;
    var lv := l;
    var pwc, n: Option<Node> := None, None;
    var i := 0;
    while i < |toks|
      invariant i <= |toks|
      invariant i < |toks| ==> MatchAt(lv, toks[i..], r) == MatchAt(l, toks, results)
      invariant 0 < i == |toks| ==> Add(Add(r, n), pwc) == MatchAt(l, toks, results)
      invariant i == 0 ==> n == None && pwc == None && lv == l && r == results
    {
      if lv.None? {
        return;
      }
      var cur := lv.value;
      r := Add(r, cur.fwc);
      pwc := cur.pwc;
      assert toks[i..][1..] == toks[i + 1..];
      if pwc.Some? {
        r := MatchLevel(pwc.value.next, toks[i + 1..], r);
      }
      n := Get(cur, Lit(toks[i]));
      lv := Below(n);
      i := i + 1;
    }
    r := Add(r, n);
    r := Add(r, pwc);
  }

  /** `x` is stored at path `p` and nowhere else; at no path at all when `p` is empty. */
  ghost predicate OnlyAt(l: Level, x: Sub, p: seq<Tok>) {
    forall q :: q != p ==> Total(SubsAt(l, q), x) == 0
  }

  function Tail(p: seq<Tok>, tok: Tok): seq<Tok> {
    if p != [] && p[0] == tok then p[1..] else []
  }

  lemma OnlyBelow(l: Level, x: Sub, p: seq<Tok>, tok: Tok)
    requires OnlyAt(l, x, p) && Get(l, tok).Some? && Get(l, tok).value.next.Some?
    ensures OnlyAt(Get(l, tok).value.next.value, x, Tail(p, tok))
  {
    var lv := Get(l, tok).value.next.value;
    forall q | q != Tail(p, tok) ensures Total(SubsAt(lv, q), x) == 0 {
      if q != [] {
        assert ([tok] + q)[1..] == q;
        assert SubsAt(l, [tok] + q) == SubsAt(lv, q);
        assert [tok] + q != p;
      }
    }
  }

  /** What a level stores below `tok` at the rest of `p`. */
  ghost function CountBelow(l: Option<Level>, p: seq<Tok>, x: Sub): nat {
    if l.None? then 0 else Total(SubsAt(l.value, p), x)
  }

  lemma AddTotal(r: Result, n: Option<Node>, x: Sub)
    ensures Total(Add(r, n), x) == Total(r, x) + (if n.None? then 0 else Total(n.value.subs, x))
  {
    if n.Some? { MergeTotal(r, n.value.subs, x); }
  }

  /** `>` comes last. */
  predicate ValidPath(p: seq<Tok>) {
    p == [] || ((p[0] == Fwc ==> |p| == 1) && ValidPath(p[1..]))
  }

  lemma {:induction false} PathValid(ts: seq<string>)
    requires ValidTokens(ts)
    ensures ValidPath(Path(ts))
  {
    if ts != [] {
      PathValid(ts[1..]);
      assert Path(ts)[1..] == Path(ts[1..]);
    }
  }

  /** The last literal token: one of three nodes can hold `x`. */
  lemma MatchOne(lv: Level, toks: seq<string>, x: Sub, p: seq<Tok>)
    requires |toks| == 1 && OnlyAt(lv, x, p) && ValidPath(p)
    ensures Total(SubsAt(lv, [Fwc]), x) + Total(SubsAt(lv, [Lit(toks[0])]), x) + Total(SubsAt(lv, [Pwc]), x)
            == if Matches(p, toks) then Total(SubsAt(lv, p), x) else 0
  {
    if |p| == 1 {
      assert p == [p[0]] && p[1..] == [] && toks[1..] == [];
    }
  }

  /** What the `tok` branch contributes when there are more tokens to come. */
  ghost function Branch(lv: Level, tok: Tok, rest: seq<string>, x: Sub, p: seq<Tok>): nat {
    if Matches(Tail(p, tok), rest) then CountBelow(Below(Get(lv, tok)), Tail(p, tok), x) else 0
  }

  lemma BranchOf(lv: Level, tok: Tok, rest: seq<string>, x: Sub, p: seq<Tok>)
    requires rest != []
    ensures Branch(lv, tok, rest, x, p) ==
            if |p| > 1 && p[0] == tok && Matches(p[1..], rest) then Total(SubsAt(lv, p), x) else 0
  {
  }

  lemma MatchMany(lv: Level, toks: seq<string>, x: Sub, p: seq<Tok>)
    requires |toks| > 1 && OnlyAt(lv, x, p) && ValidPath(p)
    ensures Total(SubsAt(lv, [Fwc]), x) + Branch(lv, Pwc, toks[1..], x, p) + Branch(lv, Lit(toks[0]), toks[1..], x, p)
            == if Matches(p, toks) then Total(SubsAt(lv, p), x) else 0
  {
    BranchOf(lv, Pwc, toks[1..], x, p);
    BranchOf(lv, Lit(toks[0]), toks[1..], x, p);
    if |p| == 1 {
      assert p == [p[0]] && p[1..] == [];
    }
  }

  lemma TailValid(p: seq<Tok>, tok: Tok)
    requires ValidPath(p)
    ensures ValidPath(Tail(p, tok))
  {
  }

  lemma MatchLast(lv: Level, toks: seq<string>, acc: Result, x: Sub, p: seq<Tok>)
    requires |toks| == 1 && ValidPath(p) && OnlyAt(lv, x, p)
    ensures Total(MatchAt(Some(lv), toks, acc), x) ==
            Total(acc, x) + (if Matches(p, toks) then Total(SubsAt(lv, p), x) else 0)
  {
    var n := Get(lv, Lit(toks[0]));
    AddTotal(acc, lv.fwc, x);
    AddTotal(Add(acc, lv.fwc), n, x);
    AddTotal(Add(Add(acc, lv.fwc), n), lv.pwc, x);
    MatchOne(lv, toks, x, p);
  }

  /** Matching finds every copy of a subscription whose pattern matches, and no other. */
  lemma {:induction false} MatchTotal(l: Option<Level>, toks: seq<string>, acc: Result, x: Sub, p: seq<Tok>)
    requires ValidPath(p) && (l.Some? ==> OnlyAt(l.value, x, p))
    ensures Total(MatchAt(l, toks, acc), x) ==
            Total(acc, x) + (if toks != [] && Matches(p, toks) then CountBelow(l, p, x) else 0)
    decreases |toks|
  {
    if l.Some? && |toks| == 1 {
      MatchLast(l.value, toks, acc, x, p);
    } else if l.Some? && |toks| > 1 {
      var lv, rest := l.value, toks[1..];
      var acc1 := Add(acc, lv.fwc);
      AddTotal(acc, lv.fwc, x);
      MatchMany(lv, toks, x, p);
      BelowOk(lv, Pwc, x, p);
      MatchTotal(Below(lv.pwc), rest, acc1, x, Tail(p, Pwc));
      BelowOk(lv, Lit(toks[0]), x, p);
      MatchTotal(Below(Get(lv, Lit(toks[0]))), rest, MatchAt(Below(lv.pwc), rest, acc1), x, Tail(p, Lit(toks[0])));
    }
  }

  lemma BelowOk(lv: Level, tok: Tok, x: Sub, p: seq<Tok>)
    requires ValidPath(p) && OnlyAt(lv, x, p)
    ensures ValidPath(Tail(p, tok))
    ensures Below(Get(lv, tok)).Some? ==> OnlyAt(Below(Get(lv, tok)).value, x, Tail(p, tok))
  {
    TailValid(p, tok);
    if Below(Get(lv, tok)).Some? {
      OnlyBelow(lv, x, p, tok);
    }
  }

  // ---------- groups ----------

  ghost predicate GroupedAll(l: Level) {
    forall p :: Grouped(SubsAt(l, p))
  }

  lemma GroupedBelow(l: Level, tok: Tok)
    requires GroupedAll(l) && Get(l, tok).Some?
    ensures Grouped(Get(l, tok).value.subs)
    ensures Get(l, tok).value.next.Some? ==> GroupedAll(Get(l, tok).value.next.value)
  {
    var n := Get(l, tok).value;
    assert SubsAt(l, [tok]) == n.subs;
    if n.next.Some? {
      forall p ensures Grouped(SubsAt(n.next.value, p)) {
        if p != [] {
          assert ([tok] + p)[1..] == p;
          assert SubsAt(l, [tok] + p) == SubsAt(n.next.value, p);
        }
      }
    }
  }

  lemma AddGrouped(r: Result, l: Level, tok: Tok)
    requires Grouped(r) && GroupedAll(l)
    ensures Grouped(Add(r, Get(l, tok)))
  {
    if Get(l, tok).Some? {
      GroupedBelow(l, tok);
      MergeKeeps(r, Get(l, tok).value.subs);
    }
  }

  /** Each queue name occurs once in the results, with a non-empty list. */
  lemma {:induction false} MatchGrouped(l: Option<Level>, toks: seq<string>, acc: Result)
    requires Grouped(acc) && (l.Some? ==> GroupedAll(l.value))
    ensures Grouped(MatchAt(l, toks, acc))
    decreases |toks|
  {
    if l.Some? && toks != [] {
      var lv, t := l.value, Lit(toks[0]);
      AddGrouped(acc, lv, Fwc);
      var acc1 := Add(acc, lv.fwc);
      if |toks| == 1 {
        AddGrouped(acc1, lv, t);
        AddGrouped(Add(acc1, Get(lv, t)), lv, Pwc);
      } else {
        if lv.pwc.Some? { GroupedBelow(lv, Pwc); }
        if Get(lv, t).Some? { GroupedBelow(lv, t); }
        MatchGrouped(Below(lv.pwc), toks[1..], acc1);
        MatchGrouped(Below(Get(lv, t)), toks[1..], MatchAt(Below(lv.pwc), toks[1..], acc1));
      }
    }
  }

  // ---------- dead branches ----------

  /** Every node holds a subscription or has nodes below it, at every depth. */
  ghost predicate NoDead(l: Level)
    decreases l
  {
    && (forall t :: t in l.nodes ==> LiveNode(l.nodes[t]))
    && (l.pwc.Some? ==> LiveNode(l.pwc.value))
    && (l.fwc.Some? ==> LiveNode(l.fwc.value))
  }

  ghost predicate LiveNode(n: Node)
    decreases n
  {
    !IsEmpty(n) && (n.next.Some? ==> NoDead(n.next.value))
  }

  lemma NumNodesZero(l: Level)
    ensures NumNodes(l) == 0 <==> forall tok :: Get(l, tok).None?
  {
    if NumNodes(l) == 0 {
      assert l.nodes.Keys == {};
    } else if l.pwc.None? && l.fwc.None? {
      assert |l.nodes| > 0;
      assert |l.nodes.Keys| == |l.nodes|;
      var t :| t in l.nodes;
      assert Get(l, Lit(t)).Some?;
    } else if l.pwc.Some? {
      assert Get(l, Pwc).Some?;
    } else {
      assert Get(l, Fwc).Some?;
    }
  }

  /** Without dead branches every node lies on the way to a subscription. */
  lemma {:induction false} NoDeadMeans(l: Level, tok: Tok) returns (p: seq<Tok>)
    requires NoDead(l) && Get(l, tok).Some?
    ensures p != [] && p[0] == tok && SubsAt(l, p) != EMPTY
    decreases l
  {
    var n := Get(l, tok).value;
    assert LiveNode(n);
    if n.subs != EMPTY {
      p := [tok];
    } else {
      NumNodesZero(n.next.value);
      var below :| Get(n.next.value, below).Some?;
      var q := NoDeadMeans(n.next.value, below);
      p := [tok] + q;
      assert p[1..] == q;
    }
  }

  function NodeAt(l: Level, p: seq<Tok>): Option<Node>
    requires p != []
  {
    match Get(l, p[0])
    case None => None
    case Some(n) => if |p| == 1 then Some(n) else if n.next.None? then None else NodeAt(n.next.value, p[1..])
  }

  lemma {:induction false} NodeLeads(l: Level, p: seq<Tok>) returns (q: seq<Tok>)
    requires p != [] && NoDead(l) && NodeAt(l, p).Some?
    ensures p <= q && SubsAt(l, q) != EMPTY
    decreases |p|
  {
    if |p| == 1 {
      q := NoDeadMeans(l, p[0]);
    } else {
      NodeLive(l, p[0]);
      var rest := NodeLeads(Get(l, p[0]).value.next.value, p[1..]);
      q := [p[0]] + rest;
      assert q[1..] == rest;
      HeadTail(p);
    }
  }

  lemma {:induction false} NodesOnTheWay(l: Level, p: seq<Tok>, q: seq<Tok>)
    requires p != [] && p <= q && SubsAt(l, q) != EMPTY
    ensures NodeAt(l, p).Some?
    decreases |p|
  {
    if |p| > 1 {
      NodesOnTheWay(Get(l, p[0]).value.next.value, p[1..], q[1..]);
    }
  }

  lemma PutLive(l: Level, tok: Tok, n: Node)
    requires NoDead(l) && LiveNode(n)
    ensures NoDead(Put(l, tok, n)) && NumNodes(Put(l, tok, n)) > 0
  {
    NumNodesZero(Put(l, tok, n));
    assert Get(Put(l, tok, n), tok).Some?;
  }

  lemma NodeLive(l: Level, tok: Tok)
    requires NoDead(l) && Get(l, tok).Some?
    ensures LiveNode(Get(l, tok).value)
  {
  }

  /** A good subject leaves no dead branch. */
  lemma {:induction false} InsertLive(l: Level, ts: seq<string>, sfwc: bool, sub: Sub)
    requires ts != [] && NoDead(l) && Insert(l, ts, sfwc, sub).ok
    ensures NoDead(Insert(l, ts, sfwc, sub).level) && NumNodes(Insert(l, ts, sfwc, sub).level) > 0
    decreases |ts|
  {
    var tok := Classify(ts[0]);
    var n := Reach(l, tok);
    if Get(l, tok).Some? { NodeLive(l, tok); }
    assert NoDead(NEW_LEVEL);
    if |ts| == 1 {
      AddSubNotEmpty(n.subs, sub);
      PutLive(l, tok, n.(subs := AddSub(n.subs, sub)));
    } else {
      InsertLive(n.next.value, ts[1..], tok == Fwc, sub);
      PutLive(l, tok, n.(next := Some(Insert(n.next.value, ts[1..], tok == Fwc, sub).level)));
    }
  }

  lemma AddSubNotEmpty(r: Result, sub: Sub)
    ensures AddSub(r, sub).psubs != [] || AddSub(r, sub).qsubs != []
  {
  }

  /** Removal prunes what it empties, all the way up. */
  lemma {:induction false} RemoveLive(l: Level, ts: seq<string>, sfwc: bool, sub: Sub)
    requires ts != [] && NoDead(l) && Remove(Some(l), ts, sfwc, sub).Removed?
    ensures NoDead(Remove(Some(l), ts, sfwc, sub).level)
    decreases |ts|
  {
    var tok := Classify(ts[0]);
    if |ts| > 1 { RemoveNone(ts[1..], tok == Fwc, sub); }
    NodeLive(l, tok);
    var n := Get(l, tok).value;
    if |ts| == 1 {
      PutOrPruneLive(l, tok, n.(subs := RemoveSub(n.subs, sub).value));
    } else {
      RemoveLive(n.next.value, ts[1..], tok == Fwc, sub);
      PutOrPruneLive(l, tok, n.(next := Some(Remove(n.next, ts[1..], tok == Fwc, sub).level)));
    }
  }

  lemma PutOrPruneLive(l: Level, tok: Tok, n: Node)
    requires NoDead(l) && (n.next.Some? ==> NoDead(n.next.value))
    ensures NoDead(PutOrPrune(l, tok, n))
  {
    if !IsEmpty(n) {
      PutLive(l, tok, n);
    }
  }

  /** The nodes for all tokens before the first bad one are there already. */
  predicate Present(l: Level, ts: seq<string>, sfwc: bool)
    requires ts != []
    decreases |ts|
  {
    ts[0] == "" || sfwc ||
    (Get(l, Classify(ts[0])).Some? &&
     (|ts| == 1 || Present(Reach(l, Classify(ts[0])).next.value, ts[1..], Classify(ts[0]) == Fwc)))
  }

  /** A refused subject leaves a dead branch behind exactly when it had to create a node first. */
  lemma {:induction false} RefusedInsert(l: Level, ts: seq<string>, sfwc: bool, sub: Sub)
    requires ts != [] && NoDead(l) && !Insert(l, ts, sfwc, sub).ok
    ensures NoDead(Insert(l, ts, sfwc, sub).level) <==> Present(l, ts, sfwc)
    ensures Present(l, ts, sfwc) ==> NumNodes(Insert(l, ts, sfwc, sub).level) == NumNodes(l)
    decreases |ts|
  {
    if ts[0] != "" && !sfwc {
      var tok := Classify(ts[0]);
      var n := Reach(l, tok);
      if Get(l, tok).Some? { NodeLive(l, tok); }
      var below := Insert(n.next.value, ts[1..], tok == Fwc, sub).level;
      RefusedInsert(n.next.value, ts[1..], tok == Fwc, sub);
      var n' := n.(next := Some(below));
      var r := Insert(l, ts, sfwc, sub).level;
      assert Get(r, tok) == Some(n');
      if NoDead(r) { NodeLive(r, tok); }
      if Get(l, tok).Some? && Present(n.next.value, ts[1..], tok == Fwc) {
        PutLive(l, tok, n');
      }
      PutCount(l, tok, n');
      if Get(l, tok).None? && NoDead(below) {
        assert NumNodes(below) == 0 && IsEmpty(n');
      }
    }
  }

  lemma PutCount(l: Level, tok: Tok, n: Node)
    ensures NumNodes(Put(l, tok, n)) == NumNodes(l) + (if Get(l, tok).Some? then 0 else 1)
  {
    if tok.Lit? {
      assert l.nodes[tok.t := n].Keys == l.nodes.Keys + {tok.t};
      if tok.t in l.nodes {
        assert l.nodes.Keys + {tok.t} == l.nodes.Keys;
      }
    }
  }
}
