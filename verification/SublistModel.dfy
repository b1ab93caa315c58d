/**
 The subscription index: the trie, the result cache in front of it that Insert and Remove keep
 up to date key by key, and the generation-stamped cache each client keeps in front of that.
 Result lists are values here, as the copies made for readers intend.
 */
module SublistModel {
  import opened Common
  import opened Subjects
  import opened Results
  import opened Trie

  const CACHE_MAX := 1024

  /** History variables: `live`, the subscriptions inserted and not removed since, and `ever`,
      those inserted at any time. */
  datatype Index = Index(root: Level, cache: map<string, Result>, genid: nat, count: int,
                         live: multiset<Sub>, ever: set<Sub>)

  const NEW_INDEX := Index(NEW_LEVEL, map[], 0, 0, multiset{}, {})

  function AddToCache(cache: map<string, Result>, sub: Sub): map<string, Result> {
    map k | k in cache :: if MatchRest(k, sub.subject) then AddSub(cache[k], sub) else cache[k]
  }

  function RemoveFromCache(cache: map<string, Result>, sub: Sub): map<string, Result> {
    map k | k in cache && !MatchRest(k, sub.subject) :: cache[k]
  }

  function Insert(s: Index, sub: Sub): Index {
    var r := Trie.Insert(s.root, Split(sub.subject), false, sub);
    if !r.ok then s.(root := r.level)
    else Index(r.level, AddToCache(s.cache, sub), s.genid + 1, s.count + 1,
               s.live + multiset{sub}, s.ever + {sub})
  }

  function Remove(s: Index, sub: Sub): Index {
    var r := Trie.Remove(Some(s.root), Split(sub.subject), false, sub);
    if !r.Removed? then s
    else Index(r.level, RemoveFromCache(s.cache, sub), s.genid + 1, s.count - 1,
               s.live - multiset{sub}, s.ever)
  }

  function Answer(root: Level, subject: string): Result {
    MatchAt(Some(root), Split(subject), EMPTY)
  }

  /** The cached result, or the trie's answer. */
  function MatchResult(s: Index, subject: string): Result {
    if subject in s.cache then s.cache[subject] else Answer(s.root, subject)
  }

  /** A miss fills the cache; over the bound one entry goes, whichever the map iteration picks. */
  function Match(s: Index, subject: string, evicted: string): Index {
    if subject in s.cache then s
    else
      var cache := s.cache[subject := Answer(s.root, subject)];
      s.(cache := if |cache| > CACHE_MAX then cache - {evicted} else cache)
  }

  // ---------- the index invariant ----------

  /** The trie stores exactly the live subscriptions, each at its own path. */
  ghost predicate RootOk(root: Level, live: multiset<Sub>) {
    && GroupedAll(root)
    && (forall x :: x in live ==> ValidSubject(x.subject))
    && forall p, x :: Total(SubsAt(root, p), x) == StoredAt(live, p, x)
  }

  /** How often `x` is stored at path `p`. */
  function StoredAt(live: multiset<Sub>, p: seq<Tok>, x: Sub): nat {
    if p == PathOf(x.subject) then live[x] else 0
  }

  /** How often a full answer for `subject` holds `x`. */
  ghost function Expected(live: multiset<Sub>, x: Sub, subject: string): nat {
    if TokensMatch(subject, x.subject) then live[x] else 0
  }

  /** Byte-level and token-level matching give the same verdict. */
  ghost predicate Agree(x: Sub, subject: string) {
    MatchRest(subject, x.subject) <==> TokensMatch(subject, x.subject)
  }

  /** The byte-level test does not see that `x` matches. */
  ghost predicate Missed(x: Sub, subject: string) {
    TokensMatch(subject, x.subject) && !MatchRest(subject, x.subject)
  }

  /** A removed subscription is left in a result only if the byte-level test missed it. */
  ghost predicate NotStale(r: Result, live: multiset<Sub>, subject: string) {
    forall x :: Total(r, x) > 0 ==> Missed(x, subject) || x in live
  }

  /** Right for `subject`, on every subscription the byte-level test judges correctly. */
  ghost predicate Right(r: Result, live: multiset<Sub>, ever: set<Sub>, subject: string) {
    && Grouped(r) && NotStale(r, live, subject)
    && forall x :: Agree(x, subject) || x !in ever ==> Total(r, x) == Expected(live, x, subject)
  }

  ghost predicate CacheOk(cache: map<string, Result>, live: multiset<Sub>, ever: set<Sub>) {
    forall k :: k in cache ==> Right(cache[k], live, ever, k)
  }

  ghost predicate Valid(s: Index) {
    && RootOk(s.root, s.live)
    && (forall x :: x in s.live ==> x in s.ever)
    && CacheOk(s.cache, s.live, s.ever)
    && s.count == |s.live|
  }

  /** The trie's own answer: exactly the live subscriptions that match, each as often as it is
      live, grouped by queue name. */
  lemma AnswerExact(root: Level, live: multiset<Sub>, subject: string)
    requires RootOk(root, live)
    ensures Grouped(Answer(root, subject))
    ensures forall x :: Total(Answer(root, subject), x) == Expected(live, x, subject)
  {
    MatchGrouped(Some(root), Split(subject), EMPTY);
    forall x ensures Total(Answer(root, subject), x) == Expected(live, x, subject) {
      if x in live {
        PathValid(Split(x.subject));
        MatchTotal(Some(root), Split(subject), EMPTY, x, PathOf(x.subject));
      } else {
        MatchTotal(Some(root), Split(subject), EMPTY, x, []);
      }
    }
  }

  lemma AddSubRight(r: Result, live: multiset<Sub>, ever: set<Sub>, sub: Sub, k: string)
    requires Right(r, live, ever, k)
    ensures Right(if MatchRest(k, sub.subject) then AddSub(r, sub) else r, live + multiset{sub}, ever + {sub}, k)
  {
    var live', ever' := live + multiset{sub}, ever + {sub};
    var r' := if MatchRest(k, sub.subject) then AddSub(r, sub) else r;
    AddSubKeeps(r, sub);
    AddSubNotStale(r, live, sub, k);
    forall x | Agree(x, k) || x !in ever' ensures Total(r', x) == Expected(live', x, k) {
      AddSubTotal(r, sub, x);
    }
  }

  lemma AddSubNotStale(r: Result, live: multiset<Sub>, sub: Sub, k: string)
    requires NotStale(r, live, k)
    ensures NotStale(if MatchRest(k, sub.subject) then AddSub(r, sub) else r, live + multiset{sub}, k)
  {
    var r' := if MatchRest(k, sub.subject) then AddSub(r, sub) else r;
    forall x | Total(r', x) > 0 ensures Missed(x, k) || x in live + multiset{sub} {
      AddSubTotal(r, sub, x);
    }
  }

  lemma AddToCacheOk(cache: map<string, Result>, live: multiset<Sub>, ever: set<Sub>, sub: Sub)
    requires CacheOk(cache, live, ever)
    ensures CacheOk(AddToCache(cache, sub), live + multiset{sub}, ever + {sub})
  {
    forall k | k in cache ensures Right(AddToCache(cache, sub)[k], live + multiset{sub}, ever + {sub}, k) {
      AddSubRight(cache[k], live, ever, sub, k);
    }
  }

  /** An entry the removed subscription does not match stays right. */
  lemma KeepRight(r: Result, live: multiset<Sub>, ever: set<Sub>, sub: Sub, k: string)
    requires Right(r, live, ever, k) && !MatchRest(k, sub.subject) && sub in ever
    ensures Right(r, live - multiset{sub}, ever, k)
  {
    forall x | Agree(x, k) || x !in ever ensures Total(r, x) == Expected(live - multiset{sub}, x, k) {
      assert Total(r, x) == Expected(live, x, k);
    }
  }

  lemma RemoveFromCacheOk(cache: map<string, Result>, live: multiset<Sub>, ever: set<Sub>, sub: Sub)
    requires CacheOk(cache, live, ever) && sub in ever
    ensures CacheOk(RemoveFromCache(cache, sub), live - multiset{sub}, ever)
  {
    forall k | k in RemoveFromCache(cache, sub)
      ensures Right(RemoveFromCache(cache, sub)[k], live - multiset{sub}, ever, k)
    {
      KeepRight(cache[k], live, ever, sub, k);
    }
  }

  lemma InsertAt(root: Level, live: multiset<Sub>, sub: Sub, p: seq<Tok>)
    requires RootOk(root, live) && p != []
    ensures var r := Trie.Insert(root, Split(sub.subject), false, sub);
      && Grouped(SubsAt(r.level, p))
      && SubsAt(r.level, p) == if r.ok && p == PathOf(sub.subject) then AddSub(SubsAt(root, p), sub)
          else SubsAt(root, p)
  {
    InsertSubs(root, Split(sub.subject), false, sub, p);
    assert Grouped(SubsAt(root, p));
    AddSubKeeps(SubsAt(root, p), sub);
  }

  lemma InsertTotal(root: Level, live: multiset<Sub>, sub: Sub, p: seq<Tok>, x: Sub)
    requires RootOk(root, live) && p != []
    ensures var r := Trie.Insert(root, Split(sub.subject), false, sub);
      Total(SubsAt(r.level, p), x) == StoredAt(if r.ok then live + multiset{sub} else live, p, x)
  {
    InsertAt(root, live, sub, p);
    AddSubTotal(SubsAt(root, p), sub, x);
    assert Total(SubsAt(root, p), x) == StoredAt(live, p, x);
  }

  lemma NothingAtRoot(root: Level, live: multiset<Sub>, x: Sub)
    ensures Total(SubsAt(root, []), x) == 0 == StoredAt(live, [], x) && Grouped(SubsAt(root, []))
  {
  }

  lemma InsertRootOk(root: Level, live: multiset<Sub>, sub: Sub)
    requires RootOk(root, live)
    ensures var r := Trie.Insert(root, Split(sub.subject), false, sub);
      && (r.ok <==> ValidSubject(sub.subject))
      && RootOk(r.level, if r.ok then live + multiset{sub} else live)
  {
    var r := Trie.Insert(root, Split(sub.subject), false, sub);
    var live' := if r.ok then live + multiset{sub} else live;
    InsertOk(root, Split(sub.subject), false, sub);
    forall p ensures Grouped(SubsAt(r.level, p)) {
      if p != [] { InsertAt(root, live, sub, p); } else { NothingAtRoot(r.level, live', sub); }
    }
    forall p, x ensures Total(SubsAt(r.level, p), x) == StoredAt(live', p, x) {
      if p != [] { InsertTotal(root, live, sub, p, x); } else { NothingAtRoot(r.level, live', x); }
    }
  }

  /** The subscription is found exactly when it is live. */
  lemma RemoveExactly(root: Level, live: multiset<Sub>, sub: Sub)
    requires RootOk(root, live)
    ensures Trie.Remove(Some(root), Split(sub.subject), false, sub).Removed? <==> sub in live
  {
    RemoveFinds(root, Split(sub.subject), false, sub);
    RemoveSubFinds(SubsAt(root, PathOf(sub.subject)), sub);
    assert Total(SubsAt(root, PathOf(sub.subject)), sub) == StoredAt(live, PathOf(sub.subject), sub);
  }

  lemma RemoveAt(root: Level, live: multiset<Sub>, sub: Sub, p: seq<Tok>)
    requires RootOk(root, live) && sub in live && p != []
    ensures var r := Trie.Remove(Some(root), Split(sub.subject), false, sub);
      && r.Removed? && Grouped(SubsAt(r.level, p))
      && if p == PathOf(sub.subject) then RemoveSub(SubsAt(root, p), sub) == Some(SubsAt(r.level, p))
         else SubsAt(r.level, p) == SubsAt(root, p)
  {
    RemoveExactly(root, live, sub);
    RemoveSubs(root, Split(sub.subject), false, sub, p);
    assert Grouped(SubsAt(root, p));
    if p == PathOf(sub.subject) {
      RemoveSubKeeps(SubsAt(root, p), sub);
    }
  }

  lemma RemoveTotal(root: Level, live: multiset<Sub>, sub: Sub, p: seq<Tok>, x: Sub)
    requires RootOk(root, live) && sub in live && p != []
    ensures var r := Trie.Remove(Some(root), Split(sub.subject), false, sub);
      r.Removed? && Total(SubsAt(r.level, p), x) == StoredAt(live - multiset{sub}, p, x)
  {
    RemoveAt(root, live, sub, p);
    RemoveSubTotal(SubsAt(root, p), sub, x);
    assert Total(SubsAt(root, p), x) == StoredAt(live, p, x);
  }

  lemma RemoveRootOk(root: Level, live: multiset<Sub>, sub: Sub)
    requires RootOk(root, live) && sub in live
    ensures var r := Trie.Remove(Some(root), Split(sub.subject), false, sub);
      r.Removed? && RootOk(r.level, live - multiset{sub})
  {
    RemoveExactly(root, live, sub);
    var level := Trie.Remove(Some(root), Split(sub.subject), false, sub).level;
    var live' := live - multiset{sub};
    forall p ensures Grouped(SubsAt(level, p)) {
      if p != [] { RemoveAt(root, live, sub, p); } else { NothingAtRoot(level, live', sub); }
    }
    forall p, x ensures Total(SubsAt(level, p), x) == StoredAt(live', p, x) {
      if p != [] { RemoveTotal(root, live, sub, p, x); } else { NothingAtRoot(level, live', x); }
    }
  }

  lemma InsertValid(s: Index, sub: Sub)
    requires Valid(s)
    ensures Valid(Insert(s, sub))
  {
    InsertRootOk(s.root, s.live, sub);
    AddToCacheOk(s.cache, s.live, s.ever, sub);
  }

  lemma RemoveValid(s: Index, sub: Sub)
    requires Valid(s)
    ensures Valid(Remove(s, sub))
  {
    RemoveExactly(s.root, s.live, sub);
    if sub in s.live {
      RemoveRootOk(s.root, s.live, sub);
      RemoveFromCacheOk(s.cache, s.live, s.ever, sub);
    }
  }

  lemma MatchRight(s: Index, subject: string)
    requires Valid(s)
    ensures Right(MatchResult(s, subject), s.live, s.ever, subject)
  {
    AnswerExact(s.root, s.live, subject);
  }

  lemma MatchCache(s: Index, subject: string, evicted: string)
    requires CacheOk(s.cache, s.live, s.ever) && Right(MatchResult(s, subject), s.live, s.ever, subject)
    ensures CacheOk(Match(s, subject, evicted).cache, s.live, s.ever)
  {
  }

  lemma MatchValid(s: Index, subject: string, evicted: string)
    requires Valid(s)
    ensures Valid(Match(s, subject, evicted))
    ensures Right(MatchResult(s, subject), s.live, s.ever, subject)
  {
    MatchRight(s, subject);
    MatchCache(s, subject, evicted);
  }

  // ---------- clients in front of the index ----------

  const CLIENT_CACHE_MAX := 512

  /** A client's results, stamped with the generation it last saw. */
  datatype ReadCache = ReadCache(genid: nat, results: map<string, Result>)

  datatype System = System(index: Index, clients: map<nat, ReadCache>)

  /** Publishing is two steps, with anything in between: read the generation and reset a stale
      cache, then fill a missing result. A hit changes nothing. */
  datatype Op =
    | OpInsert(sub: Sub)
    | OpRemove(sub: Sub)
    | OpMatch(subject: string, evicted: string)
    | OpLoad(client: nat)
    | OpFill(client: nat, subject: string, evicted: string, dropped: set<string>)

  function Load(s: System, c: nat): System {
    if c in s.clients && s.clients[c].genid == s.index.genid then s
    else s.(clients := s.clients[c := ReadCache(s.index.genid, map[])])
  }

  function Fill(s: System, c: nat, subject: string, evicted: string, dropped: set<string>): System
    requires c in s.clients
  {
    var results := s.clients[c].results[subject := MatchResult(s.index, subject)];
    var kept := if |results| > CLIENT_CACHE_MAX then results - dropped else results;
    System(Match(s.index, subject, evicted), s.clients[c := ReadCache(s.clients[c].genid, kept)])
  }

  function Step(s: System, op: Op): System {
    match op
    case OpInsert(sub) => s.(index := Insert(s.index, sub))
    case OpRemove(sub) => s.(index := Remove(s.index, sub))
    case OpMatch(subject, evicted) => s.(index := Match(s.index, subject, evicted))
    case OpLoad(c) => Load(s, c)
    case OpFill(c, subject, evicted, dropped) =>
      if c in s.clients && subject !in s.clients[c].results then Fill(s, c, subject, evicted, dropped) else s
  }

  function After(run: seq<Op>): System {
    if run == [] then System(NEW_INDEX, map[]) else Step(After(run[..|run| - 1]), run[|run| - 1])
  }

  /** A cache stamped with the current generation is right; an older one is never used. */
  ghost predicate ClientOk(c: ReadCache, s: Index) {
    && c.genid <= s.genid
    && (c.genid == s.genid ==> CacheOk(c.results, s.live, s.ever))
  }

  ghost predicate Inv(s: System) {
    Valid(s.index) && forall c :: c in s.clients ==> ClientOk(s.clients[c], s.index)
  }

  lemma FillClients(s: System, c: nat, subject: string, evicted: string, dropped: set<string>, d: nat)
    requires Inv(s) && c in s.clients && d in s.clients
    requires Right(MatchResult(s.index, subject), s.index.live, s.index.ever, subject)
    ensures var t := Fill(s, c, subject, evicted, dropped); d in t.clients && ClientOk(t.clients[d], t.index)
  {
    assert ClientOk(s.clients[d], s.index);
  }

  lemma FillKeeps(s: System, c: nat, subject: string, evicted: string, dropped: set<string>)
    requires Inv(s) && c in s.clients
    ensures Inv(Fill(s, c, subject, evicted, dropped))
  {
    MatchValid(s.index, subject, evicted);
    var t := Fill(s, c, subject, evicted, dropped);
    forall d | d in t.clients ensures ClientOk(t.clients[d], t.index) {
      FillClients(s, c, subject, evicted, dropped, d);
    }
  }

  /** A new index keeps the clients right if it is the same but for its cache, or a newer generation. */
  lemma IndexKeeps(s: System, index: Index)
    requires Inv(s) && Valid(index) && s.index.genid <= index.genid
    requires index.genid == s.index.genid ==> index.live == s.index.live && index.ever == s.index.ever
    ensures Inv(s.(index := index))
  {
    forall c | c in s.clients ensures ClientOk(s.clients[c], index) {
      assert ClientOk(s.clients[c], s.index);
    }
  }

  lemma LoadKeeps(s: System, c: nat)
    requires Inv(s)
    ensures Inv(Load(s, c))
  {
  }

  lemma InsertKeeps(s: System, sub: Sub)
    requires Inv(s)
    ensures Inv(s.(index := Insert(s.index, sub)))
  {
    InsertValid(s.index, sub);
    IndexKeeps(s, Insert(s.index, sub));
  }

  lemma RemoveKeeps(s: System, sub: Sub)
    requires Inv(s)
    ensures Inv(s.(index := Remove(s.index, sub)))
  {
    RemoveValid(s.index, sub);
    IndexKeeps(s, Remove(s.index, sub));
  }

  lemma MatchKeeps(s: System, subject: string, evicted: string)
    requires Inv(s)
    ensures Inv(s.(index := Match(s.index, subject, evicted)))
  {
    MatchValid(s.index, subject, evicted);
    IndexKeeps(s, Match(s.index, subject, evicted));
  }

  lemma StepKeeps(s: System, op: Op)
    requires Inv(s)
    ensures Inv(Step(s, op))
  {
    match op {
      case OpInsert(sub) => InsertKeeps(s, sub);
      case OpRemove(sub) => RemoveKeeps(s, sub);
      case OpMatch(subject, evicted) => MatchKeeps(s, subject, evicted);
      case OpLoad(c) => LoadKeeps(s, c);
      case OpFill(c, subject, evicted, dropped) =>
        if c in s.clients && subject !in s.clients[c].results {
          FillKeeps(s, c, subject, evicted, dropped);
        }
    }
  }

  /** Every interleaving keeps all three levels coherent. */
  lemma {:induction false} RunCoherent(run: seq<Op>)
    ensures Inv(After(run))
  {
    if run != [] {
      RunCoherent(run[..|run| - 1]);
      StepKeeps(After(run[..|run| - 1]), run[|run| - 1]);
    }
  }

  /** `r` holds exactly the live subscriptions that match `subject`, each as often as it is live. */
  ghost predicate FullAnswer(r: Result, live: multiset<Sub>, subject: string) {
    Grouped(r) && forall x :: Total(r, x) == Expected(live, x, subject)
  }

  lemma RightIsFull(r: Result, s: Index, subject: string)
    requires Right(r, s.live, s.ever, subject) && OkLiteral(subject)
    requires forall x :: x in s.ever ==> ValidSubject(x.subject) && Exact(Split(x.subject))
    ensures FullAnswer(r, s.live, subject)
  {
    forall x ensures Total(r, x) == Expected(s.live, x, subject) {
      if x in s.ever {
        SubjectExactly(x.subject);
        assert Agree(x, subject);
      }
    }
  }

  /** Three-level coherence: with exact subjects, in every run, the trie, every cache entry and
      every current client entry for a literal without an empty last token give the full answer. */
  lemma RunAnswers(run: seq<Op>, c: nat, subject: string)
    requires OkLiteral(subject)
    requires forall x :: x in After(run).index.ever ==> Exact(Split(x.subject))
    ensures var s := After(run);
      && FullAnswer(Answer(s.index.root, subject), s.index.live, subject)
      && FullAnswer(MatchResult(s.index, subject), s.index.live, subject)
      && (c in s.clients && s.clients[c].genid == s.index.genid && subject in s.clients[c].results ==>
            FullAnswer(s.clients[c].results[subject], s.index.live, subject))
  {
    RunCoherent(run);
    RunInserted(run);
    var s := After(run);
    AnswerExact(s.index.root, s.index.live, subject);
    MatchValid(s.index, subject, subject);
    RightIsFull(MatchResult(s.index, subject), s.index, subject);
    if c in s.clients && s.clients[c].genid == s.index.genid && subject in s.clients[c].results {
      assert ClientOk(s.clients[c], s.index);
      RightIsFull(s.clients[c].results[subject], s.index, subject);
    }
  }

  lemma {:induction false} RunInserted(run: seq<Op>)
    ensures forall x :: x in After(run).index.ever ==> ValidSubject(x.subject)
  {
    if run != [] {
      var before, op := After(run[..|run| - 1]), run[|run| - 1];
      RunInserted(run[..|run| - 1]);
      if op.OpInsert? {
        InsertOk(before.index.root, Split(op.sub.subject), false, op.sub);
      }
    }
  }

  lemma StepLive(s: System, op: Op)
    requires NoDead(s.index.root) && (op.OpInsert? ==> ValidSubject(op.sub.subject))
    ensures NoDead(Step(s, op).index.root)
  {
    if op.OpInsert? {
      InsertOk(s.index.root, Split(op.sub.subject), false, op.sub);
      InsertLive(s.index.root, Split(op.sub.subject), false, op.sub);
    } else if op.OpRemove? && Trie.Remove(Some(s.index.root), Split(op.sub.subject), false, op.sub).Removed? {
      RemoveLive(s.index.root, Split(op.sub.subject), false, op.sub);
    }
  }

  /** No history of the index leaves the count wrong, and without refused subjects none leaves a
      dead branch in the trie. */
  lemma {:induction false} RunCounts(run: seq<Op>)
    ensures After(run).index.count == |After(run).index.live|
    ensures (forall i :: 0 <= i < |run| && run[i].OpInsert? ==> ValidSubject(run[i].sub.subject))
            ==> NoDead(After(run).index.root)
  {
    RunCoherent(run);
    if run != [] {
      var before := run[..|run| - 1];
      RunCounts(before);
      if forall i :: 0 <= i < |run| && run[i].OpInsert? ==> ValidSubject(run[i].sub.subject) {
        assert forall i :: 0 <= i < |before| ==> before[i] == run[i];
        StepLive(After(before), run[|run| - 1]);
      }
    }
  }

  lemma NodesExactly(root: Level, live: multiset<Sub>, p: seq<Tok>)
    requires RootOk(root, live) && NoDead(root) && p != []
    ensures NodeAt(root, p).Some? <==> exists x :: x in live && p <= PathOf(x.subject)
  {
    if NodeAt(root, p).Some? {
      var q := NodeLeads(root, p);
      assert Grouped(SubsAt(root, q));
      var x := SomeMember(SubsAt(root, q));
      assert Total(SubsAt(root, q), x) == StoredAt(live, q, x);
    } else if x :| x in live && p <= PathOf(x.subject) {
      var q := PathOf(x.subject);
      assert Total(SubsAt(root, q), x) == StoredAt(live, q, x);
      NoMember(x);
      NodesOnTheWay(root, p, q);
    }
  }

  /** In every history without refused subjects, the trie has a node at a path exactly if the path
      begins the path of a live subscription: removal prunes all that became useless, and no more. */
  lemma RunNodes(run: seq<Op>, p: seq<Tok>)
    requires (forall i :: 0 <= i < |run| && run[i].OpInsert? ==> ValidSubject(run[i].sub.subject)) && p != []
    ensures var s := After(run).index;
      NodeAt(s.root, p).Some? <==> exists x :: x in s.live && p <= PathOf(x.subject)
  {
    RunCoherent(run);
    RunCounts(run);
    NodesExactly(After(run).index.root, After(run).index.live, p);
  }

  // ---------- outside these conditions the cache goes stale ----------

  lemma FirstCached(l: string)
    ensures Match(NEW_INDEX, l, l).cache == map[l := EMPTY]
    ensures Match(NEW_INDEX, l, l).root == NEW_LEVEL
  {
    var toks := Split(l);
    assert Answer(NEW_LEVEL, l) == EMPTY by {
      assert Get(NEW_LEVEL, Lit(toks[0])).None?;
      if |toks| > 1 {
        assert MatchAt(None, toks[1..], EMPTY) == EMPTY;
      }
    }
    var cache := map[][l := EMPTY];
    assert cache.Keys == {l};
    assert |cache| == |cache.Keys|;
  }

  // ---------- what is cached, and how much ----------

  /** Whether an operation leaves subject `k` cached: inserting drops nothing, removing a live
      subscription drops what its subject matches byte for byte, a miss enters its subject and over the
      bound drops the one picked. */
  ghost predicate StaysCached(s: System, op: Op, k: string) {
    match op
    case OpInsert(sub) => k in s.index.cache
    case OpRemove(sub) => k in s.index.cache && !(sub in s.index.live && MatchRest(k, sub.subject))
    case OpMatch(subject, evicted) => CachedByMiss(s.index.cache, subject, evicted, k)
    case OpLoad(c) => k in s.index.cache
    case OpFill(c, subject, evicted, dropped) =>
      if c in s.clients && subject !in s.clients[c].results then CachedByMiss(s.index.cache, subject, evicted, k)
      else k in s.index.cache
  }

  predicate CachedByMiss(cache: map<string, Result>, subject: string, evicted: string, k: string) {
    if subject in cache then k in cache
    else (k in cache || k == subject) && !(|cache| >= CACHE_MAX && k == evicted)
  }

  lemma MissCaches(s: Index, subject: string, evicted: string, k: string)
    ensures k in Match(s, subject, evicted).cache <==> CachedByMiss(s.cache, subject, evicted, k)
  {
    if subject !in s.cache {
      var cache := s.cache[subject := Answer(s.root, subject)];
      assert cache.Keys == s.cache.Keys + {subject} && |cache| == |cache.Keys| && |s.cache| == |s.cache.Keys|;
    }
  }

  lemma CachedExactly(s: System, op: Op, k: string)
    requires Inv(s)
    ensures k in Step(s, op).index.cache <==> StaysCached(s, op, k)
  {
    match op
    case OpInsert(sub) =>
    case OpRemove(sub) => RemoveExactly(s.index.root, s.index.live, sub);
    case OpMatch(subject, evicted) => MissCaches(s.index, subject, evicted, k);
    case OpLoad(c) =>
    case OpFill(c, subject, evicted, dropped) => MissCaches(s.index, subject, evicted, k);
  }

  /** The entry dropped over the bound is one of the entries. */
  ghost predicate PicksEntry(s: System, op: Op) {
    match op
    case OpMatch(subject, evicted) => evicted == subject || evicted in s.index.cache
    case OpFill(_, subject, evicted, _) => evicted == subject || evicted in s.index.cache
    case _ => true
  }

  lemma FewerKeys(a: map<string, Result>, b: map<string, Result>)
    requires a.Keys <= b.Keys
    ensures |a| <= |b|
  {
    SubsetSize(a.Keys, b.Keys);
    assert |a| == |a.Keys| && |b| == |b.Keys|;
  }

  lemma {:induction false} SubsetSize(a: set<string>, b: set<string>)
    requires a <= b
    ensures |a| <= |b|
    decreases |a|
  {
    if a != {} {
      var x :| x in a;
      SubsetSize(a - {x}, b - {x});
    }
  }

  lemma MissBounded(s: Index, subject: string, evicted: string)
    requires |s.cache| <= CACHE_MAX && (evicted == subject || evicted in s.cache)
    ensures |Match(s, subject, evicted).cache| <= CACHE_MAX
  {
    if subject !in s.cache {
      var cache := s.cache[subject := Answer(s.root, subject)];
      assert cache.Keys == s.cache.Keys + {subject} && |cache| == |cache.Keys| && |s.cache| == |s.cache.Keys|;
      var rest := cache - {evicted};
      assert rest.Keys == cache.Keys - {evicted} && |rest| == |rest.Keys|;
    }
  }

  lemma StepBounded(s: System, op: Op)
    requires |s.index.cache| <= CACHE_MAX && PicksEntry(s, op)
    ensures |Step(s, op).index.cache| <= CACHE_MAX
  {
    match op
    case OpInsert(sub) => FewerKeys(Step(s, op).index.cache, s.index.cache);
    case OpRemove(sub) => FewerKeys(Step(s, op).index.cache, s.index.cache);
    case OpMatch(subject, evicted) => MissBounded(s.index, subject, evicted);
    case OpLoad(c) =>
    case OpFill(c, subject, evicted, dropped) => MissBounded(s.index, subject, evicted);
  }

  /** The index never caches more than its bound. */
  lemma {:induction false} RunBounded(run: seq<Op>)
    requires forall i :: 0 <= i < |run| ==> PicksEntry(After(run[..i]), run[i])
    ensures |After(run).index.cache| <= CACHE_MAX
  {
    if run != [] {
      var before := run[..|run| - 1];
      forall i | 0 <= i < |before| ensures PicksEntry(After(before[..i]), before[i]) {
        assert before[..i] == run[..i];
      }
      RunBounded(before);
      StepBounded(After(before), run[|run| - 1]);
    }
  }

  /** A client that looks a subject up again in the same generation has the answer at hand. */
  lemma FillKept(s: System, c: nat, subject: string, evicted: string, dropped: set<string>)
    requires c in s.clients && subject !in s.clients[c].results
    requires subject !in dropped || |s.clients[c].results| < CLIENT_CACHE_MAX
    ensures var t := Step(s, OpFill(c, subject, evicted, dropped));
      c in t.clients && subject in t.clients[c].results && t.clients[c].genid == s.clients[c].genid
  {
    var results := s.clients[c].results[subject := MatchResult(s.index, subject)];
    assert results.Keys == s.clients[c].results.Keys + {subject};
    assert |results| == |results.Keys| && |s.clients[c].results| == |s.clients[c].results.Keys|;
  }

  /** A cached literal, then one insertion: the entry is right if and only if the two matchings agree. */
  lemma CachedThenInserted(sub: Sub, l: string)
    requires ValidSubject(sub.subject)
    ensures var s := Insert(Match(NEW_INDEX, l, l), sub);
      Total(MatchResult(s, l), sub) == Expected(s.live, sub, l) <==> Agree(sub, l)
  {
    var s0 := Match(NEW_INDEX, l, l);
    FirstCached(l);
    InsertOk(s0.root, Split(sub.subject), false, sub);
    var s := Insert(s0, sub);
    assert s.cache[l] == if MatchRest(l, sub.subject) then AddSub(EMPTY, sub) else EMPTY;
    AddSubTotal(EMPTY, sub, sub);
    assert s.live[sub] == 1;
  }

  /** Exactly the exact subjects keep every such cached literal right. */
  lemma StaleExactly(sub: Sub)
    requires ValidSubject(sub.subject)
    ensures Exact(Split(sub.subject)) <==>
      forall l :: OkLiteral(l) ==>
        var s := Insert(Match(NEW_INDEX, l, l), sub);
        Total(MatchResult(s, l), sub) == Expected(s.live, sub, l)
  {
    SubjectExactly(sub.subject);
    forall l ensures
      var s := Insert(Match(NEW_INDEX, l, l), sub);
      Total(MatchResult(s, l), sub) == Expected(s.live, sub, l) <==> Agree(sub, l)
    {
      CachedThenInserted(sub, l);
    }
  }
}
