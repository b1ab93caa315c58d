/** The index and a client's cache as objects whose fields the operations reassign. */
module SublistState {
  import opened Common
  import opened Subjects
  import opened Results
  import opened Trie
  import M = SublistModel

  const PRUNE_SIZE := 16

  class Sublist {
    var genid: nat
    var cache: map<string, Result>
    var root: Level
    var count: int
    ghost var Live: multiset<Sub>
    ghost var Ever: set<Sub>

    ghost function View(): M.Index
      reads this
    {
      M.Index(root, cache, genid, count, Live, Ever)
    }

    constructor ()
      ensures View() == M.NEW_INDEX
    {
      genid, cache, root, count := 0, map[], NEW_LEVEL, 0;
      Live, Ever := multiset{}, {};
    }

    /** Refused exactly when the subject is not valid; otherwise found by every later match. */
    method Insert(sub: Sub) returns (ok: bool)
      requires M.Valid(View())
      modifies this
      ensures View() == M.Insert(old(View()), sub) && M.Valid(View())
      ensures ok <==> ValidSubject(sub.subject)
      ensures Live == old(Live) + (if ok then multiset{sub} else multiset{})
    {
      ghost var before := View();
      var tokens := Tokenize(sub.subject);
      InsertOk(root, tokens, false, sub);
      var r := Trie.Insert(root, tokens, false, sub);
      InsertedIs(before, sub, r);
      ok := r.ok;
      if ok {
        Enter(r.level, sub);
      } else {
        root := r.level;
      }
      M.InsertValid(before, sub);
    }

    /** The trie is `level` now: count, caches and generation follow. */
    method Enter(level: Level, sub: Sub)
      modifies this
      ensures View() == M.Index(level, M.AddToCache(old(cache), sub), old(genid) + 1, old(count) + 1,
                                old(Live) + multiset{sub}, old(Ever) + {sub})
    {
      root := level;
      count := count + 1;
      AddToCache(sub);
      genid := genid + 1;
      Live, Ever := Live + multiset{sub}, Ever + {sub};
    }

    /** Add the subscription to the cached results its subject matches. */
    method AddToCache(sub: Sub)
      modifies this`cache
      ensures cache == M.AddToCache(old(cache), sub)
    {
      var keys := cache.Keys;
      ghost var before := cache;
      while keys != {}
        invariant keys <= before.Keys && cache.Keys == before.Keys
        invariant forall k :: k in before ==>
          cache[k] == if k in keys then before[k] else M.AddToCache(before, sub)[k]
      {
        var k :| k in keys;
        var matches := MatchLiteral(k, sub.subject);
        if matches {
          cache := cache[k := AddSub(cache[k], sub)];
        }
        keys := keys - {k};
      }
      assert cache == M.AddToCache(before, sub);
    }

    /** Succeeds exactly when the subscription is live. */
    method Remove(sub: Sub) returns (found: bool)
      requires M.Valid(View())
      modifies this
      ensures View() == M.Remove(old(View()), sub) && M.Valid(View())
      ensures found <==> sub in old(Live)
      ensures Live == old(Live) - multiset{sub}
    {
      ghost var before := View();
      M.RemoveExactly(root, Live, sub);
      var tokens := Tokenize(sub.subject);
      var r := Trie.Remove(Some(root), tokens, false, sub);
      RemovedIs(before, sub, r);
      found := r.Removed?;
      if !found {
        NotThere(Live, sub);
      } else {
        Leave(r.level, sub);
      }
      M.RemoveValid(before, sub);
    }

    /** The trie is `level` now: count, caches and generation follow. */
    method Leave(level: Level, sub: Sub)
      modifies this
      ensures View() == M.Index(level, M.RemoveFromCache(old(cache), sub), old(genid) + 1, old(count) - 1,
                                old(Live) - multiset{sub}, old(Ever))
    {
      root := level;
      count := count - 1;
      RemoveFromCache(sub);
      genid := genid + 1;
      Live := Live - multiset{sub};
    }

    /** Forget the cached results its subject matches. */
    method RemoveFromCache(sub: Sub)
      modifies this`cache
      ensures cache == M.RemoveFromCache(old(cache), sub)
    {
      var keys := cache.Keys;
      ghost var before := cache;
      while keys != {}
        invariant keys <= cache.Keys <= before.Keys
        invariant forall k :: k in before && k !in keys ==> (k in cache <==> !MatchRest(k, sub.subject))
        invariant forall k :: k in cache ==> cache[k] == before[k]
      {
        var k :| k in keys;
        var matches := MatchLiteral(k, sub.subject);
        if matches {
          cache := cache - {k};
        }
        keys := keys - {k};
      }
      assert cache == M.RemoveFromCache(before, sub);
    }

    /** From the cache, or from the trie and then cached, with one entry evicted over the bound. */
    method Match(subject: string) returns (r: Result, evicted: string)
      requires M.Valid(View())
      modifies this`cache
      ensures View() == M.Match(old(View()), subject, evicted) && M.Valid(View())
      ensures r == M.MatchResult(old(View()), subject)
      ensures M.Right(r, Live, Ever, subject)
    {
      evicted := subject;
      if subject in cache {
        M.MatchValid(View(), subject, evicted);
        return cache[subject], evicted;
      }
      var tokens := Tokenize(subject);
      r := MatchLevel(Some(root), tokens, EMPTY);
      ghost var s := View();
      cache := cache[subject := r];
      if |cache| > M.CACHE_MAX {
        var k :| k in cache;
        evicted := k;
        cache := cache - {k};
      }
      M.MatchValid(s, subject, evicted);
    }
  }

  /** The part of a client that serves its publishes: results stamped with a generation. */
  class ClientCache {
    var genid: nat
    var results: Option<map<string, Result>>

    ghost predicate Ok(sl: Sublist)
      reads this, sl
    {
      results.Some? ==> M.ClientOk(M.ReadCache(genid, results.value), sl.View())
    }

    constructor (sl: Sublist)
      ensures Ok(sl)
    {
      genid, results := 0, None;
    }

    /** The result a publish uses: right for the index as it is, whatever happened since the
        client last looked. */
    method Lookup(sl: Sublist, subject: string) returns (r: Result)
      requires M.Valid(sl.View()) && Ok(sl)
      modifies this, sl`cache
      ensures M.Valid(sl.View()) && Ok(sl)
      ensures M.Right(r, sl.Live, sl.Ever, subject)
    {
      if !(sl.genid == genid && results.Some?) {
        results, genid := Some(map[]), sl.genid;
      }
      if subject in results.value {
        return results.value[subject];
      }
      var evicted;
      r, evicted := sl.Match(subject);
      CachePlus(results.value, subject, r, sl.Live, sl.Ever);
      results := Some(results.value[subject := r]);
      if |results.value| > M.CLIENT_CACHE_MAX {
        ghost var held := results.value;
        Prune();
        CacheMinus(results.value, held, sl.Live, sl.Ever);
      }
    }

    /** Drop some entries, whichever the map iteration comes to first. */
    method Prune()
      requires results.Some?
      modifies this`results
      ensures results.Some? && SubMap(results.value, old(results).value)
    {
      ghost var before := results.value;
      var n := 0;
      while n <= PRUNE_SIZE && results.value != map[]
        invariant results.Some? && SubMap(results.value, before)
        invariant n <= PRUNE_SIZE + 1
        decreases PRUNE_SIZE + 1 - n
      {
        var k :| k in results.value;
        results := Some(results.value - {k});
        n := n + 1;
      }
    }
  }

  ghost predicate SubMap(a: map<string, Result>, b: map<string, Result>) {
    forall k :: k in a ==> k in b && a[k] == b[k]
  }

  lemma CachePlus(held: map<string, Result>, subject: string, r: Result, live: multiset<Sub>, ever: set<Sub>)
    requires M.CacheOk(held, live, ever) && M.Right(r, live, ever, subject)
    ensures M.CacheOk(held[subject := r], live, ever)
  {
  }

  lemma CacheMinus(kept: map<string, Result>, held: map<string, Result>, live: multiset<Sub>, ever: set<Sub>)
    requires M.CacheOk(held, live, ever) && SubMap(kept, held)
    ensures M.CacheOk(kept, live, ever)
  {
  }

  lemma InsertedIs(s: M.Index, sub: Sub, r: Trie.Inserted)
    requires r == Trie.Insert(s.root, Split(sub.subject), false, sub)
    ensures M.Insert(s, sub) ==
      if r.ok then M.Index(r.level, M.AddToCache(s.cache, sub), s.genid + 1, s.count + 1,
                           s.live + multiset{sub}, s.ever + {sub})
      else s.(root := r.level)
  {
  }

  lemma RemovedIs(s: M.Index, sub: Sub, r: Trie.Removal)
    requires r == Trie.Remove(Some(s.root), Split(sub.subject), false, sub)
    ensures M.Remove(s, sub) ==
      if r.Removed? then M.Index(r.level, M.RemoveFromCache(s.cache, sub), s.genid + 1, s.count - 1,
                                 s.live - multiset{sub}, s.ever)
      else s
  {
  }

  lemma NotThere(live: multiset<Sub>, sub: Sub)
    requires sub !in live
    ensures live - multiset{sub} == live
  {
  }
}
