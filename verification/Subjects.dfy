/**
 Subjects: dot-separated tokens with the wildcards `*` (one token) and `>` (one or more).
 The trie matches token by token; the result cache uses the byte-level `matchLiteral`. This
 module holds both and settles exactly when they agree.
 */
module Subjects {
  import opened Common

  const BTSEP := '.'
  const PWC := '*'
  const FWC := '>'

  // ---------- tokens ----------

  function Split(s: string): (r: seq<string>)
    ensures |r| >= 1
    ensures forall i :: 0 <= i < |r| ==> BTSEP !in r[i]
  {
    if s == "" then [""]
    else
      var r := Split(s[1..]);
      if s[0] == BTSEP then [""] + r else [[s[0]] + r[0]] + r[1..]
  }

  function Join(ts: seq<string>): (s: string)
    requires |ts| >= 1
  {
    if |ts| == 1 then ts[0] else ts[0] + [BTSEP] + Join(ts[1..])
  }

  /** Splitting loses nothing. */
  lemma {:induction false} JoinSplit(s: string)
    ensures Join(Split(s)) == s
  {
    if s != "" {
      var r := Split(s[1..]);
      JoinSplit(s[1..]);
      if s[0] == BTSEP {
        assert ([""] + r)[1..] == r;
      } else {
        assert ([[s[0]] + r[0]] + r[1..])[1..] == r[1..];
      }
    }
  }

  /** A first token without separator, then the rest. */
  lemma {:induction false} SplitFirst(t: string, s: string)
    requires BTSEP !in t
    ensures Split(t) == [t]
    ensures Split(t + [BTSEP] + s) == [t] + Split(s)
  {
    if t == "" {
      assert t + [BTSEP] + s == [BTSEP] + s;
      assert ([BTSEP] + s)[1..] == s;
    } else {
      SplitFirst(t[1..], s);
      assert (t + [BTSEP] + s)[1..] == t[1..] + [BTSEP] + s;
      assert ([t[1..]] + Split(s))[1..] == Split(s);
      assert [t[0]] + t[1..] == t;
    }
  }

  /** One token of `subject`, up to the separator at `i`, moves to the tokens found. */
  lemma CutToken(tokens: seq<string>, subject: string, start: nat, i: nat)
    requires start <= i < |subject| && subject[i] == BTSEP && BTSEP !in subject[start..i]
    ensures tokens + Split(subject[start..]) == tokens + [subject[start..i]] + Split(subject[i + 1..])
  {
    var t, rest := subject[start..i], subject[i + 1..];
    SplitFirst(t, rest);
    SliceSnoc(subject, start, i);
    DropAt(subject, start, i + 1);
    ConcatAssoc(tokens, [t], Split(rest));
  }

  /** The scanning loop of Insert, Remove and Match. */
  method Tokenize(subject: string) returns (tokens: seq<string>)
    ensures tokens == Split(subject)
  {
    tokens := [];
    var start := 0;
    for i := 0 to |subject|
      invariant start <= i
      invariant BTSEP !in subject[start..i]
      invariant tokens + Split(subject[start..]) == Split(subject)
    {
      if subject[i] == BTSEP {
        CutToken(tokens, subject, start, i);
        tokens := tokens + [subject[start..i]];
        start := i + 1;
      }
    }
    SplitFirst(subject[start..], "");
    tokens := tokens + [subject[start..]];
  }

  // ---------- token-level matching ----------

  datatype Tok = Lit(t: string) | Pwc | Fwc

  /** The trie looks at the first byte of a token only. */
  function Classify(t: string): Tok {
    if t == "" then Lit(t) else if t[0] == PWC then Pwc else if t[0] == FWC then Fwc else Lit(t)
  }

  function Path(ts: seq<string>): (p: seq<Tok>)
    ensures |p| == |ts|
  {
    if ts == [] then [] else [Classify(ts[0])] + Path(ts[1..])
  }

  /** What Insert accepts: no empty token, and nothing after a `>` token. */
  predicate ValidTokens(ts: seq<string>) {
    ts == [] || (ts[0] != "" && (Classify(ts[0]) == Fwc ==> |ts| == 1) && ValidTokens(ts[1..]))
  }

  function PathOf(subject: string): seq<Tok> {
    Path(Split(subject))
  }

  predicate ValidSubject(subject: string) {
    ValidTokens(Split(subject))
  }

  /** Does the pattern match the literal tokens? */
  predicate Matches(path: seq<Tok>, lits: seq<string>) {
    if path == [] then lits == []
    else if lits == [] then false
    else match path[0]
      case Fwc => true
      case Pwc => Matches(path[1..], lits[1..])
      case Lit(t) => t == lits[0] && Matches(path[1..], lits[1..])
  }

  // ---------- byte-level matching ----------

  /** What is left of `l` from its first separator on. */
  function DropToken(l: string): (r: string)
    ensures |r| <= |l|
  {
    if l == "" || l[0] == BTSEP then l else DropToken(l[1..])
  }

  /** `matchLiteral` on what is left of the literal and of the subject. */
  predicate MatchRest(l: string, s: string)
    decreases |s|
  {
    if s == "" then l == ""
    else if l == "" then false
    else if s[0] == PWC then MatchRest(DropToken(l), s[1..])
    else if s[0] == FWC then true
    else l[0] == s[0] && MatchRest(l[1..], s[1..])
  }

  method MatchLiteral(literal: string, subject: string) returns (r: bool)
    ensures r == MatchRest(literal, subject)
  {
    var li := 0;
    var ll := |literal|;
    var i := 0;
    while i < |subject|
      invariant 0 <= i <= |subject| && 0 <= li <= ll
      invariant MatchRest(literal[li..], subject[i..]) == MatchRest(literal, subject)
    {
      if li >= ll {
        return false;
      }
      var b := subject[i];
      if b == PWC {
        ghost var start := li;
        while !(li >= ll || literal[li] == BTSEP)
          invariant start <= li <= ll
          invariant DropToken(literal[li..]) == DropToken(literal[start..])
          decreases ll - li
        {
          li := li + 1;
        }
        li := li - 1;
      } else if b == FWC {
        return true;
      } else if b != literal[li] {
        return false;
      }
      li := li + 1;
      i := i + 1;
    }
    return li >= ll;
  }

  // ---------- when the two agree ----------

  predicate NoWild(t: string) {
    PWC !in t && FWC !in t
  }

  function AfterStars(t: string): (r: string)
    ensures |r| <= |t|
  {
    if t != "" && t[0] == PWC then AfterStars(t[1..]) else t
  }

  /** Nothing but stars, at least one. */
  predicate Stars(t: string) {
    t != "" && t[0] == PWC && AfterStars(t) == ""
  }

  /** Stars, then `>`. */
  predicate StarsThenFwc(t: string) {
    t != "" && t[0] == PWC && AfterStars(t) != "" && AfterStars(t)[0] == FWC
  }

  /** Subjects on which the byte-level test is exact: wildcards fill their tokens, up to two
      oddities that happen to be harmless. */
  predicate Exact(ts: seq<string>)
    requires |ts| >= 1
  {
    var t := ts[0];
    if |ts| == 1 then NoWild(t) || t == [PWC] || Classify(t) == Fwc
    else if NoWild(t) || Stars(t) then Exact(ts[1..])
    else StarsThenFwc(t) && |ts| == 2 && Classify(ts[1]) == Fwc
  }

  /** Literals on which it is exact: the last token is not empty. */
  predicate OkLiteral(l: string) {
    l != "" && l[|l| - 1] != BTSEP
  }

  predicate TokensMatch(l: string, s: string) {
    Matches(PathOf(s), Split(l))
  }

  /** The remainder of a subject after a token: nothing, or a separator and more. */
  predicate AtBoundary(r: string) {
    r == "" || r[0] == BTSEP
  }

  lemma SplitLetter(l: string)
    requires l != "" && l[0] != BTSEP
    ensures var r := Split(l[1..]); Split(l) == [[l[0]] + r[0]] + r[1..]
    ensures DropToken(l) == DropToken(l[1..])
  {
  }

  lemma {:induction false} FirstToken(l: string)
    ensures l == Split(l)[0] + DropToken(l) && AtBoundary(DropToken(l))
    ensures DropToken(l) == "" ==> Split(l) == [l]
    ensures DropToken(l) != "" ==> Split(l) == [Split(l)[0]] + Split(DropToken(l)[1..])
  {
    if l != "" && l[0] != BTSEP {
      FirstToken(l[1..]);
      SplitLetter(l);
      HeadTail(l);
      ConcatAssoc([l[0]], Split(l[1..])[0], DropToken(l[1..]));
    }
  }

  lemma {:induction false} MatchLiteralToken(t: string, r: string, l: string)
    requires NoWild(t)
    ensures MatchRest(l, t + r) <==> t <= l && MatchRest(l[|t|..], r)
  {
    if t == "" {
      assert t + r == r;
    } else {
      assert (t + r)[1..] == t[1..] + r;
      if l != "" && l[0] == t[0] {
        MatchLiteralToken(t[1..], r, l[1..]);
        assert t <= l <==> t[1..] <= l[1..];
      }
    }
  }

  /** Stars skip one token; more of them, or anything else in the token, need something to follow. */
  lemma {:induction false} MatchStars(t: string, r: string, l: string)
    requires t != "" && t[0] == PWC && l != ""
    ensures MatchRest(l, t + r) <==>
            MatchRest(DropToken(l), AfterStars(t) + r) && (t == [PWC] || DropToken(l) != "")
    decreases |t|
  {
    var d := DropToken(l);
    FirstToken(l);
    assert (t + r)[1..] == t[1..] + r;
    if t == [PWC] {
      assert t[1..] + r == r && AfterStars(t) + r == r;
    } else if d != "" && t[1] == PWC {
      MatchStars(t[1..], r, d);
      if t[1..] == [PWC] { assert AfterStars(t) == ""; }
    }
  }

  lemma JoinFirst(ts: seq<string>)
    requires |ts| >= 1
    ensures |ts| == 1 ==> Join(ts) == ts[0] + ""
    ensures |ts| > 1 ==> Join(ts) == ts[0] + ([BTSEP] + Join(ts[1..]))
  {
    if |ts| > 1 {
      ConcatAssoc(ts[0], [BTSEP], Join(ts[1..]));
    }
  }

  /** A literal token compares the whole first token of the literal. */
  lemma LiteralHead(t: string, rest: string, l: string)
    requires NoWild(t) && BTSEP !in t
    ensures MatchRest(l, t + "") <==> l == t
    ensures MatchRest(l, t + ([BTSEP] + rest)) <==>
            Split(l)[0] == t && DropToken(l) != "" && MatchRest(DropToken(l)[1..], rest)
  {
    MatchLiteralToken(t, "", l);
    MatchLiteralToken(t, [BTSEP] + rest, l);
    ConcatTail([BTSEP], rest);
    ConcatNothing(rest);
    FirstToken(l);
    if t <= l {
      TokenIs(t, l);
    }
  }

  /** When `t` is the first token of `l`, what is behind it starts at the separator. */
  lemma TokenIs(t: string, l: string)
    requires BTSEP !in t && t <= l
    ensures AtBoundary(l[|t|..]) <==> Split(l)[0] == t
    ensures AtBoundary(l[|t|..]) ==> DropToken(l) == l[|t|..]
  {
    TakeDrop(l, |t|);
    assert l[..|t|] == t;
    if AtBoundary(l[|t|..]) {
      SplitHead(t, l[|t|..]);
    } else {
      FirstToken(l);
    }
  }

  lemma {:induction false} DropFirst(t: string, r: string)
    requires BTSEP !in t && AtBoundary(r)
    ensures DropToken(t + r) == r
  {
    if t == "" {
      assert t + r == r;
    } else {
      assert (t + r)[1..] == t[1..] + r;
      DropFirst(t[1..], r);
    }
  }

  /** Tokens as Split produces them: no separators inside. */
  predicate Plain(ts: seq<string>) {
    forall i :: 0 <= i < |ts| ==> BTSEP !in ts[i]
  }

  lemma {:induction false} SplitJoin(ts: seq<string>)
    requires |ts| >= 1 && Plain(ts)
    ensures Split(Join(ts)) == ts
  {
    SplitFirst(ts[0], if |ts| == 1 then "" else Join(ts[1..]));
    if |ts| > 1 {
      SplitJoin(ts[1..]);
      HeadTail(ts);
    }
  }

  lemma OkLiteralTail(l: string)
    requires OkLiteral(l) && DropToken(l) != ""
    ensures OkLiteral(DropToken(l)[1..])
  {
    FirstToken(l);
  }

  /** On exact subjects and such literals the byte-level test is token matching. */
  lemma {:induction false} AgreeTokens(ts: seq<string>, l: string)
    requires |ts| >= 1 && Plain(ts) && ValidTokens(ts) && Exact(ts) && OkLiteral(l)
    ensures MatchRest(l, Join(ts)) <==> Matches(Path(ts), Split(l))
  {
    var t, d := ts[0], DropToken(l);
    FirstToken(l);
    JoinFirst(ts);
    if |ts| == 1 {
      AgreeLast(t, l);
    } else {
      var rest := Join(ts[1..]);
      if d != "" { OkLiteralTail(l); }
      assert Path(ts)[1..] == Path(ts[1..]);
      if NoWild(t) {
        LiteralHead(t, rest, l);
        if d != "" { AgreeTokens(ts[1..], d[1..]); }
      } else if Stars(t) {
        StarsHead(t, rest, l);
        if d != "" { AgreeTokens(ts[1..], d[1..]); }
      } else {
        MatchStars(t, [BTSEP] + rest, l);
      }
    }
  }

  lemma AgreeLast(t: string, l: string)
    requires t != "" && BTSEP !in t && (NoWild(t) || t == [PWC] || Classify(t) == Fwc) && OkLiteral(l)
    ensures MatchRest(l, t + "") <==> Matches([Classify(t)], Split(l))
  {
    FirstToken(l);
    if NoWild(t) {
      LiteralHead(t, "", l);
    } else if t == [PWC] {
      MatchStars(t, "", l);
    }
  }

  lemma StarsHead(t: string, rest: string, l: string)
    requires Stars(t) && l != ""
    ensures MatchRest(l, t + ([BTSEP] + rest)) <==>
            DropToken(l) != "" && MatchRest(DropToken(l)[1..], rest)
  {
    FirstToken(l);
    MatchStars(t, [BTSEP] + rest, l);
    assert AfterStars(t) + ([BTSEP] + rest) == [BTSEP] + rest;
    assert ([BTSEP] + rest)[1..] == rest;
  }

  // ---------- and only then: a literal that tells them apart, for every other valid subject ----------

  /** A literal the pattern matches, token by token. */
  function Sample(ts: seq<string>): (r: seq<string>)
    ensures |r| == |ts|
  {
    if ts == [] then [] else [if Classify(ts[0]).Lit? then ts[0] else "x"] + Sample(ts[1..])
  }

  lemma {:induction false} SampleMatches(ts: seq<string>)
    requires |ts| >= 1 && Plain(ts) && ValidTokens(ts)
    ensures Plain(Sample(ts)) && Matches(Path(ts), Sample(ts))
    ensures OkLiteral(Join(Sample(ts)))
  {
    var r := Sample(ts);
    assert r[0] != "" && BTSEP !in r[0];
    JoinFirst(r);
    if |ts| > 1 {
      SampleMatches(ts[1..]);
      assert r[1..] == Sample(ts[1..]) && Path(ts)[1..] == Path(ts[1..]);
    } else {
      assert r == [r[0]] && Path(ts) == [Classify(ts[0])];
    }
  }

  lemma SampleLiteral(ts: seq<string>) returns (l: string)
    requires |ts| >= 1 && Plain(ts) && ValidTokens(ts)
    ensures OkLiteral(l) && Matches(Path(ts), Split(l))
  {
    SampleMatches(ts);
    l := Join(Sample(ts));
    SplitJoin(Sample(ts));
  }

  /** Only `>` matches everything. */
  lemma NotAll(ts: seq<string>) returns (m: string)
    requires |ts| >= 1 && ValidTokens(ts) && !(|ts| == 1 && Classify(ts[0]) == Fwc)
    ensures OkLiteral(m) && !Matches(Path(ts), Split(m))
  {
    SplitFirst("x", "x");
    SplitFirst("y", "");
    assert "x" + [BTSEP] + "x" == "x.x";
    if Classify(ts[0]).Lit? {
      m := if ts[0] == "x" then "y" else "x";
    } else if |ts| == 1 {
      m := "x.x";
      assert ["x", "x"][1..] == ["x"];
    } else {
      m := "x";
      assert Path(ts)[1..] == Path(ts[1..]);
    }
  }

  lemma SplitHead(t: string, r: string)
    requires BTSEP !in t && AtBoundary(r)
    ensures Split(t + r)[0] == t && DropToken(t + r) == r
    ensures r != "" ==> Split(t + r) == [t] + Split(r[1..])
  {
    DropFirst(t, r);
    if r == "" {
      SplitFirst(t, "");
      assert t + r == t;
    } else {
      SplitFirst(t, r[1..]);
      assert t + r == t + [BTSEP] + r[1..];
    }
  }

  /** What stands before the first wildcard byte. */
  function BeforeWild(t: string): (u: string)
    ensures u <= t && NoWild(u)
    ensures !NoWild(t) ==> |u| < |t| && (t[|u|] == PWC || t[|u|] == FWC)
  {
    if t == "" || t[0] == PWC || t[0] == FWC then "" else [t[0]] + BeforeWild(t[1..])
  }

  lemma {:induction false} DropThrough(u: string, z: string)
    requires BTSEP !in u
    ensures DropToken(u + z) == DropToken(z)
  {
    if u == "" {
      assert u + z == z;
    } else {
      assert (u + z)[1..] == u[1..] + z;
      DropThrough(u[1..], z);
    }
  }

  /** Any token that starts with `u` and goes on with something else than `t` does. */
  lemma OtherToken(u: string, t: string, d: string)
    requires |u| < |t| && t[|u|] != 'x' && BTSEP !in u && AtBoundary(d)
    ensures Split(u + ("x" + d))[0] != t
  {
    SplitHead(u + "x", d);
    ConcatAssoc(u, "x", d);
    assert (u + "x")[|u|] == 'x';
  }

  lemma OkEnd(u: string, d: string)
    requires d == "" || d[|d| - 1] != BTSEP
    ensures OkLiteral(u + ("x" + d))
  {
    var y := u + ("x" + d);
    assert y[|y| - 1] == ("x" + d)[|d|];
  }

  /** A `>` inside a token: the byte-level test stops comparing there. */
  lemma FwcInside(u: string, z: string) returns (l: string)
    requires NoWild(u) && z != "" && z[0] == FWC
    ensures l == u + ("x" + "") && MatchRest(l, u + z)
  {
    l := u + ("x" + "");
    MatchLiteralToken(u, z, l);
    assert l[|u|..] == "x";
  }

  /** A `*` inside a token: the byte-level test skips the rest of the literal's token. */
  lemma PwcInside(u: string, z: string, l: string) returns (l1: string)
    requires NoWild(u) && BTSEP !in u && z != "" && z[0] == PWC && MatchRest(l, u + z)
    ensures l1 == u + ("x" + DropToken(l)) && MatchRest(l1, u + z)
  {
    var d := DropToken(l);
    l1 := u + ("x" + d);
    MatchLiteralToken(u, z, l);
    MatchLiteralToken(u, z, l1);
    DropThrough(u, l[|u|..]);
    assert l == u + l[|u|..];
    assert l1[|u|..] == "x" + d;
    FirstToken(l);
    DropFirst("x", d);
  }

  /** A literal-looking token with a wildcard byte inside is never treated exactly. */
  lemma DisagreeInside(ts: seq<string>) returns (l: string)
    requires |ts| >= 1 && Plain(ts) && ValidTokens(ts) && Classify(ts[0]).Lit? && !NoWild(ts[0])
    ensures OkLiteral(l) && MatchRest(l, Join(ts)) != Matches(Path(ts), Split(l))
  {
    var t := ts[0];
    var u := BeforeWild(t);
    JoinFirst(ts);
    var s := Join(ts);
    var z := s[|u|..];
    assert s == u + z && z[0] == t[|u|];
    assert BTSEP !in u;
    if z[0] == FWC {
      l := FwcInside(u, z);
      OtherToken(u, t, "");
      OkEnd(u, "");
    } else if l0 :| OkLiteral(l0) && MatchRest(l0, s) {
      l := PwcInside(u, z, l0);
      FirstToken(l0);
      OtherToken(u, t, DropToken(l0));
      OkEnd(u, DropToken(l0));
    } else {
      l := SampleLiteral(ts);
    }
  }

  lemma DisagreeStars(ts: seq<string>) returns (l: string)
    requires |ts| >= 1 && Plain(ts) && ValidTokens(ts) && !Exact(ts) && Classify(ts[0]) == Pwc && !Stars(ts[0])
    ensures OkLiteral(l) && MatchRest(l, Join(ts)) != Matches(Path(ts), Split(l))
  {
    var t, v := ts[0], AfterStars(ts[0]);
    JoinFirst(ts);
    var r := if |ts| == 1 then "" else [BTSEP] + Join(ts[1..]);
    StarsSplit(t);
    if v[0] != FWC {
      l := SampleLiteral(ts);
      MatchStars(t, r, l);
      FirstToken(l);
    } else if |ts| == 1 {
      l := "x";
      SplitFirst("x", "");
      MatchStars(t, r, l);
      assert Path(ts) == [Pwc];
    } else {
      var m := NotAll(ts[1..]);
      l := "x" + ([BTSEP] + m);
      SplitHead("x", [BTSEP] + m);
      assert ([BTSEP] + m)[1..] == m;
      MatchStars(t, r, l);
      assert Path(ts)[1..] == Path(ts[1..]);
    }
  }

  lemma {:induction false} StarsSplit(t: string)
    requires BTSEP !in t
    ensures AfterStars(t) != "" ==> AfterStars(t)[0] != PWC && AfterStars(t)[0] != BTSEP
  {
    if t != "" && t[0] == PWC {
      StarsSplit(t[1..]);
    }
  }

  lemma {:induction false} Disagree(ts: seq<string>) returns (l: string)
    requires |ts| >= 1 && Plain(ts) && ValidTokens(ts) && !Exact(ts)
    ensures OkLiteral(l) && MatchRest(l, Join(ts)) != Matches(Path(ts), Split(l))
  {
    var t := ts[0];
    if Classify(t).Lit? && !NoWild(t) {
      l := DisagreeInside(ts);
    } else if Classify(t) == Pwc && !Stars(t) {
      l := DisagreeStars(ts);
    } else if |ts| == 1 {
      // two or more stars, as the last token
      l := "x";
      SplitFirst("x", "");
      JoinFirst(ts);
      MatchStars(t, "", l);
      assert Path(ts) == [Pwc];
    } else {
      var m := Disagree(ts[1..]);
      var head := if NoWild(t) then t else "x";
      l := head + ([BTSEP] + m);
      JoinFirst(ts);
      SplitHead(head, [BTSEP] + m);
      assert ([BTSEP] + m)[1..] == m && Path(ts)[1..] == Path(ts[1..]);
      if NoWild(t) {
        LiteralHead(t, Join(ts[1..]), l);
      } else {
        StarsHead(t, Join(ts[1..]), l);
      }
    }
  }

  /** For every valid subject: the byte-level test agrees with token matching on all literals
      that do not end in an empty token if and only if the subject is exact. */
  lemma SubjectExactly(s: string)
    requires ValidSubject(s)
    ensures Exact(Split(s)) <==> forall l :: OkLiteral(l) ==> (MatchRest(l, s) <==> TokensMatch(l, s))
  {
    JoinSplit(s);
    if Exact(Split(s)) {
      forall l | OkLiteral(l) ensures MatchRest(l, s) <==> TokensMatch(l, s) {
        AgreeTokens(Split(s), l);
      }
    } else {
      var l := Disagree(Split(s));
      assert MatchRest(l, s) != TokensMatch(l, s);
    }
  }

  /** `*.*...>` with `n` tokens. */
  function AnyTokens(n: nat): (ts: seq<string>)
    requires n >= 1
    ensures |ts| == n && Plain(ts) && ValidTokens(ts) && Exact(ts)
  {
    if n == 1 then [[FWC]] else [[PWC]] + AnyTokens(n - 1)
  }

  /** A literal with an empty last token escapes the byte-level test, not the trie. */
  lemma {:induction false} EmptyLastToken(l: string)
    requires !OkLiteral(l)
    ensures !MatchRest(l, Join(AnyTokens(|Split(l)|)))
    ensures Matches(Path(AnyTokens(|Split(l)|)), Split(l))
    decreases |l|
  {
    var ts := AnyTokens(|Split(l)|);
    FirstToken(l);
    JoinFirst(ts);
    if l != "" {
      var d := DropToken(l);
      assert d != "" && !OkLiteral(d[1..]);
      EmptyLastToken(d[1..]);
      assert ts[1..] == AnyTokens(|Split(d[1..])|);
      StarsHead([PWC], Join(ts[1..]), l);
      assert Path(ts)[1..] == Path(ts[1..]);
    }
  }

  /** For every literal: the byte-level test is right about it for all exact valid subjects if
      and only if its last token is not empty. */
  lemma LiteralExactly(l: string)
    ensures OkLiteral(l) <==>
            forall s :: ValidSubject(s) && Exact(Split(s)) ==> (MatchRest(l, s) <==> TokensMatch(l, s))
  {
    if OkLiteral(l) {
      forall s | ValidSubject(s) && Exact(Split(s)) ensures MatchRest(l, s) <==> TokensMatch(l, s) {
        JoinSplit(s);
        AgreeTokens(Split(s), l);
      }
    } else {
      var ts := AnyTokens(|Split(l)|);
      EmptyLastToken(l);
      SplitJoin(ts);
      assert ValidSubject(Join(ts)) && Exact(Split(Join(ts)));
    }
  }
}
