/**
 Subscription ids on routes. A server announces a client's subscription to its peers under the
 id `RSID:<client>:<sid>`, or `QRSID:<client>:<sid>` for a queue subscription, and finds the
 client's queue subscription again from the id a peer sends back with a message.
 */
module RouteSids {
  import opened Common
  import opened WireArgs

  const FORM_FEED := '\U{000C}'

  /** The regular expression class `\s`. It has the form feed, which does not separate arguments. */
  predicate White(c: char) {
    c == ' ' || c == '\t' || c == '\n' || c == '\r' || c == FORM_FEED
  }

  function RouteSid(cid: nat, sid: string, queued: bool): string {
    (if queued then "QRSID:" else "RSID:") + Decimal(cid) + ":" + sid
  }

  // ---------- the regular expression QRSID:(\d+):([^\s]+) ----------

  function DigitsEnd(s: string, i: nat): (e: nat)
    requires i <= |s|
    ensures i <= e <= |s| && forall j :: i <= j < e ==> IsDigit(s[j])
    decreases |s| - i
  {
    if i < |s| && IsDigit(s[i]) then DigitsEnd(s, i + 1) else i
  }

  function WordEnd(s: string, i: nat): (e: nat)
    requires i <= |s|
    ensures i <= e <= |s| && forall j :: i <= j < e ==> !White(s[j])
    decreases |s| - i
  {
    if i < |s| && !White(s[i]) then WordEnd(s, i + 1) else i
  }

  datatype Found = Found(cid: string, sid: string)

  function MatchAt(s: string, i: nat): Option<Found>
    requires i <= |s|
  {
    if !("QRSID:" <= s[i..]) then None
    else
      var d := DigitsEnd(s, i + 6);
      if d == i + 6 || d == |s| || s[d] != ':' then None
      else
        var e := WordEnd(s, d + 1);
        if e == d + 1 then None else Some(Found(s[i + 6..d], s[d + 1..e]))
  }

  /** The leftmost match from `i` on. */
  function FindMatch(s: string, i: nat): Option<Found>
    requires i <= |s|
    decreases |s| - i
  {
    if MatchAt(s, i).Some? then MatchAt(s, i)
    else if i == |s| then None
    else FindMatch(s, i + 1)
  }

  datatype QueueSid = QueueSid(cid: int, sid: string)

  /** The client and sid named by a queue subscription's route id. */
  function ParseQueueSid(rsid: string): Option<QueueSid> {
    if !("QRSID" <= rsid) then None
    else match FindMatch(rsid, 0)
      case None => None
      case Some(f) => Some(QueueSid(SizeOf(f.cid), f.sid))
  }

  // ---------- the round trip ----------

  lemma {:induction false} DigitsEndAt(s: string, i: nat, e: nat)
    requires i <= e <= |s| && (forall j :: i <= j < e ==> IsDigit(s[j])) && (e < |s| ==> !IsDigit(s[e]))
    ensures DigitsEnd(s, i) == e
    decreases e - i
  {
    if i < e {
      DigitsEndAt(s, i + 1, e);
    }
  }

  lemma {:induction false} WordEndAt(s: string, i: nat)
    requires i <= |s| && forall j :: i <= j < |s| ==> !White(s[j])
    ensures WordEnd(s, i) == |s|
    decreases |s| - i
  {
    if i < |s| {
      WordEndAt(s, i + 1);
    }
  }

  lemma MatchWhole(s: string, d: string, sid: string)
    requires s == "QRSID:" + d + ":" + sid && d != "" && sid != ""
    requires (forall j :: 0 <= j < |d| ==> IsDigit(d[j])) && forall j :: 0 <= j < |sid| ==> !White(sid[j])
    ensures MatchAt(s, 0) == Some(Found(d, sid))
  {
    var e := 6 + |d|;
    assert s[6..e] == d && s[e + 1..|s|] == sid && s[0..] == s && "QRSID:" <= s;
    assert forall j :: 6 <= j < e ==> s[j] == d[j - 6];
    DigitsEndAt(s, 6, e);
    assert forall j :: e + 1 <= j < |s| ==> s[j] == sid[j - e - 1];
    WordEndAt(s, e + 1);
  }

  lemma RouteSidBack(cid: nat, sid: string)
    requires Word(sid) && FORM_FEED !in sid
    ensures ParseQueueSid(RouteSid(cid, sid, true)) == Some(QueueSid(cid, sid))
  {
    MatchWhole(RouteSid(cid, sid, true), Decimal(cid), sid);
    SizeOfDecimal(cid);
  }

  lemma {:induction false} FoundHasNoWhite(s: string, i: nat)
    requires i <= |s| && FindMatch(s, i).Some?
    ensures FORM_FEED !in FindMatch(s, i).value.sid
    decreases |s| - i
  {
    if MatchAt(s, i).None? {
      FoundHasNoWhite(s, i + 1);
    }
  }

  /** The client's sid comes back exactly if it holds no form feed; SUB accepts such sids. */
  lemma RouteSidExactly(cid: nat, sid: string)
    requires Word(sid)
    ensures ParseQueueSid(RouteSid(cid, sid, true)) == Some(QueueSid(cid, sid)) <==> FORM_FEED !in sid
  {
    if FORM_FEED !in sid {
      RouteSidBack(cid, sid);
    } else {
      var s := RouteSid(cid, sid, true);
      if FindMatch(s, 0).Some? {
        FoundHasNoWhite(s, 0);
      }
    }
  }

  /** The id of a plain subscription is never taken for a queue subscription's. */
  lemma PlainSidIsPlain(cid: nat, sid: string)
    ensures ParseQueueSid(RouteSid(cid, sid, false)) == None
  {
    var s := RouteSid(cid, sid, false);
    assert s[0] == 'R' && "QRSID"[0] == 'Q';
  }

  lemma {:induction false} WordEndStops(s: string, i: nat, e: nat)
    requires i <= e < |s| && (forall j :: i <= j < e ==> !White(s[j])) && White(s[e])
    ensures WordEnd(s, i) == e
    decreases e - i
  {
    if i < e {
      WordEndStops(s, i + 1, e);
    }
  }

  /** The sid is cut short at the form feed. */
  lemma MatchCut(s: string, d: string, head: string, tail: string)
    requires s == "QRSID:" + d + ":" + (head + [FORM_FEED] + tail) && d != "" && head != ""
    requires (forall j :: 0 <= j < |d| ==> IsDigit(d[j])) && forall j :: 0 <= j < |head| ==> !White(head[j])
    ensures MatchAt(s, 0) == Some(Found(d, head))
  {
    var e := 6 + |d|;
    var f := e + 1 + |head|;
    assert s[6..e] == d && s[e] == ':' && s[0..] == s && "QRSID:" <= s;
    assert s[e + 1..f] == head && s[f] == FORM_FEED;
    assert forall j :: 6 <= j < e ==> s[j] == d[j - 6];
    DigitsEndAt(s, 6, e);
    assert forall j :: e + 1 <= j < f ==> s[j] == head[j - e - 1];
    WordEndStops(s, e + 1, f);
  }

  lemma CutSid(cid: nat, head: string, tail: string)
    requires Word(head) && FORM_FEED !in head
    ensures ParseQueueSid(RouteSid(cid, head + [FORM_FEED] + tail, true)) == Some(QueueSid(cid, head))
  {
    MatchCut(RouteSid(cid, head + [FORM_FEED] + tail, true), Decimal(cid), head, tail);
    SizeOfDecimal(cid);
  }
}
