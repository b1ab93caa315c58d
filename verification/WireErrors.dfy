/**
 What the parser refuses: a stream that breaks the grammar of control lines ends the connection at
 the byte that breaks it, however the stream is cut into reads.
 */
module WireErrors {
  import opened Common
  import opened WireArgs
  import opened WireRef
  import opened WireFrames
  import opened WireParser
  import opened WireChunks

  // ---------- refused bytes ----------

  /** A line in state `st` with the arguments `arg` is an error. */
  predicate LineRefused(st: State, arg: string, cfg: Config) {
    if st == PubArg || st == MsgArg then Publication(st, arg, cfg.maxPayload).None? else LineOp(st, arg).None?
  }

  /** A state in which the next byte has to be a certain letter or blank. */
  predicate InWord(st: State) {
    !IsLine(st) && ArgAfter(st).None? && !IsArg(st) && !IsPayload(st)
  }

  /** The byte is an error: no keyword goes on like this, or it ends a line that is one. */
  predicate Refused(r: Ref, b: char, cfg: Config)
    requires r.Ref?
  {
    if IsArg(r.st) then b == LF && LineRefused(r.st, r.arg, cfg)
    else InWord(r.st) && Letter(r.st, b, cfg.routed).None?
  }

  lemma RefusedIsBad(r: Ref, b: char, cfg: Config)
    requires r.Ref? && Refused(r, b, cfg)
    ensures Step(r, b, cfg) == Bad && r.st != MsgPayload
  {
    StepIs(r, b, cfg);
  }

  lemma RefusedLineStops(p: Parser, base: Slice, arg: string, i: nat, cfg: Config)
    requires Within(base, if base.Buf? then base.hi else 0) && Len(base) == |arg| && LineRefused(p.state, arg, cfg)
    ensures LineEnd(p, base, arg, i, cfg) == Stop
  {
    PubAccepted(p.state, base, arg, p.pa.sid, cfg.maxPayload);
  }

  lemma ArgStops(p: Parser, buf: string, i: nat, r: Ref, cfg: Config)
    requires i < |buf| && Sim(p, buf, i, r, cfg) && IsArg(p.state) && r.Ref? && p.state == r.st
    requires Refused(r, buf[i], cfg)
    ensures TurnOf(p, buf, i, cfg) == Stop
  {
    LineBaseText(p, buf, i, r, cfg);
    RefusedLineStops(p, LineBase(p, i), r.arg, i, cfg);
    TurnOfIs(p, buf, i, cfg);
  }

  lemma SameState(p: Parser, buf: string, i: nat, r: Ref, cfg: Config)
    requires Sim(p, buf, i, r, cfg) && r.st != MsgPayload
    ensures p.state == r.st && !IsPayload(p.state) && i <= |buf| && Consumed(p, buf, i) == i
  {
  }

  /** A refused byte ends the connection. */
  lemma RefusedTurn(p: Parser, buf: string, i: nat, r: Ref, cfg: Config)
    requires i < |buf| && Sim(p, buf, i, r, cfg) && r.Ref? && Refused(r, buf[i], cfg)
    ensures TurnOf(p, buf, i, cfg) == Stop
  {
    RefusedIsBad(r, buf[i], cfg);
    SameState(p, buf, i, r, cfg);
    if IsArg(p.state) {
      ArgStops(p, buf, i, r, cfg);
    }
  }

  lemma SimRef(p: Parser, buf: string, i: nat, r: Ref, cfg: Config)
    requires Sim(p, buf, i, r, cfg)
    ensures r.Ref? && (r.st == MsgPayload <==> IsPayload(p.state))
  {
  }

  /** The machine goes on from `c` to `k`, and byte `k` is refused. */
  predicate RefusedAt(r: Ref, buf: string, c: nat, k: nat, cfg: Config) {
    c <= k < |buf| && Run(r, buf[c..k], cfg).Ref? && Refused(Run(r, buf[c..k], cfg), buf[k], cfg)
  }

  lemma RunUpTo(r: Ref, buf: string, c0: nat, c: nat, k: nat, cfg: Config)
    requires c0 <= c <= k <= |buf|
    ensures Run(r, buf[c0..k], cfg) == Run(Run(r, buf[c0..c], cfg), buf[c..k], cfg)
  {
    RunConcat(r, buf[c0..c], buf[c..k], cfg);
    assert buf[c0..k] == buf[c0..c] + buf[c..k];
  }

  /** Nobody gets past a refused byte. */
  lemma NotPast(r: Ref, buf: string, c0: nat, c: nat, k: nat, cfg: Config)
    requires RefusedAt(r, buf, c0, k, cfg) && k < c <= |buf|
    ensures Run(r, buf[c0..c], cfg) == Bad
  {
    var rk := Run(r, buf[c0..k], cfg);
    RunUpTo(r, buf, c0, k, c, cfg);
    RefusedIsBad(rk, buf[k], cfg);
    RunFrom(rk, buf, k, c, cfg);
    RunBad(buf[k + 1..c], cfg);
  }

  lemma RefusedLater(p: Parser, buf: string, i: nat, r: Ref, q: Parser, j: nat, r1: Ref, k: nat, cfg: Config)
    requires Consumes(p, buf, i, r, q, j, r1, cfg) && r1.Ref? && RefusedAt(r, buf, Consumed(p, buf, i), k, cfg)
    ensures RefusedAt(r1, buf, Consumed(q, buf, j), k, cfg)
  {
    var c0, c := Consumed(p, buf, i), Consumed(q, buf, j);
    if c > k {
      NotPast(r, buf, c0, c, k, cfg);
    } else {
      RunUpTo(r, buf, c0, c, k, cfg);
    }
  }

  lemma FirstGoes(r: Ref, buf: string, c: nat, k: nat, cfg: Config)
    requires RefusedAt(r, buf, c, k, cfg) && c < k
    ensures Goes(r, buf, c, cfg)
  {
    assert buf[c..k][0] == buf[c];
    FirstStep(r, buf[c..k], cfg);
  }

  /** The loop over a buffer stops at the refused byte. */
  lemma {:induction false} LoopRefuses(p: Parser, buf: string, i: nat, r: Ref, k: nat, cfg: Config)
    requires Sim(p, buf, i, r, cfg) && RefusedAt(r, buf, Consumed(p, buf, i), k, cfg) && i < |buf|
    ensures Loop(p, buf, i, cfg) == Stop
    decreases |buf| - i, if p.state == PubArg then 1 else 0
  {
    var c := Consumed(p, buf, i);
    SimRef(p, buf, i, r, cfg);
    if c == k {
      assert buf[c..k] == "";
      RefusedIsBad(r, buf[k], cfg);
      SameState(p, buf, i, r, cfg);
      RefusedTurn(p, buf, i, r, cfg);
    } else {
      FirstGoes(r, buf, c, k, cfg);
      var q, j, r1 := AnyTurn(p, buf, i, r, cfg);
      SimRef(q, buf, j, r1, cfg);
      RefusedLater(p, buf, i, r, q, j, r1, k, cfg);
      LoopUnrolls(p, buf, i, q, j, cfg);
      NotDone(q, buf, j, r1, k, cfg);
      LoopRefuses(q, buf, j, r1, k, cfg);
    }
  }

  /** While the refused byte is ahead, the parser has not run out of the buffer. */
  lemma NotDone(q: Parser, buf: string, j: nat, r: Ref, k: nat, cfg: Config)
    requires Sim(q, buf, j, r, cfg) && RefusedAt(r, buf, Consumed(q, buf, j), k, cfg)
    ensures j < |buf|
  {
  }

  /** The refused byte is in the first of two parts, or in the second. */
  lemma RefusedHere(r: Ref, buf: string, rest: string, k: nat, cfg: Config)
    requires RefusedAt(r, buf + rest, 0, k, cfg) && k < |buf|
    ensures RefusedAt(r, buf, 0, k, cfg)
  {
    TakeOfConcat(buf, rest, k);
  }

  lemma RefusedThere(r: Ref, buf: string, rest: string, k: nat, cfg: Config)
    requires RefusedAt(r, buf + rest, 0, k, cfg) && k >= |buf|
    ensures Run(r, buf, cfg).Ref? && RefusedAt(Run(r, buf, cfg), rest, 0, k - |buf|, cfg)
  {
    TakeOfConcat(buf, rest, k);
    var more := rest[0..k - |buf|];
    ConcatNothing(buf);
    RunConcat(r, buf, more, cfg);
    if Run(r, buf, cfg).Bad? {
      RunBad(more, cfg);
    }
  }

  lemma ReadStops(p: Parser, buf: string, r: Ref, k: nat, cfg: Config)
    requires AtRest(p, r, cfg) && RefusedAt(r, buf, 0, k, cfg)
    ensures Parse(p, buf, cfg) == Stop
  {
    RestStarts(p, r, buf, cfg);
    LoopRefuses(p, buf, 0, r, k, cfg);
  }

  /** However the bytes are cut into reads, a refused byte after a stream that is fine so far ends the
      connection. */
  lemma {:induction false} StreamRefused(p: Parser, chunks: seq<string>, r: Ref, k: nat, cfg: Config)
    requires AtRest(p, r, cfg) && RefusedAt(r, Flatten(chunks), 0, k, cfg)
    ensures ParseAll(p, chunks, cfg) == Stop
    decreases |chunks|
  {
    var buf, rest := chunks[0], Flatten(chunks[1..]);
    if k < |buf| {
      RefusedHere(r, buf, rest, k, cfg);
      ReadStops(p, buf, r, k, cfg);
    } else {
      RefusedThere(r, buf, rest, k, cfg);
      ParseSim(p, buf, r, cfg);
      StreamRefused(Parse(p, buf, cfg).p, chunks[1..], Run(r, buf, cfg), k - |buf|, cfg);
    }
  }

  // ---------- which lines are refused ----------

  predicate Numeral(d: string) {
    d != "" && forall i :: 0 <= i < |d| ==> IsDigit(d[i])
  }

  lemma {:induction false} SizeFromExactly(d: string, i: nat, n: nat)
    requires i <= |d|
    ensures SizeFrom(d, i, n) >= 0 <==> forall j :: i <= j < |d| ==> IsDigit(d[j])
    decreases |d| - i
  {
    if i < |d| && IsDigit(d[i]) {
      SizeFromExactly(d, i + 1, n * 10 + Digit(d[i]));
    }
  }

  lemma SizeExactly(d: string)
    ensures SizeOf(d) >= 0 <==> Numeral(d)
  {
    SizeFromExactly(d, 0, 0);
  }

  /** The arguments fit the keyword: PUB takes a subject, perhaps a reply, and a size within the limit;
      MSG a sid as well, and no limit; SUB a subject, perhaps a queue, and a sid; UNSUB a sid and perhaps
      a limit. */
  predicate ArgsFit(st: State, args: seq<string>, maxPayload: nat) {
    match st
    case PubArg =>
      && (|args| == 2 || |args| == 3) && Numeral(args[|args| - 1])
      && (maxPayload == 0 || SizeOf(args[|args| - 1]) <= maxPayload)
    case MsgArg => (|args| == 3 || |args| == 4) && Numeral(args[|args| - 1])
    case SubArg => |args| == 2 || |args| == 3
    case UnsubArg => |args| == 1 || |args| == 2
    case _ => true
  }

  lemma PubRefusedExactly(st: State, arg: string, cfg: Config)
    requires st == PubArg || st == MsgArg
    ensures LineRefused(st, arg, cfg) <==> !ArgsFit(st, Args(arg), cfg.maxPayload)
  {
    var args := Args(arg);
    if |args| > 0 {
      SizeExactly(args[|args| - 1]);
    }
  }

  /** A line is refused exactly if its arguments do not fit. */
  lemma LineRefusedExactly(st: State, arg: string, cfg: Config)
    requires IsArg(st)
    ensures LineRefused(st, arg, cfg) <==> !ArgsFit(st, Args(arg), cfg.maxPayload)
  {
    if st == PubArg || st == MsgArg {
      PubRefusedExactly(st, arg, cfg);
    }
  }

  /** Written so that the parser gets to the end of the arguments `arg` of keyword `f`. */
  predicate LineOf(f: Frame, style: Style, arg: string, cfg: Config) {
    && Spells(style.keyword, Keyword(f)) && (f.Msg? ==> cfg.routed)
    && style.gap != "" && (forall i :: 0 <= i < |style.gap| ==> Space(style.gap[i]))
    && arg != "" && OneLine(arg) && !Space(arg[0]) && |arg| <= cfg.maxControlLine
  }

  lemma RunToArg(f: Frame, style: Style, arg: string, ops: seq<Op>, cfg: Config)
    requires HasArgs(f) && LineOf(f, style, arg, cfg)
    ensures Run(Done(ops), (style.keyword + style.gap) + arg, cfg) == Ref(ArgState(f), false, arg, NO_PUBLISH, "", ops)
    ensures IsArg(ArgState(f))
  {
    RunToBlanks(f, style, ops, cfg);
    BlanksLead(f);
    RunArg(AtBlanks(f, ops), arg, cfg);
    RunTwo(Done(ops), style.keyword + style.gap, arg, AtBlanks(f, ops),
           Ref(ArgState(f), false, arg, NO_PUBLISH, "", ops), cfg);
  }

  /** With the carriage return, if there is one. */
  lemma RunToFeed(r: Ref, style: Style, cfg: Config)
    requires r.Ref? && IsArg(r.st) && !r.cr
    ensures Run(r, if style.crlf then [CR] else "", cfg) == r.(cr := style.crlf)
  {
    RunOne(r, CR, cfg);
  }

  /** A line without its line feed. */
  function Unfed(style: Style, arg: string): string {
    ((style.keyword + style.gap) + arg) + (if style.crlf then [CR] else "")
  }

  lemma FedIs(style: Style, arg: string)
    ensures (style.keyword + style.gap) + arg + Eol(style) == Unfed(style, arg) + [LF]
  {
  }

  lemma Regroup(a: string, b: string, c: string, d: string)
    ensures a + (b + c) + d == (a + b) + c + d
  {
  }

  lemma RunUnfed(f: Frame, style: Style, arg: string, ops: seq<Op>, cfg: Config)
    requires HasArgs(f) && LineOf(f, style, arg, cfg)
    ensures Run(Done(ops), Unfed(style, arg), cfg) == Ref(ArgState(f), style.crlf, arg, NO_PUBLISH, "", ops)
    ensures IsArg(ArgState(f))
  {
    var r := Ref(ArgState(f), false, arg, NO_PUBLISH, "", ops);
    RunToArg(f, style, arg, ops, cfg);
    RunToFeed(r, style, cfg);
    RunTwo(Done(ops), (style.keyword + style.gap) + arg, if style.crlf then [CR] else "", r, r.(cr := style.crlf), cfg);
  }

  /** After any frames, a line whose arguments do not fit its keyword ends the connection when its line
      feed is read, wherever the reads end. */
  lemma BadLineStops(ws: seq<Written>, f: Frame, style: Style, arg: string, rest: string, chunks: seq<string>,
                     cfg: Config)
    requires AllWellFormed(ws, cfg) && HasArgs(f) && LineOf(f, style, arg, cfg)
    requires !ArgsFit(ArgState(f), Args(arg), cfg.maxPayload)
    requires Flatten(chunks) == EncodeAll(ws) + ((style.keyword + style.gap) + arg + Eol(style)) + rest
    ensures ParseAll(New(), chunks, cfg) == Stop
  {
    var ops := AllOps(ws);
    var r := Ref(ArgState(f), style.crlf, arg, NO_PUBLISH, "", ops);
    RunFrames(ws, [], cfg);
    ConcatNothing(ops);
    RunUnfed(f, style, arg, ops, cfg);
    RunTwo(Done([]), EncodeAll(ws), Unfed(style, arg), Done(ops), r, cfg);
    LineRefusedExactly(ArgState(f), arg, cfg);
    FedIs(style, arg);
    Regroup(EncodeAll(ws), Unfed(style, arg), [LF], rest);
    BytesStop(EncodeAll(ws) + Unfed(style, arg), LF, rest, r, chunks, cfg);
  }

  lemma RefusedBehind(u: string, b: char, rest: string, r: Ref, cfg: Config)
    requires Run(Done([]), u, cfg) == r && r.Ref? && Refused(r, b, cfg)
    ensures RefusedAt(Done([]), u + [b] + rest, 0, |u|, cfg)
  {
    var all := u + [b] + rest;
    assert all[0..|u|] == u && all[|u|] == b;
  }

  lemma BytesStop(u: string, b: char, rest: string, r: Ref, chunks: seq<string>, cfg: Config)
    requires Run(Done([]), u, cfg) == r && r.Ref? && Refused(r, b, cfg)
    requires Flatten(chunks) == u + [b] + rest
    ensures ParseAll(New(), chunks, cfg) == Stop
  {
    RefusedBehind(u, b, rest, r, cfg);
    NewRests(cfg);
    StreamRefused(New(), chunks, Done([]), |u|, cfg);
  }

  // ---------- lines that are too long ----------

  /** The parser holds the first `n` bytes of a line, saved; kept whole like `Sim`. */
  predicate LineHeld(p: Parser, n: nat) {
    HeldParts(p, n) == true
  }

  predicate HeldParts(p: Parser, n: nat) {
    |p.scratch| == SCRATCH_SIZE && IsArg(p.state) && SavedArg(p.argBuf) && p.msgBuf == Nil && Len(p.argBuf) == n
  }

  lemma ArgByteIs(p: Parser, n: nat, v: string, i: nat, cfg: Config) returns (q: Parser)
    requires LineHeld(p, n) && i < |v| && v[i] != CR && v[i] != LF
    ensures TurnOf(p, v, i, cfg) == Go(q, i) && LineHeld(q, n + 1)
  {
    var a := Append(p.scratch, p.argBuf, [v[i]]);
    AppendIs(p.scratch, p.argBuf, [v[i]]);
    q := p.(scratch := a.scratch, argBuf := a.slice);
  }

  lemma LoopGrows(p: Parser, n: nat, v: string, i: nat, cfg: Config) returns (q: Parser)
    requires LineHeld(p, n) && i < |v| && v[i] != CR && v[i] != LF
    ensures Loop(p, v, i, cfg) == Loop(q, v, i + 1, cfg) && LineHeld(q, n + 1)
  {
    q := ArgByteIs(p, n, v, i, cfg);
    LoopUnrolls(p, v, i, q, i + 1, cfg);
  }

  lemma LoopEnds(p: Parser, v: string, cfg: Config)
    ensures Loop(p, v, |v|, cfg) == Go(p, |v|)
  {
  }

  /** A saved line grows by every byte of a read that does not end it. */
  lemma {:induction false} LineGrows(p: Parser, n: nat, v: string, i: nat, cfg: Config) returns (q: Parser)
    requires LineHeld(p, n) && i <= |v| && forall k :: 0 <= k < |v| ==> v[k] != CR && v[k] != LF
    ensures Loop(p, v, i, cfg) == Go(q, |v|) && LineHeld(q, n + (|v| - i))
    decreases |v| - i
  {
    if i == |v| {
      q := p;
      LoopEnds(p, v, cfg);
    } else {
      var next := LoopGrows(p, n, v, i, cfg);
      q := LineGrows(next, n + 1, v, i + 1, cfg);
    }
  }

  lemma LineTooLong(q: Parser, n: nat, v: string, cfg: Config)
    requires LineHeld(q, n) && n > cfg.maxControlLine
    ensures EndOfBuffer(q, v, cfg) == Stop
  {
  }

  lemma RestingLine(p: Parser, r: Ref, cfg: Config)
    requires AtRest(p, r, cfg) && r.Ref? && IsArg(r.st)
    ensures LineHeld(p, |r.arg|)
  {
    assert Len(p.argBuf) == |Deref(p.argBuf, "", p.scratch)|;
  }

  /** A control line that goes on past the limit in a later read, and does not end there, ends the
      connection. */
  lemma LongLineStops(p: Parser, r: Ref, v: string, cfg: Config)
    requires AtRest(p, r, cfg) && r.Ref? && IsArg(r.st) && OneLine(v) && |r.arg| + |v| > cfg.maxControlLine
    ensures Parse(p, v, cfg) == Stop
  {
    RestingLine(p, r, cfg);
    var q := LineGrows(p, |r.arg|, v, 0, cfg);
    LineTooLong(q, |r.arg| + |v|, v, cfg);
  }

  // ---------- which words are refused ----------

  /** What the letters read so far spell, in capitals. */
  function NameOf(st: State): string {
    match st
    case OpP => "P" case OpPu => "PU" case OpPub => "PUB" case OpPubSpc => "PUB "
    case OpPi => "PI" case OpPin => "PIN" case OpPing => "PING"
    case OpPo => "PO" case OpPon => "PON" case OpPong => "PONG"
    case OpS => "S" case OpSu => "SU" case OpSub => "SUB" case OpSubSpc => "SUB "
    case OpU => "U" case OpUn => "UN" case OpUns => "UNS" case OpUnsu => "UNSU" case OpUnsub => "UNSUB"
    case OpUnsubSpc => "UNSUB "
    case OpM => "M" case OpMs => "MS" case OpMsg => "MSG" case OpMsgSpc => "MSG "
    case OpC => "C" case OpCo => "CO" case OpCon => "CON" case OpConn => "CONN" case OpConne => "CONNE"
    case OpConnec => "CONNEC" case OpConnect => "CONNECT"
    case OpI => "I" case OpIn => "IN" case OpInf => "INF" case OpInfo => "INFO"
    case OpPlus => "+" case OpPlusO => "+O" case OpPlusOk => "+OK"
    case OpMinus => "-" case OpMinusE => "-E" case OpMinusEr => "-ER" case OpMinusErr => "-ERR"
    case OpMinusErrSpc => "-ERR "
    case _ => ""
  }

  function Capital(b: char): char {
    if 'a' <= b <= 'z' then (b as int - 32) as char else if b == '\t' then ' ' else b
  }

  /** Where a wanted letter leads spells the same with the letter added. */
  predicate GoesOn(st: State) {
    var w := Expects(st);
    && !w.WantNothing? && NameOf(w.next) == NameOf(st) + [if w.Want? then w.upper else ' ']
    && (w.Want? ==> 'A' <= w.upper <= 'Z' && w.lower as int == w.upper as int + 32)
  }

  lemma SpellsPub()
    ensures GoesOn(OpPu) && GoesOn(OpPub)
  {
  }

  lemma SpellsPin()
    ensures GoesOn(OpPi) && GoesOn(OpPin)
  {
  }

  lemma SpellsPon()
    ensures GoesOn(OpPo) && GoesOn(OpPon)
  {
  }

  lemma SpellsSu()
    ensures GoesOn(OpS) && GoesOn(OpSu)
  {
  }

  lemma SpellsSub()
    ensures GoesOn(OpSub)
  {
  }

  lemma SpellsOk()
    ensures GoesOn(OpPlus) && GoesOn(OpPlusO)
  {
  }

  lemma SpellsUns()
    ensures GoesOn(OpU) && GoesOn(OpUn)
  {
  }

  lemma SpellsUnsub1()
    ensures GoesOn(OpUns) && GoesOn(OpUnsu)
  {
  }

  lemma SpellsUnsub2()
    ensures GoesOn(OpUnsub)
  {
  }

  lemma SpellsCon()
    ensures GoesOn(OpC) && GoesOn(OpCo) && GoesOn(OpCon)
  {
  }

  lemma SpellsConnect()
    ensures GoesOn(OpConn) && GoesOn(OpConne) && GoesOn(OpConnec)
  {
  }

  lemma SpellsM()
    ensures GoesOn(OpM)
  {
  }

  lemma SpellsMs()
    ensures GoesOn(OpMs)
  {
  }

  lemma SpellsMsg()
    ensures GoesOn(OpMsg)
  {
  }

  lemma SpellsInfo1()
    ensures GoesOn(OpI) && GoesOn(OpIn)
  {
  }

  lemma SpellsInfo2()
    ensures GoesOn(OpInf)
  {
  }

  lemma SpellsErr()
    ensures GoesOn(OpMinus) && GoesOn(OpMinusE) && GoesOn(OpMinusEr) && GoesOn(OpMinusErr)
  {
  }

  predicate EarlyLetters(st: State) {
    st.OpPu? || st.OpPub? || st.OpPi? || st.OpPin? || st.OpPo? || st.OpPon?
    || st.OpS? || st.OpSu? || st.OpSub? || st.OpPlus? || st.OpPlusO? || st.OpU?
    || st.OpUn? || st.OpUns? || st.OpUnsu? || st.OpUnsub?
  }

  predicate LateLetters(st: State) {
    st.OpC? || st.OpCo? || st.OpCon? || st.OpConn? || st.OpConne? || st.OpConnec?
    || st.OpM? || st.OpMs? || st.OpMsg? || st.OpI? || st.OpIn? || st.OpInf?
    || st.OpMinus? || st.OpMinusE? || st.OpMinusEr? || st.OpMinusErr?
  }

  lemma EarlySpell(st: State)
    requires EarlyLetters(st)
    ensures GoesOn(st)
  {
    if st.OpPu? || st.OpPub? {
      SpellsPub();
    } else if st.OpPi? || st.OpPin? {
      SpellsPin();
    } else if st.OpPo? || st.OpPon? {
      SpellsPon();
    } else if st.OpS? || st.OpSu? {
      SpellsSu();
    } else if st.OpSub? {
      SpellsSub();
    } else if st.OpPlus? || st.OpPlusO? {
      SpellsOk();
    } else if st.OpU? || st.OpUn? {
      SpellsUns();
    } else if st.OpUns? || st.OpUnsu? {
      SpellsUnsub1();
    } else if st.OpUnsub? {
      SpellsUnsub2();
    }
  }

  lemma LateSpell(st: State)
    requires LateLetters(st)
    ensures GoesOn(st)
  {
    if st.OpC? || st.OpCo? || st.OpCon? {
      SpellsCon();
    } else if st.OpConn? || st.OpConne? || st.OpConnec? {
      SpellsConnect();
    } else if st.OpM? {
      SpellsM();
    } else if st.OpMs? {
      SpellsMs();
    } else if st.OpMsg? {
      SpellsMsg();
    } else if st.OpI? || st.OpIn? {
      SpellsInfo1();
    } else if st.OpInf? {
      SpellsInfo2();
    } else if st.OpMinus? || st.OpMinusE? || st.OpMinusEr? || st.OpMinusErr? {
      SpellsErr();
    }
  }

  lemma LettersExpect(st: State)
    requires !Expects(st).WantNothing?
    ensures EarlyLetters(st) || LateLetters(st)
  {
  }

  lemma ExpectsSpells(st: State)
    requires !Expects(st).WantNothing?
    ensures GoesOn(st)
  {
    LettersExpect(st);
    if EarlyLetters(st) {
      EarlySpell(st);
    } else {
      LateSpell(st);
    }
  }

  lemma CapitalIs(b: char, upper: char, lower: char)
    requires 'A' <= upper <= 'Z' && lower as int == upper as int + 32 && Is(b, upper, lower)
    ensures Capital(b) == upper
  {
  }

  /** A wanted letter or blank, given what the names say. */
  lemma FollowNames(w: Want, b: char, before: string)
    requires Follow(w, b).Some? && NameOf(w.next) == before + [if w.Want? then w.upper else ' ']
    requires w.Want? ==> 'A' <= w.upper <= 'Z' && w.lower as int == w.upper as int + 32
    ensures NameOf(Follow(w, b).value) == before + [Capital(b)]
  {
    if w.Want? {
      CapitalIs(b, w.upper, w.lower);
    }
  }

  lemma FollowSpells(st: State, b: char)
    requires Follow(Expects(st), b).Some?
    ensures NameOf(Follow(Expects(st), b).value) == NameOf(st) + [Capital(b)]
  {
    ExpectsSpells(st);
    FollowNames(Expects(st), b, NameOf(st));
  }

  lemma FirstSpells(b: char, routed: bool)
    requires FirstLetter(b, routed).Some?
    ensures NameOf(FirstLetter(b, routed).value) == [Capital(b)] && (FirstLetter(b, routed).value == OpM ==> routed)
  {
  }

  lemma PSpells(b: char, routed: bool)
    requires Letter(OpP, b, routed).Some?
    ensures NameOf(Letter(OpP, b, routed).value) == "P" + [Capital(b)]
  {
  }

  /** A letter is only taken if it continues what is spelled. */
  lemma LetterSpells(st: State, b: char, routed: bool)
    requires InWord(st) && Letter(st, b, routed).Some?
    ensures NameOf(Letter(st, b, routed).value) == NameOf(st) + [Capital(b)]
  {
    if st == OpStart {
      FirstSpells(b, routed);
    } else if st == OpP {
      PSpells(b, routed);
    } else {
      FollowSpells(st, b);
    }
  }

  function Capitals(u: string): (r: string)
    ensures |r| == |u|
  {
    if u == "" then "" else Capitals(u[..|u| - 1]) + [Capital(u[|u| - 1])]
  }

  /** The letters of `u` lead from `r` on without a keyword being complete in between. */
  predicate Spelling(r: Ref, u: string, cfg: Config)
    decreases |u|
  {
    var n := |u|;
    if n == 0 then r.Ref? && InWord(r.st)
    else Spelling(r, u[..n - 1], cfg) && Run(r, u, cfg).Ref? && InWord(Run(r, u, cfg).st)
  }

  lemma RunLast(r: Ref, u: string, cfg: Config)
    requires u != ""
    ensures Run(r, u, cfg) == Step(Run(r, u[..|u| - 1], cfg), u[|u| - 1], cfg)
  {
    var n := |u| - 1;
    assert u == u[..n] + [u[n]];
    RunConcat(r, u[..n], [u[n]], cfg);
    RunOne(Run(r, u[..n], cfg), u[n], cfg);
  }

  lemma WordStep(r: Ref, b: char, cfg: Config)
    requires r.Ref? && InWord(r.st)
    ensures Step(r, b, cfg) == match Letter(r.st, b, cfg.routed) case None => Bad case Some(st) => r.(st := st)
  {
    StepIs(r, b, cfg);
  }

  /** Where letters lead from the start of a line spells them. */
  lemma {:induction false} SpelledIs(ops: seq<Op>, u: string, cfg: Config)
    requires Spelling(Done(ops), u, cfg)
    ensures Run(Done(ops), u, cfg).Ref? && NameOf(Run(Done(ops), u, cfg).st) == Capitals(u)
    decreases |u|
  {
    if u != "" {
      var n := |u| - 1;
      SpelledIs(ops, u[..n], cfg);
      var r := Run(Done(ops), u[..n], cfg);
      SpellingWord(Done(ops), u[..n], cfg);
      RunLast(Done(ops), u, cfg);
      WordStep(r, u[n], cfg);
      LetterSpells(r.st, u[n], cfg.routed);
    }
  }

  lemma SpellingWord(r: Ref, u: string, cfg: Config)
    requires Spelling(r, u, cfg)
    ensures Run(r, u, cfg).Ref? && InWord(Run(r, u, cfg).st)
  {
  }

  /** After any frames, letters that no keyword begins with end the connection at the first letter that
      is wrong, wherever the reads end. */
  lemma UnknownWordStops(ws: seq<Written>, u: string, b: char, rest: string, chunks: seq<string>, cfg: Config)
    requires AllWellFormed(ws, cfg) && Spelling(Done(AllOps(ws)), u, cfg)
    requires forall st :: NameOf(st) != Capitals(u) + [Capital(b)]
    requires Flatten(chunks) == EncodeAll(ws) + u + [b] + rest
    ensures ParseAll(New(), chunks, cfg) == Stop
  {
    var ops := AllOps(ws);
    var r := Run(Done(ops), u, cfg);
    RunFrames(ws, [], cfg);
    ConcatNothing(ops);
    SpelledIs(ops, u, cfg);
    SpellingWord(Done(ops), u, cfg);
    RunTwo(Done([]), EncodeAll(ws), u, Done(ops), r, cfg);
    if Letter(r.st, b, cfg.routed).Some? {
      LetterSpells(r.st, b, cfg.routed);
    } else {
      BytesStop(EncodeAll(ws) + u, b, rest, r, chunks, cfg);
    }
  }
}
