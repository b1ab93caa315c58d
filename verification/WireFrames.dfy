/** Well-formed protocol frames, how they may be written, and what the reference machine does with them. */
module WireFrames {
  import opened Common
  import opened WireArgs
  import opened WireRef

  datatype Frame =
    | Pub(subject: string, reply: Option<string>, payload: string)
    | Msg(subject: string, sid: string, reply: Option<string>, payload: string)
    | Sub(subject: string, queue: Option<string>, sid: string)
    | Unsub(sid: string, max: Option<nat>)
    | Connect(text: string)
    | Info(text: string)
    | Err(text: string)
    | Ping
    | Pong
    | Ok

  /** How a frame is written: the case of its keyword, the blanks after it, the line end. */
  datatype Style = Style(keyword: string, gap: string, crlf: bool)

  datatype Written = Written(frame: Frame, style: Style)

  function Keyword(f: Frame): string {
    match f
    case Pub(_, _, _) => "PUB"
    case Msg(_, _, _, _) => "MSG"
    case Sub(_, _, _) => "SUB"
    case Unsub(_, _) => "UNSUB"
    case Connect(_) => "CONNECT"
    case Info(_) => "INFO"
    case Err(_) => "-ERR"
    case Ping => "PING"
    case Pong => "PONG"
    case Ok => "+OK"
  }

  function Optional(o: Option<string>): seq<string> {
    if o.None? then [] else [o.value]
  }

  /** The words of the argument line. */
  function Words(f: Frame): seq<string> {
    match f
    case Pub(subject, reply, payload) => [subject] + Optional(reply) + [Decimal(|payload|)]
    case Msg(subject, sid, reply, payload) => [subject, sid] + Optional(reply) + [Decimal(|payload|)]
    case Sub(subject, queue, sid) => [subject] + Optional(queue) + [sid]
    case Unsub(sid, max) => [sid] + (if max.None? then [] else [Decimal(max.value)])
    case _ => []
  }

  function ArgLine(f: Frame): string {
    match f
    case Connect(text) => text
    case Info(text) => text
    case Err(text) => text
    case _ => Spaced(Words(f))
  }

  function Eol(style: Style): string {
    if style.crlf then [CR, LF] else [LF]
  }

  predicate HasArgs(f: Frame) {
    !f.Ping? && !f.Pong? && !f.Ok?
  }

  predicate HasPayload(f: Frame) {
    f.Pub? || f.Msg?
  }

  function Encode(w: Written): string {
    var line := w.style.keyword + (if HasArgs(w.frame) then w.style.gap + ArgLine(w.frame) else "") + Eol(w.style);
    line + (if HasPayload(w.frame) then w.frame.payload + [CR, LF] else "")
  }

  function EncodeAll(ws: seq<Written>): string {
    if ws == [] then "" else Encode(ws[0]) + EncodeAll(ws[1..])
  }

  /** The operations a frame asks for. */
  function OpsOf(f: Frame): seq<Op> {
    match f
    case Pub(subject, reply, payload) =>
      [DoMsg(Publish(subject, reply, None, Decimal(|payload|), |payload|), payload + [CR, LF])]
    case Msg(subject, sid, reply, payload) =>
      [DoMsg(Publish(subject, reply, Some(sid), Decimal(|payload|), |payload|), payload + [CR, LF])]
    case Sub(_, _, _) => [DoSub(Words(f))]
    case Unsub(_, _) => [DoUnsub(Words(f))]
    case Connect(text) => [DoConnect(text)]
    case Info(text) => [DoInfo(text)]
    case Err(text) => [DoErr(text)]
    case Ping => [DoPing]
    case Pong => [DoPong]
    case Ok => []
  }

  function AllOps(ws: seq<Written>): seq<Op> {
    if ws == [] then [] else OpsOf(ws[0].frame) + AllOps(ws[1..])
  }

  function Lower(c: char): char {
    if 'A' <= c <= 'Z' then (c as int + 32) as char else c
  }

  predicate Spells(s: string, keyword: string) {
    |s| == |keyword| && forall i :: 0 <= i < |s| ==> s[i] == keyword[i] || s[i] == Lower(keyword[i])
  }

  predicate OneLine(s: string) {
    CR !in s && LF !in s
  }

  /** Well formed for this connection. */
  ghost predicate WellFormed(w: Written, cfg: Config) {
    var f, style := w.frame, w.style;
    && Spells(style.keyword, Keyword(f))
    && (forall i :: 0 <= i < |style.gap| ==> Space(style.gap[i]))
    && (style.gap == "" ==> f.Connect? || f.Info? || !HasArgs(f))
    && (HasArgs(f) ==>
          && ArgLine(f) != "" && OneLine(ArgLine(f)) && !Space(ArgLine(f)[0])
          && |ArgLine(f)| <= cfg.maxControlLine)
    && AllWords(Words(f))
    && (f.Pub? ==> !cfg.routed && (cfg.maxPayload == 0 || |f.payload| <= cfg.maxPayload))
    && (f.Msg? ==> cfg.routed)
  }

  // ---------- keyword, blanks, arguments, line end, payload ----------

  /** `s` leads through the letter states of `path`. */
  ghost predicate Leads(path: seq<State>, s: string, routed: bool) {
    |path| == |s| + 1 &&
    forall i :: 0 <= i < |s| ==> Letter(path[i], s[i], routed) == Some(path[i + 1])
  }

  lemma ExpectingNoArg(st: State)
    requires !Expects(st).WantNothing?
    ensures !IsArg(st)
  {
  }

  lemma ExpectingNoPayload(st: State)
    requires !Expects(st).WantNothing?
    ensures !IsPayload(st)
  {
  }

  lemma ExpectingLetter(st: State)
    requires !Expects(st).WantNothing?
    ensures !IsLine(st) && ArgAfter(st).None?
  {
  }

  lemma LetterState(st: State, b: char, routed: bool)
    requires Letter(st, b, routed).Some?
    ensures !IsArg(st) && !IsPayload(st) && !IsLine(st) && ArgAfter(st).None?
  {
    if st != OpStart && st != OpP {
      ExpectingNoArg(st);
      ExpectingNoPayload(st);
      ExpectingLetter(st);
    }
  }

  lemma {:induction false} RunLetters(r: Ref, path: seq<State>, s: string, cfg: Config)
    requires r.Ref? && Leads(path, s, cfg.routed) && path[0] == r.st
    ensures Run(r, s, cfg) == r.(st := path[|s|])
    decreases |s|
  {
    if s != "" {
      assert Letter(path[0], s[0], cfg.routed) == Some(path[0 + 1]);
      LetterState(r.st, s[0], cfg.routed);
      RunLetters(Step(r, s[0], cfg), path[1..], s[1..], cfg);
    }
  }

  /** The state after the keyword. */
  function AfterKeyword(f: Frame): State {
    match f
    case Pub(_, _, _) => OpPub
    case Msg(_, _, _, _) => OpMsg
    case Sub(_, _, _) => OpSub
    case Unsub(_, _) => OpUnsub
    case Connect(_) => OpConnect
    case Info(_) => OpInfo
    case Err(_) => OpMinusErr
    case Ping => OpPing
    case Pong => OpPong
    case Ok => OpPlusOk
  }

  function KeywordPath(f: Frame): seq<State> {
    match f
    case Pub(_, _, _) => [OpStart, OpP, OpPu, OpPub]
    case Msg(_, _, _, _) => [OpStart, OpM, OpMs, OpMsg]
    case Sub(_, _, _) => [OpStart, OpS, OpSu, OpSub]
    case Unsub(_, _) => [OpStart, OpU, OpUn, OpUns, OpUnsu, OpUnsub]
    case Connect(_) => [OpStart, OpC, OpCo, OpCon, OpConn, OpConne, OpConnec, OpConnect]
    case Info(_) => [OpStart, OpI, OpIn, OpInf, OpInfo]
    case Err(_) => [OpStart, OpMinus, OpMinusE, OpMinusEr, OpMinusErr]
    case Ping => [OpStart, OpP, OpPi, OpPin, OpPing]
    case Pong => [OpStart, OpP, OpPo, OpPon, OpPong]
    case Ok => [OpStart, OpPlus, OpPlusO, OpPlusOk]
  }

  lemma LeadsStep(path: seq<State>, s: string, routed: bool, st: State, b: char)
    requires Leads(path, s, routed) && Letter(path[|s|], b, routed) == Some(st)
    ensures Leads(path + [st], s + [b], routed)
  {
  }

  /** A path one letter at a time. */
  lemma LeadsThree(a: State, b: State, c: State, s: string, routed: bool)
    requires |s| == 3 && Letter(OpStart, s[0], routed) == Some(a)
    requires Letter(a, s[1], routed) == Some(b) && Letter(b, s[2], routed) == Some(c)
    ensures Leads([OpStart, a, b, c], s, routed)
  {
  }

  lemma LeadsFour(a: State, b: State, c: State, d: State, s: string, routed: bool)
    requires |s| == 4 && Letter(OpStart, s[0], routed) == Some(a)
    requires Letter(a, s[1], routed) == Some(b) && Letter(b, s[2], routed) == Some(c)
    requires Letter(c, s[3], routed) == Some(d)
    ensures Leads([OpStart, a, b, c, d], s, routed)
  {
  }

  lemma LetterOn(st: State, b: char, routed: bool, upper: char, lower: char, next: State)
    requires Expects(st) == Want(upper, lower, next) && st != OpStart && st != OpP && Is(b, upper, lower)
    ensures Letter(st, b, routed) == Some(next)
  {
  }

  lemma ExpectsUnsub()
    ensures Expects(OpU) == Want('N', 'n', OpUn) && Expects(OpUn) == Want('S', 's', OpUns)
    ensures Expects(OpUns) == Want('U', 'u', OpUnsu) && Expects(OpUnsu) == Want('B', 'b', OpUnsub)
  {
  }

  lemma LeadsUnsub(s: string, routed: bool)
    requires Spells(s, "UNSUB")
    ensures Leads([OpStart, OpU, OpUn, OpUns, OpUnsu, OpUnsub], s, routed)
  {
    ExpectsUnsub();
    LeadsFour(OpU, OpUn, OpUns, OpUnsu, s[..4], routed);
    LeadsStep([OpStart, OpU, OpUn, OpUns, OpUnsu], s[..4], routed, OpUnsub, s[4]);
    TakeSnoc(s, 4);
  }

  lemma ExpectsConn()
    ensures Expects(OpC) == Want('O', 'o', OpCo) && Expects(OpCo) == Want('N', 'n', OpCon)
    ensures Expects(OpCon) == Want('N', 'n', OpConn)
  {
  }

  lemma ExpectsNect()
    ensures Expects(OpConn) == Want('E', 'e', OpConne) && Expects(OpConne) == Want('C', 'c', OpConnec)
    ensures Expects(OpConnec) == Want('T', 't', OpConnect)
  {
  }

  lemma LeadsConn(s: string, routed: bool)
    requires Spells(s, "CONNECT")
    ensures Leads([OpStart, OpC, OpCo, OpCon, OpConn], s[..4], routed)
  {
    ExpectsConn();
    LeadsFour(OpC, OpCo, OpCon, OpConn, s[..4], routed);
  }

  lemma LeadsConnect(s: string, routed: bool)
    requires Spells(s, "CONNECT")
    ensures Leads([OpStart, OpC, OpCo, OpCon, OpConn, OpConne, OpConnec, OpConnect], s, routed)
  {
    ExpectsNect();
    LeadsConn(s, routed);
    var p4 := [OpStart, OpC, OpCo, OpCon, OpConn];
    LetterOn(OpConn, s[4], routed, 'E', 'e', OpConne);
    LetterOn(OpConne, s[5], routed, 'C', 'c', OpConnec);
    LetterOn(OpConnec, s[6], routed, 'T', 't', OpConnect);
    LeadsStep(p4, s[..4], routed, OpConne, s[4]);
    LeadsStep(p4 + [OpConne], s[..4] + [s[4]], routed, OpConnec, s[5]);
    LeadsStep(p4 + [OpConne] + [OpConnec], s[..4] + [s[4]] + [s[5]], routed, OpConnect, s[6]);
    assert s[..4] + [s[4]] + [s[5]] + [s[6]] == s;
  }

  lemma LeadsPub(s: string, routed: bool)
    requires Spells(s, "PUB")
    ensures Leads([OpStart, OpP, OpPu, OpPub], s, routed)
  {
    LeadsThree(OpP, OpPu, OpPub, s, routed);
  }

  lemma ExpectsMsg()
    ensures Expects(OpM) == Want('S', 's', OpMs) && Expects(OpMs) == Want('G', 'g', OpMsg)
  {
  }

  lemma LeadsMsg(s: string, routed: bool)
    requires Spells(s, "MSG") && routed
    ensures Leads([OpStart, OpM, OpMs, OpMsg], s, routed)
  {
    ExpectsMsg();
    LetterOn(OpM, s[1], routed, 'S', 's', OpMs);
    LetterOn(OpMs, s[2], routed, 'G', 'g', OpMsg);
    LeadsThree(OpM, OpMs, OpMsg, s, routed);
  }

  lemma LeadsSub(s: string, routed: bool)
    requires Spells(s, "SUB")
    ensures Leads([OpStart, OpS, OpSu, OpSub], s, routed)
  {
    LeadsThree(OpS, OpSu, OpSub, s, routed);
  }

  lemma LeadsOk(s: string, routed: bool)
    requires Spells(s, "+OK")
    ensures Leads([OpStart, OpPlus, OpPlusO, OpPlusOk], s, routed)
  {
    LeadsThree(OpPlus, OpPlusO, OpPlusOk, s, routed);
  }

  lemma FirstI(b: char, routed: bool)
    requires Is(b, 'I', 'i')
    ensures Letter(OpStart, b, routed) == Some(OpI)
  {
  }

  lemma ExpectsInfo()
    ensures Expects(OpI) == Want('N', 'n', OpIn)
    ensures Expects(OpIn) == Want('F', 'f', OpInf) && Expects(OpInf) == Want('O', 'o', OpInfo)
  {
  }

  lemma LeadsInfo(s: string, routed: bool)
    requires Spells(s, "INFO")
    ensures Leads([OpStart, OpI, OpIn, OpInf, OpInfo], s, routed)
  {
    ExpectsInfo();
    FirstI(s[0], routed);
    LetterOn(OpI, s[1], routed, 'N', 'n', OpIn);
    LetterOn(OpIn, s[2], routed, 'F', 'f', OpInf);
    LetterOn(OpInf, s[3], routed, 'O', 'o', OpInfo);
    LeadsFour(OpI, OpIn, OpInf, OpInfo, s, routed);
  }

  lemma ExpectsErr()
    ensures Expects(OpMinus) == Want('E', 'e', OpMinusE)
    ensures Expects(OpMinusE) == Want('R', 'r', OpMinusEr) && Expects(OpMinusEr) == Want('R', 'r', OpMinusErr)
  {
  }

  lemma LeadsErr(s: string, routed: bool)
    requires Spells(s, "-ERR")
    ensures Leads([OpStart, OpMinus, OpMinusE, OpMinusEr, OpMinusErr], s, routed)
  {
    ExpectsErr();
    LetterOn(OpMinus, s[1], routed, 'E', 'e', OpMinusE);
    LetterOn(OpMinusE, s[2], routed, 'R', 'r', OpMinusEr);
    LetterOn(OpMinusEr, s[3], routed, 'R', 'r', OpMinusErr);
    LeadsFour(OpMinus, OpMinusE, OpMinusEr, OpMinusErr, s, routed);
  }

  lemma AfterP(b: char, c: char, routed: bool)
    requires Is(b, 'P', 'p')
    ensures Letter(OpStart, b, routed) == Some(OpP)
    ensures Is(c, 'I', 'i') ==> Letter(OpP, c, routed) == Some(OpPi)
    ensures Is(c, 'O', 'o') ==> Letter(OpP, c, routed) == Some(OpPo)
  {
  }

  lemma ExpectsPing()
    ensures Expects(OpPi) == Want('N', 'n', OpPin) && Expects(OpPin) == Want('G', 'g', OpPing)
    ensures Expects(OpPo) == Want('N', 'n', OpPon) && Expects(OpPon) == Want('G', 'g', OpPong)
  {
  }

  lemma LeadsPing(s: string, routed: bool)
    requires Spells(s, "PING")
    ensures Leads([OpStart, OpP, OpPi, OpPin, OpPing], s, routed)
  {
    AfterP(s[0], s[1], routed);
    ExpectsPing();
    LetterOn(OpPi, s[2], routed, 'N', 'n', OpPin);
    LetterOn(OpPin, s[3], routed, 'G', 'g', OpPing);
    LeadsFour(OpP, OpPi, OpPin, OpPing, s, routed);
  }

  lemma LeadsPong(s: string, routed: bool)
    requires Spells(s, "PONG")
    ensures Leads([OpStart, OpP, OpPo, OpPon, OpPong], s, routed)
  {
    AfterP(s[0], s[1], routed);
    ExpectsPing();
    LetterOn(OpPo, s[2], routed, 'N', 'n', OpPon);
    LetterOn(OpPon, s[3], routed, 'G', 'g', OpPong);
    LeadsFour(OpP, OpPo, OpPon, OpPong, s, routed);
  }

  lemma KeywordLeads(f: Frame, s: string, routed: bool)
    requires Spells(s, Keyword(f)) && (f.Msg? ==> routed)
    ensures Leads(KeywordPath(f), s, routed)
  {
    match f {
      case Pub(_, _, _) => LeadsPub(s, routed);
      case Msg(_, _, _, _) => LeadsMsg(s, routed);
      case Sub(_, _, _) => LeadsSub(s, routed);
      case Unsub(_, _) => LeadsUnsub(s, routed);
      case Connect(_) => LeadsConnect(s, routed);
      case Info(_) => LeadsInfo(s, routed);
      case Err(_) => LeadsErr(s, routed);
      case Ping => LeadsPing(s, routed);
      case Pong => LeadsPong(s, routed);
      case Ok => LeadsOk(s, routed);
    }
  }

  lemma {:induction false} RunBlanks(r: Ref, s: string, cfg: Config)
    requires r.Ref? && ArgAfter(r.st).Some? && forall i :: 0 <= i < |s| ==> Space(s[i])
    ensures Run(r, s, cfg) == r
    decreases |s|
  {
    if s != "" {
      RunBlanks(r, s[1..], cfg);
    }
  }

  lemma {:induction false} RunArgBytes(r: Ref, s: string, cfg: Config)
    requires r.Ref? && IsArg(r.st) && !r.cr && OneLine(s) && |r.arg| + |s| <= cfg.maxControlLine
    ensures Run(r, s, cfg) == r.(arg := r.arg + s)
    decreases |s|
  {
    if s == "" {
      assert r.arg + s == r.arg;
    } else {
      assert r.arg + s == (r.arg + [s[0]]) + s[1..];
      RunArgBytes(Step(r, s[0], cfg), s[1..], cfg);
    }
  }

  lemma RunOne(r: Ref, b: char, cfg: Config)
    ensures Run(r, [b], cfg) == Step(r, b, cfg)
  {
    assert [b][1..] == "";
  }

  /** The first byte of an argument. */
  lemma FirstArgByte(r: Ref, b: char, cfg: Config)
    requires r.Ref? && ArgAfter(r.st).Some? && !Space(b) && 0 < cfg.maxControlLine
    ensures Step(r, b, cfg) == r.(st := ArgAfter(r.st).value, arg := [b]) && IsArg(ArgAfter(r.st).value)
  {
  }

  lemma RunArg(r: Ref, arg: string, cfg: Config)
    requires r.Ref? && ArgAfter(r.st).Some? && !r.cr
    requires arg != "" && OneLine(arg) && !Space(arg[0]) && |arg| <= cfg.maxControlLine
    ensures Run(r, arg, cfg) == r.(st := ArgAfter(r.st).value, arg := arg) && IsArg(ArgAfter(r.st).value)
  {
    FirstArgByte(r, arg[0], cfg);
    RunArgBytes(Step(r, arg[0], cfg), arg[1..], cfg);
    HeadTail(arg);
  }

  /** A whole argument line after its blanks. */
  lemma RunArgLine(r: Ref, arg: string, style: Style, cfg: Config)
    requires r.Ref? && ArgAfter(r.st).Some? && !r.cr && r.arg == ""
    requires arg != "" && OneLine(arg) && !Space(arg[0]) && |arg| <= cfg.maxControlLine
    ensures Run(r, arg + Eol(style), cfg) == EndOfArg(r.(st := ArgAfter(r.st).value, arg := arg), cfg)
  {
    RunArg(r, arg, cfg);
    RunConcat(r, arg, Eol(style), cfg);
    RunEol(r.(st := ArgAfter(r.st).value, arg := arg), style, cfg);
  }

  lemma RunEol(r: Ref, style: Style, cfg: Config)
    requires r.Ref? && IsArg(r.st) && !r.cr
    ensures Run(r, Eol(style), cfg) == EndOfArg(r.(cr := style.crlf), cfg)
    ensures EndOfArg(r.(cr := style.crlf), cfg) == EndOfArg(r, cfg)
  {
    RunOne(r, LF, cfg);
    if style.crlf {
      RunOne(r, CR, cfg);
      RunOne(r.(cr := true), LF, cfg);
      assert Eol(style) == [CR] + [LF];
      RunConcat(r, [CR], [LF], cfg);
    }
  }

  lemma {:induction false} RunPayloadBytes(r: Ref, s: string, cfg: Config)
    requires r.Ref? && IsPayload(r.st) && |r.payload| + |s| <= r.pub.size
    ensures Run(r, s, cfg) == r.(payload := r.payload + s)
    decreases |s|
  {
    if s == "" {
      assert r.payload + s == r.payload;
    } else {
      assert r.payload + s == (r.payload + [s[0]]) + s[1..];
      RunPayloadBytes(Step(r, s[0], cfg), s[1..], cfg);
    }
  }

  lemma RunPayload(r: Ref, payload: string, cfg: Config)
    requires r.Ref? && IsPayload(r.st) && r.payload == "" && |payload| == r.pub.size
    ensures Run(r, payload + [CR, LF], cfg) == Done(r.ops + [DoMsg(r.pub, payload + [CR, LF])])
  {
    RunPayloadBytes(r, payload, cfg);
    assert r.payload + payload == payload;
    var r1 := r.(payload := payload);
    RunConcat(r, payload, [CR, LF], cfg);
    RunOne(r1, CR, cfg);
    var r2 := r1.(payload := payload + [CR]);
    RunOne(r2, LF, cfg);
    RunConcat(r1, [CR], [LF], cfg);
    assert [CR] + [LF] == [CR, LF];
    assert payload + [CR] + [LF] == payload + [CR, LF];
  }

  // ---------- whole frames ----------

  /** The state that skips blanks before the arguments. */
  function BlankState(f: Frame): State {
    match f
    case Pub(_, _, _) => OpPubSpc
    case Msg(_, _, _, _) => OpMsgSpc
    case Sub(_, _, _) => OpSubSpc
    case Unsub(_, _) => OpUnsubSpc
    case Connect(_) => OpConnect
    case Info(_) => OpInfo
    case Err(_) => OpMinusErrSpc
    case _ => OpStart
  }

  /** After the keyword a blank is expected, unless blanks are skipped already. */
  lemma BlankWanted(f: Frame)
    requires HasArgs(f) && !f.Connect? && !f.Info?
    ensures Expects(AfterKeyword(f)) == WantSpace(BlankState(f)) && ArgAfter(BlankState(f)).Some?
    ensures AfterKeyword(f) != OpStart && AfterKeyword(f) != OpP
  {
  }

  lemma FirstBlank(r: Ref, st: State, b: char, cfg: Config)
    requires r.Ref? && Expects(r.st) == WantSpace(st) && r.st != OpStart && r.st != OpP && Space(b)
    ensures Step(r, b, cfg) == r.(st := st)
  {
    LetterState(r.st, b, cfg.routed);
  }

  lemma RunGap(f: Frame, r: Ref, gap: string, cfg: Config)
    requires r.Ref? && HasArgs(f) && r.st == AfterKeyword(f)
    requires forall i :: 0 <= i < |gap| ==> Space(gap[i])
    requires gap == "" ==> f.Connect? || f.Info?
    ensures Run(r, gap, cfg) == r.(st := BlankState(f))
  {
    if f.Connect? || f.Info? {
      RunBlanks(r, gap, cfg);
    } else {
      BlankWanted(f);
      FirstBlank(r, BlankState(f), gap[0], cfg);
      RunBlanks(r.(st := BlankState(f)), gap[1..], cfg);
    }
  }

  lemma RunTwo(r: Ref, a: string, b: string, r1: Ref, r2: Ref, cfg: Config)
    requires Run(r, a, cfg) == r1 && Run(r1, b, cfg) == r2
    ensures Run(r, a + b, cfg) == r2
  {
    RunConcat(r, a, b, cfg);
  }

  lemma RunKeyword(f: Frame, r: Ref, keyword: string, cfg: Config)
    requires r.Ref? && r.st == OpStart && Spells(keyword, Keyword(f)) && (f.Msg? ==> cfg.routed)
    ensures Run(r, keyword, cfg) == r.(st := AfterKeyword(f))
  {
    KeywordLeads(f, keyword, cfg.routed);
    RunLetters(r, KeywordPath(f), keyword, cfg);
  }

  /** At the blanks before the arguments. */
  function AtBlanks(f: Frame, ops: seq<Op>): Ref {
    Ref(BlankState(f), false, "", NO_PUBLISH, "", ops)
  }

  /** At the end of the argument line. */
  function AtLineEnd(f: Frame, ops: seq<Op>): Ref {
    Ref(ArgState(f), false, ArgLine(f), NO_PUBLISH, "", ops)
  }

  function ArgState(f: Frame): State {
    match f
    case Pub(_, _, _) => PubArg
    case Msg(_, _, _, _) => MsgArg
    case Sub(_, _, _) => SubArg
    case Unsub(_, _) => UnsubArg
    case Connect(_) => ConnectArg
    case Info(_) => InfoArg
    case Err(_) => MinusErrArg
    case _ => OpStart
  }

  lemma RunToBlanks(f: Frame, style: Style, ops: seq<Op>, cfg: Config)
    requires HasArgs(f) && Spells(style.keyword, Keyword(f)) && (f.Msg? ==> cfg.routed)
    requires forall i :: 0 <= i < |style.gap| ==> Space(style.gap[i])
    requires style.gap == "" ==> f.Connect? || f.Info?
    ensures Run(Done(ops), style.keyword + style.gap, cfg) == AtBlanks(f, ops)
  {
    var r := Done(ops);
    var r1 := r.(st := AfterKeyword(f));
    RunKeyword(f, r, style.keyword, cfg);
    RunGap(f, r1, style.gap, cfg);
    RunTwo(r, style.keyword, style.gap, r1, AtBlanks(f, ops), cfg);
  }

  lemma BlanksLead(f: Frame)
    requires HasArgs(f)
    ensures ArgAfter(BlankState(f)) == Some(ArgState(f))
  {
  }

  lemma RunToLineEnd(f: Frame, style: Style, ops: seq<Op>, cfg: Config)
    requires HasArgs(f) && ArgLine(f) != "" && OneLine(ArgLine(f)) && !Space(ArgLine(f)[0])
    requires |ArgLine(f)| <= cfg.maxControlLine
    ensures Run(AtBlanks(f, ops), ArgLine(f) + Eol(style), cfg) == EndOfArg(AtLineEnd(f, ops), cfg)
  {
    BlanksLead(f);
    RunArgLine(AtBlanks(f, ops), ArgLine(f), style, cfg);
  }

  /** A publication from the arguments of its line. */
  lemma FromArgs(st: State, arg: string, args: seq<string>, f: Fields, n: nat, maxPayload: nat)
    requires Args(arg) == args && FieldsOf(st, |args|) == Some(f) && args[f.szb] == Decimal(n)
    requires st == PubArg ==> maxPayload == 0 || n <= maxPayload
    ensures Publication(st, arg, maxPayload)
         == Some(Publish(args[f.subject], Pick(args, f.reply), Pick(args, f.sid), Decimal(n), n))
  {
    SizeOfDecimal(n);
  }

  /** The arguments of a publication come back as they were written. */
  lemma PubBack(f: Frame, maxPayload: nat)
    requires f.Pub? && AllWords(Words(f))
    requires maxPayload == 0 || |f.payload| <= maxPayload
    ensures Publication(PubArg, ArgLine(f), maxPayload)
         == Some(Publish(f.subject, f.reply, None, Decimal(|f.payload|), |f.payload|))
  {
    var ws := Words(f);
    SplitSpaced(ws);
    FromArgs(PubArg, ArgLine(f), ws, PubFields(|ws|).value, |f.payload|, maxPayload);
  }

  lemma MsgBack(f: Frame, maxPayload: nat)
    requires f.Msg? && AllWords(Words(f))
    ensures Publication(MsgArg, ArgLine(f), maxPayload)
         == Some(Publish(f.subject, f.reply, Some(f.sid), Decimal(|f.payload|), |f.payload|))
  {
    var ws := Words(f);
    SplitSpaced(ws);
    FromArgs(MsgArg, ArgLine(f), ws, MsgFields(|ws|).value, |f.payload|, maxPayload);
  }

  lemma SubBack(f: Frame)
    requires f.Sub? && AllWords(Words(f))
    ensures LineOp(SubArg, ArgLine(f)) == Some(DoSub(Words(f)))
  {
    SplitSpaced(Words(f));
  }

  lemma UnsubBack(f: Frame)
    requires f.Unsub? && AllWords(Words(f))
    ensures LineOp(UnsubArg, ArgLine(f)) == Some(DoUnsub(Words(f)))
  {
    SplitSpaced(Words(f));
  }

  /** The state a frame's line leads to: its payload next, or done. */
  function AfterLine(f: Frame, ops: seq<Op>): Ref {
    match f
    case Pub(subject, reply, payload) =>
      Ref(MsgPayload, false, "", Publish(subject, reply, None, Decimal(|payload|), |payload|), "", ops)
    case Msg(subject, sid, reply, payload) =>
      Ref(MsgPayload, false, "", Publish(subject, reply, Some(sid), Decimal(|payload|), |payload|), "", ops)
    case _ => Done(ops + OpsOf(f))
  }

  lemma LineActs(f: Frame, ops: seq<Op>, cfg: Config)
    requires HasArgs(f) && AllWords(Words(f))
    requires f.Pub? ==> !cfg.routed && (cfg.maxPayload == 0 || |f.payload| <= cfg.maxPayload)
    requires f.Msg? ==> cfg.routed
    ensures EndOfArg(AtLineEnd(f, ops), cfg) == AfterLine(f, ops)
  {
    if f.Pub? {
      PubBack(f, cfg.maxPayload);
    } else if f.Msg? {
      MsgBack(f, cfg.maxPayload);
    } else {
      PlainActs(f, ops);
    }
  }

  lemma PlainActs(f: Frame, ops: seq<Op>)
    requires HasArgs(f) && AllWords(Words(f)) && !f.Pub? && !f.Msg?
    ensures LineOp(ArgState(f), ArgLine(f)).Some? && OpsOf(f) == [LineOp(ArgState(f), ArgLine(f)).value]
  {
    if f.Sub? {
      SubBack(f);
    } else if f.Unsub? {
      UnsubBack(f);
    }
  }

  lemma PayloadActs(f: Frame, ops: seq<Op>, cfg: Config)
    requires HasPayload(f)
    ensures Run(AfterLine(f, ops), f.payload + [CR, LF], cfg) == Done(ops + OpsOf(f))
  {
    RunPayload(AfterLine(f, ops), f.payload, cfg);
  }

  /** Behind a keyword without arguments everything up to the line feed is ignored. */
  lemma RunBareEol(f: Frame, style: Style, r: Ref, cfg: Config)
    requires !HasArgs(f) && r.Ref? && r.st == AfterKeyword(f)
    ensures Run(r, Eol(style), cfg) == Done(r.ops + OpsOf(f))
  {
    RunOne(r, LF, cfg);
    if style.crlf {
      RunOne(r, CR, cfg);
      assert Eol(style) == [CR] + [LF];
      RunTwo(r, [CR], [LF], r, Done(r.ops + OpsOf(f)), cfg);
    }
  }

  lemma RunLineWithoutArgs(f: Frame, style: Style, ops: seq<Op>, cfg: Config)
    requires !HasArgs(f) && Spells(style.keyword, Keyword(f))
    ensures Run(Done(ops), style.keyword + Eol(style), cfg) == Done(ops + OpsOf(f))
  {
    var r := Done(ops);
    var r1 := r.(st := AfterKeyword(f));
    RunKeyword(f, r, style.keyword, cfg);
    RunBareEol(f, style, r1, cfg);
    RunTwo(r, style.keyword, Eol(style), r1, Done(ops + OpsOf(f)), cfg);
  }

  /** The control line of a frame with arguments. */
  lemma RunLine(f: Frame, style: Style, ops: seq<Op>, cfg: Config)
    requires HasArgs(f) && WellFormed(Written(f, style), cfg)
    ensures Run(Done(ops), (style.keyword + style.gap) + (ArgLine(f) + Eol(style)), cfg) == AfterLine(f, ops)
  {
    RunToBlanks(f, style, ops, cfg);
    RunToLineEnd(f, style, ops, cfg);
    LineActs(f, ops, cfg);
    RunTwo(Done(ops), style.keyword + style.gap, ArgLine(f) + Eol(style), AtBlanks(f, ops), AfterLine(f, ops), cfg);
  }

  lemma EncodeParts(w: Written)
    ensures var line := (w.style.keyword + w.style.gap) + (ArgLine(w.frame) + Eol(w.style));
      Encode(w) == if !HasArgs(w.frame) then w.style.keyword + Eol(w.style)
                   else if HasPayload(w.frame) then line + (w.frame.payload + [CR, LF])
                   else line
  {
    var kw, gap, arg, eol := w.style.keyword, w.style.gap, ArgLine(w.frame), Eol(w.style);
    assert kw + (gap + arg) + eol == (kw + gap) + (arg + eol);
    assert kw + "" + eol + "" == kw + eol;
    assert ((kw + gap) + (arg + eol)) + "" == (kw + gap) + (arg + eol);
  }

  /** The reference machine does exactly what the frame asks for, and is back at the start. */
  lemma RunFrame(w: Written, ops: seq<Op>, cfg: Config)
    ensures WellFormed(w, cfg) ==> Run(Done(ops), Encode(w), cfg) == Done(ops + OpsOf(w.frame))
  {
    if WellFormed(w, cfg) {
      EncodeParts(w);
      var f, style := w.frame, w.style;
      if HasArgs(f) {
        RunLine(f, style, ops, cfg);
        if HasPayload(f) {
          var line := (style.keyword + style.gap) + (ArgLine(f) + Eol(style));
          PayloadActs(f, ops, cfg);
          RunTwo(Done(ops), line, f.payload + [CR, LF], AfterLine(f, ops), Done(ops + OpsOf(f)), cfg);
        }
      } else {
        RunLineWithoutArgs(f, style, ops, cfg);
      }
    }
  }

  ghost predicate AllWellFormed(ws: seq<Written>, cfg: Config) {
    forall i :: 0 <= i < |ws| ==> WellFormed(ws[i], cfg)
  }

  lemma AllOpsCons(ws: seq<Written>, ops: seq<Op>)
    requires ws != []
    ensures ops + AllOps(ws) == (ops + OpsOf(ws[0].frame)) + AllOps(ws[1..])
  {
  }

  /** Any list of well-formed frames. */
  lemma {:induction false} RunFrames(ws: seq<Written>, ops: seq<Op>, cfg: Config)
    ensures AllWellFormed(ws, cfg) ==> Run(Done(ops), EncodeAll(ws), cfg) == Done(ops + AllOps(ws))
    decreases |ws|
  {
    if ws == [] {
      assert ops + AllOps(ws) == ops;
    } else if AllWellFormed(ws, cfg) {
      var ops1 := ops + OpsOf(ws[0].frame);
      RunFrame(ws[0], ops, cfg);
      RunFrames(ws[1..], ops1, cfg);
      AllOpsCons(ws, ops);
      RunConcat(Done(ops), Encode(ws[0]), EncodeAll(ws[1..]), cfg);
    }
  }
}
