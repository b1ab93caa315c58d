/**
 The wire protocol, one byte at a time. `Ref` is the parser one would write if every read
 returned a single byte: it remembers the arguments and the payload seen so far, and nothing
 about buffers. `Bad` marks streams outside the protocol, of which some are refused
 and some are tolerated.
 */
module WireRef {
  import opened Common
  import opened WireArgs

  const CR := '\r'
  const LF := '\n'

  /** The 53 parser states. */
  datatype State =
    | OpStart
    | OpPlus | OpPlusO | OpPlusOk
    | OpMinus | OpMinusE | OpMinusEr | OpMinusErr | OpMinusErrSpc | MinusErrArg
    | OpC | OpCo | OpCon | OpConn | OpConne | OpConnec | OpConnect | ConnectArg
    | OpP | OpPu | OpPub | OpPubSpc | PubArg
    | OpPi | OpPin | OpPing
    | OpPo | OpPon | OpPong
    | MsgPayload | MsgEnd
    | OpS | OpSu | OpSub | OpSubSpc | SubArg
    | OpU | OpUn | OpUns | OpUnsu | OpUnsub | OpUnsubSpc | UnsubArg
    | OpM | OpMs | OpMsg | OpMsgSpc | MsgArg
    | OpI | OpIn | OpInf | OpInfo | InfoArg

  predicate Is(b: char, upper: char, lower: char) {
    b == upper || b == lower
  }

  predicate Space(b: char) {
    b == ' ' || b == '\t'
  }

  /** What a letter state waits for, and where that leads. */
  datatype Want = Want(upper: char, lower: char, next: State) | WantSpace(next: State) | WantNothing

  /** The states with one way on. */
  function Expects(st: State): Want {
    match st
    case OpPu => Want('B', 'b', OpPub)
    case OpPub => WantSpace(OpPubSpc)
    case OpS => Want('U', 'u', OpSu)
    case OpSu => Want('B', 'b', OpSub)
    case OpSub => WantSpace(OpSubSpc)
    case OpU => Want('N', 'n', OpUn)
    case OpUn => Want('S', 's', OpUns)
    case OpUns => Want('U', 'u', OpUnsu)
    case OpUnsu => Want('B', 'b', OpUnsub)
    case OpUnsub => WantSpace(OpUnsubSpc)
    case OpPi => Want('N', 'n', OpPin)
    case OpPin => Want('G', 'g', OpPing)
    case OpPo => Want('N', 'n', OpPon)
    case OpPon => Want('G', 'g', OpPong)
    case OpC => Want('O', 'o', OpCo)
    case OpCo => Want('N', 'n', OpCon)
    case OpCon => Want('N', 'n', OpConn)
    case OpConn => Want('E', 'e', OpConne)
    case OpConne => Want('C', 'c', OpConnec)
    case OpConnec => Want('T', 't', OpConnect)
    case OpM => Want('S', 's', OpMs)
    case OpMs => Want('G', 'g', OpMsg)
    case OpMsg => WantSpace(OpMsgSpc)
    case OpI => Want('N', 'n', OpIn)
    case OpIn => Want('F', 'f', OpInf)
    case OpInf => Want('O', 'o', OpInfo)
    case OpPlus => Want('O', 'o', OpPlusO)
    case OpPlusO => Want('K', 'k', OpPlusOk)
    case OpMinus => Want('E', 'e', OpMinusE)
    case OpMinusE => Want('R', 'r', OpMinusEr)
    case OpMinusEr => Want('R', 'r', OpMinusErr)
    case OpMinusErr => WantSpace(OpMinusErrSpc)
    case _ => WantNothing
  }

  /** The first letter of a keyword; MSG only from another server. */
  function FirstLetter(b: char, routed: bool): Option<State> {
    if Is(b, 'P', 'p') then Some(OpP) else if Is(b, 'S', 's') then Some(OpS)
    else if Is(b, 'U', 'u') then Some(OpU)
    else if Is(b, 'M', 'm') then (if routed then Some(OpM) else None)
    else if Is(b, 'C', 'c') then Some(OpC) else if Is(b, 'I', 'i') then Some(OpI)
    else if b == '+' then Some(OpPlus) else if b == '-' then Some(OpMinus) else None
  }

  function Follow(want: Want, b: char): Option<State> {
    match want
    case Want(upper, lower, next) => if Is(b, upper, lower) then Some(next) else None
    case WantSpace(next) => if Space(b) then Some(next) else None
    case WantNothing => None
  }

  /** The letter states: where a byte leads, or None for a parse error. `routed` is a
      connection of another type than a client's. */
  function Letter(st: State, b: char, routed: bool): Option<State> {
    if st == OpStart then FirstLetter(b, routed)
    else if st == OpP then
      (if Is(b, 'U', 'u') then Some(OpPu) else if Is(b, 'I', 'i') then Some(OpPi)
       else if Is(b, 'O', 'o') then Some(OpPo) else None)
    else Follow(Expects(st), b)
  }

  /** States that skip blanks before an argument, and the argument state they lead to. */
  function ArgAfter(st: State): Option<State> {
    match st
    case OpPubSpc => Some(PubArg)
    case OpSubSpc => Some(SubArg)
    case OpUnsubSpc => Some(UnsubArg)
    case OpMsgSpc => Some(MsgArg)
    case OpMinusErrSpc => Some(MinusErrArg)
    case OpConnect => Some(ConnectArg)
    case OpInfo => Some(InfoArg)
    case _ => None
  }

  predicate IsArg(st: State) {
    st.PubArg? || st.SubArg? || st.UnsubArg? || st.MsgArg? || st.MinusErrArg? || st.ConnectArg? || st.InfoArg?
  }

  predicate IsLine(st: State) {
    st.OpPing? || st.OpPong? || st.OpPlusOk?
  }

  predicate IsPayload(st: State) {
    st.MsgPayload? || st.MsgEnd?
  }

  /** A letter never leads into an argument or a payload. */
  lemma ExpectsNoArg(st: State)
    requires !Expects(st).WantNothing?
    ensures !IsArg(Expects(st).next)
  {
  }

  lemma ExpectsNoPayload(st: State)
    requires !Expects(st).WantNothing?
    ensures !IsPayload(Expects(st).next)
  {
  }

  // ---------- what the parser hands on ----------

  datatype Publish = Publish(subject: string, reply: Option<string>, sid: Option<string>, szb: string, size: nat)

  datatype Op =
    | DoConnect(arg: string)
    | DoInfo(arg: string)
    | DoErr(arg: string)
    | DoSub(args: seq<string>)
    | DoUnsub(args: seq<string>)
    | DoPing
    | DoPong
    | DoMsg(pub: Publish, msg: string)   // msg includes the trailing CR LF

  /** Which argument is what, in a PUB line or, when `routed`, a MSG line. */
  datatype Fields = Fields(subject: nat, reply: Option<nat>, sid: Option<nat>, szb: nat)

  function PubFields(n: nat): Option<Fields> {
    if n == 2 then Some(Fields(0, None, None, 1))
    else if n == 3 then Some(Fields(0, Some(1), None, 2))
    else None
  }

  function MsgFields(n: nat): Option<Fields> {
    if n == 3 then Some(Fields(0, None, Some(1), 2))
    else if n == 4 then Some(Fields(0, Some(2), Some(1), 3))
    else None
  }

  function FieldsOf(st: State, n: nat): (f: Option<Fields>)
    ensures f.Some? ==> f.value.subject < n && f.value.szb < n
    ensures f.Some? && f.value.reply.Some? ==> f.value.reply.value < n
    ensures f.Some? && f.value.sid.Some? ==> f.value.sid.value < n
  {
    if st == PubArg then PubFields(n) else MsgFields(n)
  }

  function Pick(args: seq<string>, k: Option<nat>): Option<string>
    requires k.Some? ==> k.value < |args|
  {
    if k.None? then None else Some(args[k.value])
  }

  /** processPub and processMsgArgs; None is an error. `maxPayload` is 0 for no limit. */
  function Publication(st: State, arg: string, maxPayload: nat): Option<Publish> {
    var args := Args(arg);
    match FieldsOf(st, |args|)
    case None => None
    case Some(f) =>
      var size := SizeOf(args[f.szb]);
      if size < 0 || (st == PubArg && maxPayload > 0 && size > maxPayload) then None
      else Some(Publish(args[f.subject], Pick(args, f.reply), Pick(args, f.sid), args[f.szb], size))
  }

  /** The operation of a line without payload; None when it is refused. */
  function LineOp(st: State, arg: string): Option<Op> {
    match st
    case ConnectArg => Some(DoConnect(arg))
    case InfoArg => Some(DoInfo(arg))
    case MinusErrArg => Some(DoErr(arg))
    case SubArg => if |Args(arg)| == 2 || |Args(arg)| == 3 then Some(DoSub(Args(arg))) else None
    case UnsubArg => if |Args(arg)| == 1 || |Args(arg)| == 2 then Some(DoUnsub(Args(arg))) else None
    case _ => None
  }

  function LineDone(st: State): seq<Op> {
    if st == OpPing then [DoPing] else if st == OpPong then [DoPong] else []
  }

  // ---------- the reference machine ----------

  datatype Config = Config(routed: bool, maxControlLine: nat, maxPayload: nat)

  /** `st` is MsgPayload during the whole payload, its CR LF included. */
  datatype Ref = Bad | Ref(st: State, cr: bool, arg: string, pub: Publish, payload: string, ops: seq<Op>)

  const NO_PUBLISH := Publish("", None, None, "", 0)

  const START := Ref(OpStart, false, "", NO_PUBLISH, "", [])

  /** Back to the start of a line, with `ops` done. */
  function Done(ops: seq<Op>): (r: Ref)
    ensures r.Ref?
  {
    Ref(OpStart, false, "", NO_PUBLISH, "", ops)
  }

  function EndOfArg(r: Ref, cfg: Config): Ref
    requires r.Ref?
  {
    if r.st == PubArg || r.st == MsgArg then
      if (r.st == PubArg) == cfg.routed then Bad
      else
        match Publication(r.st, r.arg, cfg.maxPayload)
        case None => Bad
        case Some(pub) => Ref(MsgPayload, false, "", pub, "", r.ops)
    else
      match LineOp(r.st, r.arg)
      case None => Bad
      case Some(op) => Done(r.ops + [op])
  }

  function StepArg(r: Ref, b: char, cfg: Config): Ref
    requires r.Ref?
  {
    if b == LF then EndOfArg(r, cfg)
    else if r.cr then Bad
    else if b == CR then r.(cr := true)
    else if |r.arg| >= cfg.maxControlLine then Bad
    else r.(arg := r.arg + [b])
  }

  function StepPayload(r: Ref, b: char): Ref
    requires r.Ref?
  {
    var payload := r.payload + [b];
    if |payload| == r.pub.size + 1 && b == LF then Bad
    else if |payload| < r.pub.size + 2 then r.(payload := payload)
    else if b == LF then Done(r.ops + [DoMsg(r.pub, payload)])
    else Bad
  }

  /** Keyword letters, the blanks behind a keyword, and lines without arguments. */
  function StepWord(r: Ref, b: char, cfg: Config): Ref
    requires r.Ref?
  {
    if IsLine(r.st) then (if b == LF then Done(r.ops + LineDone(r.st)) else r)
    else if ArgAfter(r.st).Some? then
      (if Space(b) then r
       else if cfg.maxControlLine == 0 then Bad
       else r.(st := ArgAfter(r.st).value, arg := [b]))
    else
      match Letter(r.st, b, cfg.routed)
      case None => Bad
      case Some(st) => r.(st := st)
  }

  function Step(r: Ref, b: char, cfg: Config): Ref {
    if r.Bad? then Bad
    else if IsArg(r.st) then StepArg(r, b, cfg)
    else if IsPayload(r.st) then StepPayload(r, b)
    else StepWord(r, b, cfg)
  }

  function Run(r: Ref, s: string, cfg: Config): Ref
    decreases |s|
  {
    if s == "" then r else Run(Step(r, s[0], cfg), s[1..], cfg)
  }

  lemma {:induction false} RunConcat(r: Ref, s: string, t: string, cfg: Config)
    ensures Run(r, s + t, cfg) == Run(Run(r, s, cfg), t, cfg)
    decreases |s|
  {
    if s == "" {
      assert s + t == t;
    } else {
      assert (s + t)[1..] == s[1..] + t;
      RunConcat(Step(r, s[0], cfg), s[1..], t, cfg);
    }
  }

  lemma {:induction false} RunBad(s: string, cfg: Config)
    ensures Run(Bad, s, cfg) == Bad
  {
    if s != "" {
      RunBad(s[1..], cfg);
    }
  }
}
