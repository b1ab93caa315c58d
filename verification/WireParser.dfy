/**
 The parser as it works on read buffers: arguments and payloads are slices of the current
 buffer when they lie in it whole, and are saved in the scratch array or on the heap when a
 read ends in the middle of them. A slice of the read buffer does not survive the read.
 */
module WireParser {
  import opened Common
  import opened WireArgs
  import opened WireRef

  const SCRATCH_SIZE := 1024

  /** A byte slice and where its bytes live. */
  datatype Slice = Nil | Buf(lo: nat, hi: nat) | Scratch(lo: nat, hi: nat) | Heap(bytes: string)

  /** `n` is the length of the read buffer. */
  predicate Within(sl: Slice, n: nat) {
    match sl
    case Nil => true
    case Buf(lo, hi) => lo <= hi <= n
    case Scratch(lo, hi) => lo <= hi <= SCRATCH_SIZE
    case Heap(_) => true
  }

  function Len(sl: Slice): nat
    requires Within(sl, if sl.Buf? then sl.hi else 0)
  {
    match sl
    case Nil => 0
    case Buf(lo, hi) => hi - lo
    case Scratch(lo, hi) => hi - lo
    case Heap(bytes) => |bytes|
  }

  function Deref(sl: Slice, buf: string, scratch: string): (r: string)
    requires Within(sl, |buf|) && |scratch| == SCRATCH_SIZE
    ensures |r| == Len(sl)
  {
    match sl
    case Nil => ""
    case Buf(lo, hi) => buf[lo..hi]
    case Scratch(lo, hi) => scratch[lo..hi]
    case Heap(bytes) => bytes
  }

  /** `sl[lo:hi]` of a slice. */
  function SubSlice(sl: Slice, r: Range): Slice
    requires r.lo <= r.hi && Within(sl, if sl.Buf? then sl.hi else 0) && r.hi <= Len(sl)
  {
    match sl
    case Nil => Nil
    case Buf(lo, _) => Buf(lo + r.lo, lo + r.hi)
    case Scratch(lo, _) => Scratch(lo + r.lo, lo + r.hi)
    case Heap(bytes) => Heap(bytes[r.lo..r.hi])
  }

  /** `bytes` copied into `scratch` from `at` on. */
  function CopyInto(scratch: string, at: nat, bytes: string): (r: string)
    requires at + |bytes| <= |scratch|
    ensures |r| == |scratch|
  {
    seq(|scratch|, k requires 0 <= k < |scratch| => if at <= k < at + |bytes| then bytes[k - at] else scratch[k])
  }

  lemma CopyIntoIs(scratch: string, at: nat, bytes: string)
    requires at + |bytes| <= |scratch|
    ensures var r := CopyInto(scratch, at, bytes);
            && r[..at] == scratch[..at] && r[at..at + |bytes|] == bytes
            && r[at + |bytes|..] == scratch[at + |bytes|..]
  {
  }

  datatype Appended = Appended(scratch: string, slice: Slice)

  /** append: in place while the scratch array has room, on the heap from then on. */
  function Append(scratch: string, sl: Slice, bytes: string): (r: Appended)
    requires |scratch| == SCRATCH_SIZE && Within(sl, 0) && !sl.Buf?
    ensures |r.scratch| == SCRATCH_SIZE && Within(r.slice, 0) && !r.slice.Buf? && !r.slice.Nil?
  {
    match sl
    case Scratch(lo, hi) =>
      if hi + |bytes| <= SCRATCH_SIZE then Appended(CopyInto(scratch, hi, bytes), Scratch(lo, hi + |bytes|))
      else Appended(scratch, Heap(scratch[lo..hi] + bytes))
    case Heap(held) => Appended(scratch, Heap(held + bytes))
    case _ => Appended(scratch, Heap(bytes))
  }

  /** What append means: the bytes are behind the old ones, and nothing before them moves. */
  lemma AppendIs(scratch: string, sl: Slice, bytes: string)
    requires |scratch| == SCRATCH_SIZE && Within(sl, 0) && !sl.Buf?
    ensures var r := Append(scratch, sl, bytes);
            && Deref(r.slice, "", r.scratch) == Deref(sl, "", scratch) + bytes
            && (sl.Scratch? ==> r.scratch[..sl.hi] == scratch[..sl.hi])
            && (!sl.Scratch? ==> r.scratch == scratch)
  {
    if sl.Scratch? && sl.hi + |bytes| <= SCRATCH_SIZE {
      var r := CopyInto(scratch, sl.hi, bytes);
      CopyIntoIs(scratch, sl.hi, bytes);
      assert r[sl.lo..sl.hi + |bytes|] == r[..sl.hi][sl.lo..] + r[sl.hi..sl.hi + |bytes|];
    }
  }

  /** Appending to an empty slice at `at`. */
  lemma AppendAt(scratch: string, at: nat, bytes: string)
    requires |scratch| == SCRATCH_SIZE && at <= SCRATCH_SIZE
    ensures var r := Append(scratch, Scratch(at, at), bytes);
            && Deref(r.slice, "", r.scratch) == bytes && r.scratch[..at] == scratch[..at]
            && (r.slice.Scratch? ==> r.slice.lo == at)
  {
    if at + |bytes| <= SCRATCH_SIZE {
      CopyIntoIs(scratch, at, bytes);
    } else {
      NothingBefore(scratch, at, bytes);
    }
  }

  /** The slices of the publication being parsed; a nil reply or sid is absent. */
  datatype Pa = Pa(subject: Slice, reply: Slice, sid: Slice, szb: Slice, size: nat)

  datatype Parser = Parser(state: State, at: nat, drop: nat, pa: Pa, argBuf: Slice, msgBuf: Slice,
                           scratch: string, ops: seq<Op>)

  /** What one turn of the loop does: go on from an index, or give up with an error. */
  datatype Turn = Go(p: Parser, i: int) | Stop

  /** Back at the start of a line, with nothing saved for its arguments. */
  function AtStart(p: Parser, at: nat, op: Op): Parser {
    p.(argBuf := Nil, drop := 0, at := at, state := OpStart, ops := p.ops + [op])
  }

  /** Just after the line feed of a PUB or MSG line. */
  function AtPayload(p: Parser, pa: Pa, i: nat): Parser {
    p.(pa := pa, drop := 0, at := i + 1, state := MsgPayload)
  }

  /** With `bytes` appended to the saved payload. */
  function WithSaved(p: Parser, bytes: string): (q: Parser)
    requires |p.scratch| == SCRATCH_SIZE && Within(p.msgBuf, 0) && !p.msgBuf.Buf?
    ensures |q.scratch| == SCRATCH_SIZE && Within(q.msgBuf, 0) && !q.msgBuf.Buf? && q.msgBuf != Nil
  {
    var a := Append(p.scratch, p.msgBuf, bytes);
    p.(scratch := a.scratch, msgBuf := a.slice)
  }

  // ---------- finishing an argument line ----------

  function PickSlice(base: Slice, rs: seq<Range>, k: Option<nat>): Slice
    requires Within(base, if base.Buf? then base.hi else 0) && (k.Some? ==> k.value < |rs|)
    requires forall j :: 0 <= j < |rs| ==> rs[j].lo <= rs[j].hi <= Len(base)
  {
    if k.None? then Nil else SubSlice(base, rs[k.value])
  }

  /** The slices of a PUB or MSG line; a PUB line leaves the sid of the last MSG line alone. */
  function ProcessPub(st: State, base: Slice, arg: string, sid: Slice, maxPayload: nat): Option<Pa>
    requires Within(base, if base.Buf? then base.hi else 0) && Len(base) == |arg|
  {
    var rs := Ranges(arg, 0, -1);
    match FieldsOf(st, |rs|)
    case None => None
    case Some(f) =>
      var size := SizeOf(Text(arg, rs[f.szb]));
      if size < 0 || (st == PubArg && maxPayload > 0 && size > maxPayload) then None
      else Some(Pa(SubSlice(base, rs[f.subject]), PickSlice(base, rs, f.reply),
                   if st == PubArg then sid else PickSlice(base, rs, f.sid), SubSlice(base, rs[f.szb]), size))
  }

  /** With the slices made, the index jumps over the payload: to its last byte after a PUB line,
      behind it after a MSG line. */
  function PubTurn(p: Parser, made: Option<Pa>, i: nat): Turn {
    match made
    case None => Stop
    case Some(pa) =>
      Go(AtPayload(p, pa, i),
         if p.state == MsgArg then i + pa.size
         else if p.msgBuf == Nil then i + 1 + pa.size - 2
         else i)
  }

  function OpTurn(p: Parser, op: Option<Op>, i: nat): Turn {
    match op
    case None => Stop
    case Some(op) =>
      Go(AtStart(p, if p.state == ConnectArg then p.at else i + 1, op), i)
  }

  /** Where the arguments of a line are when its line feed is reached. */
  function LineBase(p: Parser, i: nat): Slice
    requires p.argBuf == Nil ==> p.at + p.drop <= i
  {
    if p.argBuf != Nil then p.argBuf else Buf(p.at, i - p.drop)
  }

  function LineEnd(p: Parser, base: Slice, arg: string, i: nat, cfg: Config): Turn
    requires Within(base, if base.Buf? then base.hi else 0) && Len(base) == |arg|
  {
    if p.state == PubArg || p.state == MsgArg then
      PubTurn(p, ProcessPub(p.state, base, arg, p.pa.sid, cfg.maxPayload), i)
    else
      OpTurn(p, LineOp(p.state, arg), i)
  }

  /** Line feed after the arguments. */
  function LineTurn(p: Parser, buf: string, i: nat, cfg: Config): Turn
    requires i < |buf| && |p.scratch| == SCRATCH_SIZE && Within(p.argBuf, 0) && !p.argBuf.Buf?
    requires p.argBuf == Nil ==> p.at + p.drop <= i
  {
    LineEnd(p, LineBase(p, i), Deref(LineBase(p, i), buf, p.scratch), i, cfg)
  }

  function ArgTurn(p: Parser, buf: string, i: nat, cfg: Config): Turn
    requires i < |buf| && |p.scratch| == SCRATCH_SIZE && Within(p.argBuf, 0) && !p.argBuf.Buf?
    requires p.argBuf == Nil ==> p.at + p.drop <= i
  {
    if buf[i] == CR then Go(p.(drop := 1), i)
    else if buf[i] == LF then LineTurn(p, buf, i, cfg)
    else if p.argBuf == Nil then Go(p, i)
    else
      var a := Append(p.scratch, p.argBuf, [buf[i]]);
      Go(p.(scratch := a.scratch, argBuf := a.slice), i)
  }

  // ---------- the payload ----------

  /** Payload bytes go to the saved payload, as many as it needs and the buffer has. */
  function CopyTurn(p: Parser, buf: string, i: nat): Turn
    requires i < |buf| && |p.scratch| == SCRATCH_SIZE && Within(p.msgBuf, 0) && !p.msgBuf.Buf?
  {
    var left := p.pa.size - Len(p.msgBuf);
    var toCopy := if |buf| - i < left then |buf| - i else left;
    var n := if toCopy > 0 then toCopy else 1;
    var q := WithSaved(p, buf[i..i + n]);
    Go(q.(state := if Len(q.msgBuf) >= p.pa.size then MsgEnd else MsgPayload), i + n - 1)
  }

  function PayloadTurn(p: Parser, buf: string, i: nat): Turn
    requires i < |buf| && |p.scratch| == SCRATCH_SIZE && Within(p.msgBuf, 0) && !p.msgBuf.Buf?
  {
    if p.msgBuf != Nil then CopyTurn(p, buf, i)
    else Go(if i - p.at >= p.pa.size then p.(state := MsgEnd) else p, i)
  }

  function Optional(sl: Slice, buf: string, scratch: string): Option<string>
    requires Within(sl, |buf|) && |scratch| == SCRATCH_SIZE
  {
    if sl == Nil then None else Some(Deref(sl, buf, scratch))
  }

  predicate PaWithin(pa: Pa, n: nat) {
    Within(pa.subject, n) && Within(pa.reply, n) && Within(pa.sid, n) && Within(pa.szb, n)
  }

  /** The publication as its slices read now. */
  function Current(pa: Pa, buf: string, scratch: string): Publish
    requires PaWithin(pa, |buf|) && |scratch| == SCRATCH_SIZE
  {
    Publish(Deref(pa.subject, buf, scratch), Optional(pa.reply, buf, scratch), Optional(pa.sid, buf, scratch),
            Deref(pa.szb, buf, scratch), pa.size)
  }

  /** Line feed behind a payload that lies whole in the buffer. */
  function BufEnd(p: Parser, buf: string, i: nat): Turn
    requires i < |buf| && |p.scratch| == SCRATCH_SIZE && PaWithin(p.pa, |buf|) && p.at <= i
  {
    if i + 1 - p.at != p.pa.size + 2 then Stop
    else Go(AtStart(p, i + 1, DoMsg(Current(p.pa, buf, p.scratch), buf[p.at..i + 1])), i)
  }

  /** Line feed behind a saved payload, `p` having it already. */
  function SavedEnd(p: Parser, buf: string, i: nat): Turn
    requires |p.scratch| == SCRATCH_SIZE && Within(p.msgBuf, 0) && !p.msgBuf.Buf? && PaWithin(p.pa, |buf|)
  {
    if Len(p.msgBuf) != p.pa.size + 2 then Stop
    else Go(AtStart(p.(msgBuf := Nil), i + 1, DoMsg(Current(p.pa, buf, p.scratch), Deref(p.msgBuf, "", p.scratch))), i)
  }

  function EndTurn(p: Parser, buf: string, i: nat): Turn
    requires i < |buf| && |p.scratch| == SCRATCH_SIZE && Within(p.msgBuf, 0) && !p.msgBuf.Buf?
    requires PaWithin(p.pa, |buf|) && (p.msgBuf == Nil ==> p.at <= i)
  {
    if p.msgBuf == Nil then
      if buf[i] == LF then BufEnd(p, buf, i) else Go(p, i)
    else
      var q := WithSaved(p, [buf[i]]);
      if buf[i] == LF then SavedEnd(q, buf, i) else Go(q, i)
  }

  // ---------- one turn, the loop, the end of the buffer ----------

  /** Slices and offsets the turn uses are in range; Go would panic otherwise. */
  predicate InBounds(p: Parser, buf: string, i: nat) {
    && |p.scratch| == SCRATCH_SIZE
    && Within(p.argBuf, 0) && !p.argBuf.Buf? && Within(p.msgBuf, 0) && !p.msgBuf.Buf?
    && (IsArg(p.state) && p.argBuf == Nil ==> p.at + p.drop <= i)
    && (p.state == MsgEnd ==> PaWithin(p.pa, |buf|) && (p.msgBuf == Nil ==> p.at <= i))
  }

  /** Letters of a keyword, blanks behind it, and the rest of a line without arguments. */
  function WordTurn(p: Parser, buf: string, i: nat, cfg: Config): Turn
    requires i < |buf|
  {
    var b := buf[i];
    if IsLine(p.state) then
      Go(if b == LF then p.(drop := 0, state := OpStart, ops := p.ops + LineDone(p.state)) else p, i)
    else if ArgAfter(p.state).Some? then
      Go(if Space(b) then p else p.(state := ArgAfter(p.state).value, at := i), i)
    else
      match Letter(p.state, b, cfg.routed)
      case None => Stop
      case Some(st) => Go(p.(state := st), i)
  }

  function TurnOf(p: Parser, buf: string, i: nat, cfg: Config): (t: Turn)
    requires i < |buf|
    ensures t.Go? ==> t.i >= i - 1 && (t.i == i - 1 ==> p.state == PubArg && t.p.state == MsgPayload)
  {
    if !InBounds(p, buf, i) then Stop
    else if IsArg(p.state) then ArgTurn(p, buf, i, cfg)
    else if p.state == MsgPayload then PayloadTurn(p, buf, i)
    else if p.state == MsgEnd then EndTurn(p, buf, i)
    else WordTurn(p, buf, i, cfg)
  }

  function Loop(p: Parser, buf: string, i: nat, cfg: Config): Turn
    decreases |buf| - i, if p.state == PubArg then 1 else 0
  {
    if i >= |buf| then Go(p, i)
    else match TurnOf(p, buf, i, cfg)
      case Stop => Stop
      case Go(q, j) => Loop(q, buf, j + 1, cfg)
  }

  /** The publication's four texts, copied one behind the other to the scratch array. */
  function SaveTexts(pa: Pa, buf: string, scratch: string): (d: Appended)
    requires |scratch| == SCRATCH_SIZE && PaWithin(pa, |buf|)
    ensures |d.scratch| == SCRATCH_SIZE && Within(d.slice, 0) && !d.slice.Buf? && !d.slice.Nil?
    ensures Len(d.slice) == Len(pa.subject) + Len(pa.reply) + Len(pa.sid) + Len(pa.szb)
  {
    var a := Append(scratch, Scratch(0, 0), Deref(pa.subject, buf, scratch));
    var b := Append(a.scratch, a.slice, Deref(pa.reply, buf, a.scratch));
    var c := Append(b.scratch, b.slice, Deref(pa.sid, buf, b.scratch));
    var d := Append(c.scratch, c.slice, Deref(pa.szb, buf, c.scratch));
    d
  }

  /** The publication's slices, pointed at the saved copy. */
  function Repoint(pa: Pa, d: Slice, ls: nat, lr: nat, li: nat): Pa
    requires Within(d, 0) && !d.Buf? && ls + lr + li <= Len(d)
  {
    Pa(SubSlice(d, Range(0, ls)),
       if pa.reply == Nil then Nil else SubSlice(d, Range(ls, ls + lr)),
       if pa.sid == Nil then Nil else SubSlice(d, Range(ls + lr, ls + lr + li)),
       SubSlice(d, Range(ls + lr + li, Len(d))), pa.size)
  }

  /** Save the publication's slices, which still lie in the read buffer. */
  function ClonePubArg(p: Parser, buf: string): (q: Parser)
    requires |p.scratch| == SCRATCH_SIZE && PaWithin(p.pa, |buf|)
    ensures |q.scratch| == SCRATCH_SIZE && Within(q.argBuf, 0) && !q.argBuf.Buf? && q.argBuf != Nil
    ensures q == p.(pa := q.pa, argBuf := q.argBuf, scratch := q.scratch)
  {
    var d := SaveTexts(p.pa, buf, p.scratch);
    p.(scratch := d.scratch, argBuf := d.slice,
       pa := Repoint(p.pa, d.slice, Len(p.pa.subject), Len(p.pa.reply), Len(p.pa.sid)))
  }

  /** The read ends inside an argument line: its beginning moves to the scratch array. */
  function SaveArg(p: Parser, buf: string, cfg: Config): Turn
    requires |p.scratch| == SCRATCH_SIZE && Within(p.argBuf, 0) && !p.argBuf.Buf?
    requires p.argBuf == Nil ==> p.at + p.drop <= |buf|
  {
    var a := if p.argBuf != Nil then Appended(p.scratch, p.argBuf)
             else Append(p.scratch, Scratch(0, 0), buf[p.at..|buf| - p.drop]);
    if Len(a.slice) > cfg.maxControlLine then Stop
    else Go(p.(scratch := a.scratch, argBuf := a.slice), |buf|)
  }

  /** The read ends inside a payload: it goes behind the arguments in the scratch array, or to
      the heap when there is no room. */
  function SaveMsg(p: Parser, buf: string): Turn
    requires |p.scratch| == SCRATCH_SIZE && Within(p.argBuf, 0) && !p.argBuf.Buf? && p.at <= |buf|
  {
    var used := Len(p.argBuf);
    if p.pa.size > SCRATCH_SIZE - used then
      if |buf| - p.at > p.pa.size + 2 then Stop
      else Go(p.(msgBuf := Heap(buf[p.at..])), |buf|)
    else
      var a := Append(p.scratch, Scratch(used, used), buf[p.at..]);
      Go(p.(scratch := a.scratch, msgBuf := a.slice), |buf|)
  }

  function SavePayload(p: Parser, buf: string): Turn
    requires |p.scratch| == SCRATCH_SIZE && Within(p.argBuf, 0) && !p.argBuf.Buf? && p.at <= |buf|
    requires p.argBuf == Nil ==> PaWithin(p.pa, |buf|)
  {
    if p.argBuf == Nil then SaveMsg(ClonePubArg(p, buf), buf) else SaveMsg(p, buf)
  }

  function EndOfBuffer(p: Parser, buf: string, cfg: Config): Turn {
    if !(|p.scratch| == SCRATCH_SIZE && Within(p.argBuf, 0) && !p.argBuf.Buf?) then Stop
    else if IsArg(p.state) then
      if p.argBuf == Nil && p.at + p.drop > |buf| then Stop else SaveArg(p, buf, cfg)
    else if IsPayload(p.state) && p.msgBuf == Nil then
      if p.at > |buf| || (p.argBuf == Nil && !PaWithin(p.pa, |buf|)) then Stop
      else SavePayload(p, buf)
    else Go(p, |buf|)
  }

  /** One call of parse. */
  function Parse(p: Parser, buf: string, cfg: Config): Turn {
    match Loop(p, buf, 0, cfg)
    case Stop => Stop
    case Go(q, _) => EndOfBuffer(q, buf, cfg)
  }

  const NO_PA := Pa(Nil, Nil, Nil, Nil, 0)

  function New(): Parser {
    Parser(OpStart, 0, 0, NO_PA, Nil, Nil, seq(SCRATCH_SIZE, _ => ' '), [])
  }

  /** One call of parse for each read. */
  function ParseAll(p: Parser, chunks: seq<string>, cfg: Config): Turn
    decreases |chunks|
  {
    if chunks == [] then Go(p, 0)
    else match Parse(p, chunks[0], cfg)
      case Stop => Stop
      case Go(q, _) => ParseAll(q, chunks[1..], cfg)
  }
}
