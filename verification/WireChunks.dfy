/**
 The buffer parser refines the byte-at-a-time machine. `Sim` ties a parser in the middle of a
 read buffer to the machine that has consumed the same bytes; every turn keeps it, and so
 does the end of a buffer, after which nothing the parser holds lies in that buffer.
 */
module WireChunks {
  import opened Common
  import opened WireArgs
  import opened WireRef
  import opened WireFrames
  import opened WireParser

  // ---------- where saved bytes may lie ----------

  predicate Saved(sl: Slice) {
    Within(sl, 0) && !sl.Buf? && !sl.Nil?
  }

  /** Saved arguments start at the start of the scratch array, unless they outgrew it. */
  predicate SavedArg(sl: Slice) {
    Saved(sl) && (sl.Scratch? ==> sl.lo == 0)
  }

  /** Not in a read buffer, and in the scratch array only before the end of `arg`. */
  predicate Inside(sl: Slice, arg: Slice) {
    match sl
    case Nil => true
    case Heap(_) => true
    case Scratch(lo, hi) => arg.Scratch? && lo <= hi <= arg.hi <= SCRATCH_SIZE
    case Buf(_, _) => false
  }

  predicate InBuf(sl: Slice, n: nat) {
    sl.Nil? || (sl.Buf? && sl.lo <= sl.hi <= n)
  }

  /** Where one slice of the publication lies: in the read buffer until the arguments are saved. */
  predicate Placed(sl: Slice, argBuf: Slice, n: nat) {
    if argBuf == Nil then InBuf(sl, n) else Inside(sl, argBuf)
  }

  predicate PaPlaced(pa: Pa, argBuf: Slice, n: nat) {
    && Placed(pa.subject, argBuf, n) && Placed(pa.reply, argBuf, n)
    && Placed(pa.sid, argBuf, n) && Placed(pa.szb, argBuf, n)
  }

  // ---------- the simulation ----------

  predicate ArgSim(p: Parser, buf: string, i: nat, r: Ref, cfg: Config)
    requires r.Ref? && |p.scratch| == SCRATCH_SIZE && i <= |buf|
  {
    && p.msgBuf == Nil && p.drop == (if r.cr then 1 else 0) && |r.arg| <= cfg.maxControlLine
    && (p.argBuf == Nil ==> p.at + |r.arg| + p.drop == i && buf[p.at..p.at + |r.arg|] == r.arg)
    && (p.argBuf != Nil ==> SavedArg(p.argBuf) && Deref(p.argBuf, "", p.scratch) == r.arg)
  }

  /** The slices `pa` lie where they may and read as `pub`; kept whole like `Sim` below. */
  predicate PubSim(pa: Pa, argBuf: Slice, buf: string, scratch: string, pub: Publish)
    requires |scratch| == SCRATCH_SIZE
  {
    PubParts(pa, argBuf, buf, scratch, pub) == true
  }

  predicate PubParts(pa: Pa, argBuf: Slice, buf: string, scratch: string, pub: Publish)
    requires |scratch| == SCRATCH_SIZE
  {
    && (argBuf != Nil ==> SavedArg(argBuf))
    && PaPlaced(pa, argBuf, |buf|) && PaWithin(pa, |buf|) && Current(pa, buf, scratch) == pub
  }

  function Min(a: int, b: int): int {
    if a < b then a else b
  }

  function Max(a: int, b: int): int {
    if a < b then b else a
  }

  /** How many bytes of the buffer the machine has seen when the parser stands at `i`. */
  function Consumed(p: Parser, buf: string, i: nat): (c: nat)
    ensures c <= |buf|
  {
    if p.state == MsgPayload && p.msgBuf == Nil then Min(Max(i, p.at), |buf|) else Min(i, |buf|)
  }

  predicate BufMsgSim(state: State, at: nat, size: nat, buf: string, i: nat, payload: string) {
    && at <= |buf|
    && (state == MsgPayload ==> at - 1 <= i <= at + size && payload == buf[at..Min(Max(i, at), |buf|)])
    && (state == MsgEnd ==> i == at + size + 1 <= |buf| && payload == buf[at..i])
  }

  predicate SavedMsgSim(state: State, argBuf: Slice, msgBuf: Slice, scratch: string, size: nat, payload: string)
    requires |scratch| == SCRATCH_SIZE
  {
    && Saved(msgBuf) && argBuf != Nil && payload == Deref(msgBuf, "", scratch)
    && (argBuf.Scratch? && msgBuf.Scratch? ==> argBuf.hi <= msgBuf.lo)
    && (state == MsgPayload ==> |payload| <= size)
    && (state == MsgEnd ==> size <= |payload| <= size + 1)
  }

  predicate PayloadSim(p: Parser, buf: string, i: nat, r: Ref)
    requires r.Ref? && |p.scratch| == SCRATCH_SIZE
  {
    && PubSim(p.pa, p.argBuf, buf, p.scratch, r.pub)
    && (p.msgBuf == Nil ==> BufMsgSim(p.state, p.at, p.pa.size, buf, i, r.payload))
    && (p.msgBuf != Nil ==> i <= |buf| && SavedMsgSim(p.state, p.argBuf, p.msgBuf, p.scratch, p.pa.size, r.payload))
  }

  /** The parser at `i` of the buffer stands for the machine `r`. The comparison keeps the verifier
      from taking the parts apart wherever only the whole is passed on. */
  predicate Sim(p: Parser, buf: string, i: nat, r: Ref, cfg: Config) {
    SimParts(p, buf, i, r, cfg) == true
  }

  predicate SimParts(p: Parser, buf: string, i: nat, r: Ref, cfg: Config) {
    && r.Ref? && |p.scratch| == SCRATCH_SIZE && p.ops == r.ops && (!cfg.routed ==> p.pa.sid == Nil)
    && (if IsPayload(p.state) then r.st == MsgPayload && PayloadSim(p, buf, i, r)
        else
          && p.state == r.st && i <= |buf|
          && (if IsArg(p.state) then ArgSim(p, buf, i, r, cfg)
              else p.argBuf == Nil && p.msgBuf == Nil && p.drop == 0 && !r.cr))
  }

  /** While the parser moves on to `q` at `j`, the machine consumes the bytes between. */
  predicate Consumes(p: Parser, buf: string, i: nat, r: Ref, q: Parser, j: nat, r1: Ref, cfg: Config) {
    var c0, c := Consumed(p, buf, i), Consumed(q, buf, j);
    c0 <= c && Run(r, buf[c0..c], cfg) == r1
  }

  // ---------- letters, blanks and lines without arguments ----------

  lemma FollowStays(want: Want, b: char)
    requires !want.WantNothing? ==> !IsArg(want.next) && !IsPayload(want.next)
    ensures Follow(want, b).Some? ==> !IsArg(Follow(want, b).value) && !IsPayload(Follow(want, b).value)
  {
  }

  lemma LetterStays(st: State, b: char, routed: bool)
    requires Letter(st, b, routed).Some?
    ensures !IsArg(Letter(st, b, routed).value) && !IsPayload(Letter(st, b, routed).value)
  {
    if st != OpStart && st != OpP {
      if !Expects(st).WantNothing? {
        ExpectsNoArg(st);
        ExpectsNoPayload(st);
      }
      FollowStays(Expects(st), b);
    }
  }

  lemma BareLineTurn(p: Parser, buf: string, i: nat, r: Ref, cfg: Config) returns (q: Parser)
    requires Sim(p, buf, i, r, cfg) && i < |buf| && IsLine(p.state)
    ensures WordTurn(p, buf, i, cfg) == Go(q, i) && q.state != MsgPayload
    ensures Sim(q, buf, i + 1, StepWord(r, buf[i], cfg), cfg)
  {
    q := if buf[i] == LF then p.(drop := 0, state := OpStart, ops := p.ops + LineDone(p.state)) else p;
  }

  lemma BlankTurn(p: Parser, buf: string, i: nat, r: Ref, cfg: Config) returns (q: Parser)
    requires Sim(p, buf, i, r, cfg) && i < |buf| && ArgAfter(p.state).Some?
    requires StepWord(r, buf[i], cfg).Ref?
    ensures WordTurn(p, buf, i, cfg) == Go(q, i) && q.state != MsgPayload
    ensures Sim(q, buf, i + 1, StepWord(r, buf[i], cfg), cfg)
  {
    q := if Space(buf[i]) then p else p.(state := ArgAfter(p.state).value, at := i);
    assert [buf[i]] == buf[i..i + 1];
  }

  lemma LetterTurn(p: Parser, buf: string, i: nat, r: Ref, cfg: Config) returns (q: Parser)
    requires Sim(p, buf, i, r, cfg) && i < |buf| && !IsArg(p.state) && !IsPayload(p.state)
    requires !IsLine(p.state) && ArgAfter(p.state).None? && Letter(p.state, buf[i], cfg.routed).Some?
    ensures WordTurn(p, buf, i, cfg) == Go(q, i) && q.state != MsgPayload
    ensures Sim(q, buf, i + 1, StepWord(r, buf[i], cfg), cfg)
  {
    LetterStays(p.state, buf[i], cfg.routed);
    q := p.(state := Letter(p.state, buf[i], cfg.routed).value);
  }

  lemma IdleTurn(p: Parser, buf: string, i: nat, r: Ref, cfg: Config) returns (q: Parser)
    requires Sim(p, buf, i, r, cfg) && i < |buf| && !IsArg(p.state) && !IsPayload(p.state)
    requires StepWord(r, buf[i], cfg).Ref?
    ensures WordTurn(p, buf, i, cfg) == Go(q, i) && q.state != MsgPayload
    ensures Sim(q, buf, i + 1, StepWord(r, buf[i], cfg), cfg)
  {
    if IsLine(p.state) {
      q := BareLineTurn(p, buf, i, r, cfg);
    } else if ArgAfter(p.state).Some? {
      q := BlankTurn(p, buf, i, r, cfg);
    } else {
      q := LetterTurn(p, buf, i, r, cfg);
    }
  }

  // ---------- argument bytes ----------

  lemma ArgByteTurn(p: Parser, buf: string, i: nat, r: Ref, cfg: Config) returns (q: Parser)
    requires Sim(p, buf, i, r, cfg) && i < |buf| && IsArg(p.state) && buf[i] != LF
    requires StepArg(r, buf[i], cfg).Ref?
    ensures InBounds(p, buf, i)
    ensures ArgTurn(p, buf, i, cfg) == Go(q, i) && q.state != MsgPayload
    ensures Sim(q, buf, i + 1, StepArg(r, buf[i], cfg), cfg)
  {
    if buf[i] == CR {
      q := p.(drop := 1);
    } else if p.argBuf == Nil {
      q := BufArgTurn(p, buf, i, r, cfg);
    } else {
      q := SavedArgTurn(p, buf, i, r, cfg);
    }
  }

  lemma ArgGrows(r: Ref, b: char, cfg: Config)
    requires r.Ref? && b != LF && b != CR && StepArg(r, b, cfg).Ref?
    ensures StepArg(r, b, cfg) == r.(arg := r.arg + [b]) && !r.cr && |r.arg| < cfg.maxControlLine
  {
  }

  lemma BufArgTurn(p: Parser, buf: string, i: nat, r: Ref, cfg: Config) returns (q: Parser)
    requires Sim(p, buf, i, r, cfg) && i < |buf| && IsArg(p.state) && buf[i] != LF && buf[i] != CR && p.argBuf == Nil
    requires StepArg(r, buf[i], cfg).Ref?
    ensures InBounds(p, buf, i)
    ensures ArgTurn(p, buf, i, cfg) == Go(q, i) && q.state != MsgPayload
    ensures Sim(q, buf, i + 1, StepArg(r, buf[i], cfg), cfg)
  {
    q := p;
    ArgGrows(r, buf[i], cfg);
    SliceSnoc(buf, p.at, i);
  }

  lemma SavedArgTurn(p: Parser, buf: string, i: nat, r: Ref, cfg: Config) returns (q: Parser)
    requires Sim(p, buf, i, r, cfg) && i < |buf| && IsArg(p.state) && buf[i] != LF && buf[i] != CR && p.argBuf != Nil
    requires StepArg(r, buf[i], cfg).Ref?
    ensures InBounds(p, buf, i)
    ensures ArgTurn(p, buf, i, cfg) == Go(q, i) && q.state != MsgPayload
    ensures Sim(q, buf, i + 1, StepArg(r, buf[i], cfg), cfg)
  {
    ArgGrows(r, buf[i], cfg);
    var a := Append(p.scratch, p.argBuf, [buf[i]]);
    AppendIs(p.scratch, p.argBuf, [buf[i]]);
    q := p.(scratch := a.scratch, argBuf := a.slice);
  }

  // ---------- the end of an argument line ----------

  /** Slicing the saved or buffered line gives the same texts as splitting it. */
  lemma {:induction false} TextsAt(arg: string, rs: seq<Range>)
    requires forall k :: 0 <= k < |rs| ==> rs[k].lo <= rs[k].hi <= |arg|
    ensures |Texts(arg, rs)| == |rs|
    ensures forall k :: 0 <= k < |rs| ==> Texts(arg, rs)[k] == Text(arg, rs[k])
  {
    if rs != [] {
      TextsAt(arg, rs[1..]);
    }
  }

  lemma BufText(lo: nat, hi: nat, buf: string, scratch: string, r: Range)
    requires lo <= hi <= |buf| && |scratch| == SCRATCH_SIZE && r.lo <= r.hi <= hi - lo
    ensures Deref(Buf(lo + r.lo, lo + r.hi), buf, scratch) == Text(buf[lo..hi], r)
  {
    SliceSlice(buf, lo, hi, r.lo, r.hi);
  }

  lemma ScratchText(lo: nat, hi: nat, buf: string, scratch: string, r: Range)
    requires lo <= hi <= SCRATCH_SIZE && |scratch| == SCRATCH_SIZE && r.lo <= r.hi <= hi - lo
    ensures Deref(Scratch(lo + r.lo, lo + r.hi), buf, scratch) == Text(scratch[lo..hi], r)
  {
    SliceSlice(scratch, lo, hi, r.lo, r.hi);
  }

  /** A part of a slice reads as that part of its text. */
  lemma PartReads(base: Slice, buf: string, scratch: string, r: Range)
    requires |scratch| == SCRATCH_SIZE && Within(base, |buf|) && base != Nil && r.lo <= r.hi <= Len(base)
    ensures Within(SubSlice(base, r), |buf|) && SubSlice(base, r) != Nil
    ensures Deref(SubSlice(base, r), buf, scratch) == Text(Deref(base, buf, scratch), r)
  {
    if base.Scratch? {
      ScratchText(base.lo, base.hi, buf, scratch, r);
    } else if base.Buf? {
      BufText(base.lo, base.hi, buf, scratch, r);
    }
  }

  /** And lies where the slice lies. */
  lemma PartPlaced(base: Slice, argBuf: Slice, n: nat, r: Range)
    requires Within(base, n) && base != Nil && r.lo <= r.hi <= Len(base)
    requires if argBuf == Nil then base.Buf? else base == argBuf && SavedArg(argBuf)
    ensures Placed(SubSlice(base, r), argBuf, n)
  {
  }

  lemma SubSliceText(base: Slice, argBuf: Slice, buf: string, scratch: string, arg: string, r: Range)
    requires |scratch| == SCRATCH_SIZE && Within(base, |buf|) && Deref(base, buf, scratch) == arg
    requires r.lo <= r.hi <= |arg| && base != Nil
    requires if argBuf == Nil then base.Buf? else base == argBuf && SavedArg(argBuf)
    ensures Within(base, if base.Buf? then base.hi else 0) && Len(base) == |arg|
    ensures Within(SubSlice(base, r), |buf|) && Placed(SubSlice(base, r), argBuf, |buf|)
    ensures SubSlice(base, r) != Nil && Deref(SubSlice(base, r), buf, scratch) == Text(arg, r)
  {
    PartReads(base, buf, scratch, r);
    PartPlaced(base, argBuf, |buf|, r);
  }

  lemma PickText(base: Slice, argBuf: Slice, buf: string, scratch: string, arg: string, rs: seq<Range>, k: Option<nat>)
    requires |scratch| == SCRATCH_SIZE && Within(base, |buf|) && Deref(base, buf, scratch) == arg && base != Nil
    requires if argBuf == Nil then base.Buf? else base == argBuf && SavedArg(argBuf)
    requires k.Some? ==> k.value < |rs|
    requires forall j :: 0 <= j < |rs| ==> rs[j].lo <= rs[j].hi <= |arg|
    ensures Within(base, if base.Buf? then base.hi else 0) && Len(base) == |arg|
    ensures |Texts(arg, rs)| == |rs| && Within(PickSlice(base, rs, k), |buf|)
    ensures Placed(PickSlice(base, rs, k), argBuf, |buf|)
    ensures WireParser.Optional(PickSlice(base, rs, k), buf, scratch) == Pick(Texts(arg, rs), k)
  {
    TextsAt(arg, rs);
    if k.Some? {
      SubSliceText(base, argBuf, buf, scratch, arg, rs[k.value]);
    }
  }

  /** The slices a line is cut into, by the fields `f`. */
  function Cut(base: Slice, rs: seq<Range>, f: Fields, size: nat): Pa
    requires Within(base, if base.Buf? then base.hi else 0)
    requires f.subject < |rs| && f.szb < |rs| && (f.reply.Some? ==> f.reply.value < |rs|) &&
        (f.sid.Some? ==> f.sid.value < |rs|)
    requires forall j :: 0 <= j < |rs| ==> rs[j].lo <= rs[j].hi <= Len(base)
  {
    Pa(SubSlice(base, rs[f.subject]), PickSlice(base, rs, f.reply), PickSlice(base, rs, f.sid),
       SubSlice(base, rs[f.szb]), size)
  }

  lemma CutTexts(base: Slice, argBuf: Slice, buf: string, scratch: string, arg: string, rs: seq<Range>, f: Fields,
      size: nat)
    requires |scratch| == SCRATCH_SIZE && Within(base, |buf|) && Deref(base, buf, scratch) == arg && base != Nil
    requires if argBuf == Nil then base.Buf? else base == argBuf && SavedArg(argBuf)
    requires f.subject < |rs| && f.szb < |rs| && (f.reply.Some? ==> f.reply.value < |rs|) &&
        (f.sid.Some? ==> f.sid.value < |rs|)
    requires forall j :: 0 <= j < |rs| ==> rs[j].lo <= rs[j].hi <= |arg|
    ensures Within(base, if base.Buf? then base.hi else 0) && Len(base) == |arg| && |Texts(arg, rs)| == |rs|
    ensures var args := Texts(arg, rs);
            PubSim(Cut(base, rs, f, size), argBuf, buf, scratch,
                   Publish(args[f.subject], Pick(args, f.reply), Pick(args, f.sid), args[f.szb], size))
  {
    PickText(base, argBuf, buf, scratch, arg, rs, f.reply);
    PickText(base, argBuf, buf, scratch, arg, rs, f.sid);
    SubSliceText(base, argBuf, buf, scratch, arg, rs[f.subject]);
    SubSliceText(base, argBuf, buf, scratch, arg, rs[f.szb]);
    TextsAt(arg, rs);
  }

  /** A line is accepted with its slices exactly if the publication it spells is. */
  lemma PubAccepted(st: State, base: Slice, arg: string, sid: Slice, m: nat)
    requires Within(base, if base.Buf? then base.hi else 0) && Len(base) == |arg|
    ensures ProcessPub(st, base, arg, sid, m).Some? <==> Publication(st, arg, m).Some?
  {
    TextsAt(arg, Ranges(arg, 0, -1));
  }

  /** What a publication is made of. */
  lemma PublicationIs(st: State, arg: string, m: nat) returns (f: Fields, size: nat)
    requires Publication(st, arg, m).Some?
    ensures FieldsOf(st, |Ranges(arg, 0, -1)|) == Some(f) && |Args(arg)| == |Ranges(arg, 0, -1)|
    ensures size == SizeOf(Text(arg, Ranges(arg, 0, -1)[f.szb])) && !(st == PubArg && m > 0 && size > m)
    ensures var args := Args(arg);
      Publication(st, arg, m)
      == Some(Publish(args[f.subject], Pick(args, f.reply), Pick(args, f.sid), args[f.szb], size))
  {
    var rs := Ranges(arg, 0, -1);
    TextsAt(arg, rs);
    f := FieldsOf(st, |rs|).value;
    size := SizeOf(Text(arg, rs[f.szb]));
  }

  lemma ProcessPubIs(st: State, base: Slice, arg: string, sid: Slice, m: nat, f: Fields, size: nat)
    requires Within(base, if base.Buf? then base.hi else 0) && Len(base) == |arg|
    requires (st == PubArg && sid == Nil) || st == MsgArg
    requires FieldsOf(st, |Ranges(arg, 0, -1)|) == Some(f)
    requires size == SizeOf(Text(arg, Ranges(arg, 0, -1)[f.szb])) && !(st == PubArg && m > 0 && size > m)
    ensures ProcessPub(st, base, arg, sid, m) == Some(Cut(base, Ranges(arg, 0, -1), f, size))
    ensures st == PubArg ==> Cut(base, Ranges(arg, 0, -1), f, size).sid == Nil
  {
  }

  /** The arguments `arg` of a line are at `base`, in the buffer or saved. */
  predicate LineAt(base: Slice, argBuf: Slice, buf: string, scratch: string, arg: string)
    requires |scratch| == SCRATCH_SIZE
  {
    && Within(base, |buf|) && Within(base, if base.Buf? then base.hi else 0) && base != Nil
    && Deref(base, buf, scratch) == arg && Len(base) == |arg|
    && if argBuf == Nil then base.Buf? else base == argBuf && SavedArg(argBuf)
  }

  lemma PubCut(st: State, base: Slice, arg: string, sid: Slice, m: nat) returns (f: Fields, size: nat)
    requires Within(base, if base.Buf? then base.hi else 0) && Len(base) == |arg|
    requires ((st == PubArg && sid == Nil) || st == MsgArg) && Publication(st, arg, m).Some?
    ensures FieldsOf(st, |Ranges(arg, 0, -1)|) == Some(f) && |Args(arg)| == |Ranges(arg, 0, -1)|
    ensures ProcessPub(st, base, arg, sid, m) == Some(Cut(base, Ranges(arg, 0, -1), f, size))
    ensures st == PubArg ==> Cut(base, Ranges(arg, 0, -1), f, size).sid == Nil
    ensures var args := Args(arg);
      Publication(st, arg, m)
      == Some(Publish(args[f.subject], Pick(args, f.reply), Pick(args, f.sid), args[f.szb], size))
  {
    f, size := PublicationIs(st, arg, m);
    ProcessPubIs(st, base, arg, sid, m, f, size);
  }

  /** The slices made from a line read as the publication the line spells. */
  lemma PubSlices(st: State, base: Slice, argBuf: Slice, buf: string, scratch: string, arg: string, sid: Slice, m: nat)
      returns (pa: Pa)
    requires |scratch| == SCRATCH_SIZE && LineAt(base, argBuf, buf, scratch, arg)
    requires ((st == PubArg && sid == Nil) || st == MsgArg) && Publication(st, arg, m).Some?
    ensures ProcessPub(st, base, arg, sid, m) == Some(pa)
    ensures PubSim(pa, argBuf, buf, scratch, Publication(st, arg, m).value)
    ensures pa.size == Publication(st, arg, m).value.size && (st == PubArg ==> pa.sid == Nil)
  {
    var f, size := PubCut(st, base, arg, sid, m);
    pa := Cut(base, Ranges(arg, 0, -1), f, size);
    CutTexts(base, argBuf, buf, scratch, arg, Ranges(arg, 0, -1), f, size);
  }

  lemma BufLineAt(lo: nat, buf: string, scratch: string, arg: string)
    requires |scratch| == SCRATCH_SIZE && lo + |arg| <= |buf| && buf[lo..lo + |arg|] == arg
    ensures LineAt(Buf(lo, lo + |arg|), Nil, buf, scratch, arg)
  {
  }

  lemma SavedLineAt(argBuf: Slice, buf: string, scratch: string, arg: string)
    requires |scratch| == SCRATCH_SIZE && SavedArg(argBuf) && Deref(argBuf, "", scratch) == arg
    ensures LineAt(argBuf, argBuf, buf, scratch, arg)
  {
  }

  lemma ArgParts(p: Parser, buf: string, i: nat, r: Ref, cfg: Config)
    requires Sim(p, buf, i, r, cfg) && i < |buf| && IsArg(p.state)
    ensures r.Ref? && |p.scratch| == SCRATCH_SIZE && InBounds(p, buf, i)
    ensures p.argBuf == Nil ==> p.at + |r.arg| + p.drop == i && buf[p.at..p.at + |r.arg|] == r.arg
    ensures p.argBuf != Nil ==> SavedArg(p.argBuf) && Deref(p.argBuf, "", p.scratch) == r.arg
  {
  }

  lemma LineBaseText(p: Parser, buf: string, i: nat, r: Ref, cfg: Config)
    requires Sim(p, buf, i, r, cfg) && i < |buf| && IsArg(p.state)
    ensures r.Ref? && InBounds(p, buf, i) && LineAt(LineBase(p, i), p.argBuf, buf, p.scratch, r.arg)
  {
    ArgParts(p, buf, i, r, cfg);
    if p.argBuf == Nil {
      BufLineAt(p.at, buf, p.scratch, r.arg);
    } else {
      SavedLineAt(p.argBuf, buf, p.scratch, r.arg);
    }
  }

  lemma StartSim(p: Parser, at: nat, op: Op, buf: string, j: nat, cfg: Config)
    requires |p.scratch| == SCRATCH_SIZE && p.msgBuf == Nil && (!cfg.routed ==> p.pa.sid == Nil) && j <= |buf|
    ensures Sim(AtStart(p, at, op), buf, j, Done(p.ops + [op]), cfg)
  {
  }

  lemma PlainLineIs(p: Parser, base: Slice, arg: string, op: Op, i: nat, cfg: Config)
    requires Within(base, if base.Buf? then base.hi else 0) && Len(base) == |arg|
    requires p.state != PubArg && p.state != MsgArg && LineOp(p.state, arg) == Some(op)
    ensures LineEnd(p, base, arg, i, cfg) == Go(AtStart(p, if p.state == ConnectArg then p.at else i + 1, op), i)
  {
  }

  lemma PlainLineTurn(p: Parser, buf: string, i: nat, r: Ref, cfg: Config) returns (q: Parser)
    requires Sim(p, buf, i, r, cfg) && i < |buf| && IsArg(p.state) && buf[i] == LF
    requires p.state != PubArg && p.state != MsgArg && EndOfArg(r, cfg).Ref?
    ensures InBounds(p, buf, i)
    ensures LineTurn(p, buf, i, cfg) == Go(q, i) && q.state != MsgPayload
    ensures Sim(q, buf, i + 1, EndOfArg(r, cfg), cfg)
  {
    LineBaseText(p, buf, i, r, cfg);
    var op := LineOp(r.st, r.arg).value;
    assert EndOfArg(r, cfg) == Done(r.ops + [op]);
    PlainLineIs(p, LineBase(p, i), r.arg, op, i, cfg);
    var at := if p.state == ConnectArg then p.at else i + 1;
    StartSim(p, at, op, buf, i + 1, cfg);
    q := AtStart(p, at, op);
  }

  function Jump(st: State, i: nat, size: nat): (j: nat)
    ensures i <= j <= i + 1 + size
  {
    if st == MsgArg then i + size + 1 else i + size
  }

  lemma PubTurnIs(p: Parser, pa: Pa, i: nat)
    requires (p.state == PubArg || p.state == MsgArg) && p.msgBuf == Nil
    ensures PubTurn(p, Some(pa), i) == Go(AtPayload(p, pa, i), Jump(p.state, i, pa.size) - 1)
  {
  }

  lemma PubLineIs(p: Parser, base: Slice, arg: string, i: nat, cfg: Config)
    requires Within(base, if base.Buf? then base.hi else 0) && Len(base) == |arg|
    requires p.state == PubArg || p.state == MsgArg
    ensures LineEnd(p, base, arg, i, cfg) == PubTurn(p, ProcessPub(p.state, base, arg, p.pa.sid, cfg.maxPayload), i)
  {
  }

  lemma PubLineDone(r: Ref, cfg: Config) returns (r0: Ref)
    requires r.Ref? && (r.st == PubArg || r.st == MsgArg) && EndOfArg(r, cfg).Ref?
    ensures Step(r, LF, cfg) == r0 && (r.st == MsgArg ==> cfg.routed)
    ensures r0.Ref? && r0.st == MsgPayload && r0.payload == "" && r0.ops == r.ops
    ensures Publication(r.st, r.arg, cfg.maxPayload) == Some(r0.pub)
  {
    r0 := EndOfArg(r, cfg);
  }

  lemma InArgState(p: Parser, buf: string, i: nat, r: Ref, cfg: Config)
    requires Sim(p, buf, i, r, cfg) && IsArg(p.state)
    ensures |p.scratch| == SCRATCH_SIZE && p.msgBuf == Nil && r.Ref? && r.st == p.state && r.ops == p.ops
    ensures !cfg.routed ==> p.pa.sid == Nil
  {
  }

  /** The turn at the end of a line that makes the slices `pa`. */
  lemma PubLineGoes(p: Parser, buf: string, i: nat, base: Slice, arg: string, pa: Pa, cfg: Config)
      returns (q: Parser, j: nat)
    requires i < |buf| && InBounds(p, buf, i) && (p.state == PubArg || p.state == MsgArg) && p.msgBuf == Nil
    requires base == LineBase(p, i) && Deref(base, buf, p.scratch) == arg && Len(base) == |arg|
    requires Within(base, if base.Buf? then base.hi else 0)
    requires ProcessPub(p.state, base, arg, p.pa.sid, cfg.maxPayload) == Some(pa)
    ensures q == AtPayload(p, pa, i) && j == Jump(p.state, i, pa.size) && LineTurn(p, buf, i, cfg) == Go(q, j - 1)
  {
    PubLineIs(p, base, arg, i, cfg);
    PubTurnIs(p, pa, i);
    q, j := AtPayload(p, pa, i), Jump(p.state, i, pa.size);
  }

  lemma LineTurnJumps(p: Parser, buf: string, i: nat, r: Ref, cfg: Config) returns (pa: Pa, q: Parser, j: nat, r0: Ref)
    requires Sim(p, buf, i, r, cfg) && i < |buf| && (p.state == PubArg || p.state == MsgArg) && buf[i] == LF
    requires EndOfArg(r, cfg).Ref?
    ensures Step(r, buf[i], cfg) == r0 && r0.Ref? && r0.st == MsgPayload && r0.payload == "" && r0.ops == p.ops
    ensures |p.scratch| == SCRATCH_SIZE && p.msgBuf == Nil
    ensures PubSim(pa, p.argBuf, buf, p.scratch, r0.pub) && pa.size == r0.pub.size
    ensures (!cfg.routed ==> pa.sid == Nil) && InBounds(p, buf, i)
    ensures q == AtPayload(p, pa, i) && j == Jump(p.state, i, pa.size) && LineTurn(p, buf, i, cfg) == Go(q, j - 1)
  {
    InArgState(p, buf, i, r, cfg);
    LineBaseText(p, buf, i, r, cfg);
    var base := LineBase(p, i);
    r0 := PubLineDone(r, cfg);
    pa := PubSlices(p.state, base, p.argBuf, buf, p.scratch, r.arg, p.pa.sid, cfg.maxPayload);
    q, j := PubLineGoes(p, buf, i, base, r.arg, pa, cfg);
  }

  lemma RunFrom(r: Ref, buf: string, i: nat, c: nat, cfg: Config)
    requires i < c <= |buf|
    ensures Run(r, buf[i..c], cfg) == Run(Step(r, buf[i], cfg), buf[i + 1..c], cfg)
  {
    assert buf[i..c][1..] == buf[i + 1..c];
  }

  lemma JumpSim(p: Parser, pa: Pa, q: Parser, buf: string, i: nat, j: nat, r0: Ref, cfg: Config) returns (r1: Ref)
    requires i < |buf| && |p.scratch| == SCRATCH_SIZE && p.msgBuf == Nil && (!cfg.routed ==> pa.sid == Nil)
    requires r0.Ref? && r0.st == MsgPayload && r0.payload == "" && r0.ops == p.ops
    requires PubSim(pa, p.argBuf, buf, p.scratch, r0.pub)
    requires q == AtPayload(p, pa, i) && j == Jump(p.state, i, pa.size)
    ensures i < Consumed(q, buf, j) <= i + 1 + r0.pub.size
    ensures r1 == r0.(payload := buf[i + 1..Consumed(q, buf, j)]) && Sim(q, buf, j, r1, cfg)
  {
    r1 := r0.(payload := buf[i + 1..Consumed(q, buf, j)]);
  }

  // ---------- payload bytes ----------

  /** The parser has jumped to the byte before the payload: nothing new is consumed. */
  lemma BeforePayload(p: Parser, buf: string, i: nat, r: Ref, cfg: Config)
    requires Sim(p, buf, i, r, cfg) && i < |buf| && p.state == MsgPayload && p.msgBuf == Nil && i < p.at
    ensures InBounds(p, buf, i) && PayloadTurn(p, buf, i) == Go(p, i)
    ensures Consumed(p, buf, i) == Consumed(p, buf, i + 1) && Sim(p, buf, i + 1, r, cfg)
  {
  }

  lemma BufByteSim(p: Parser, buf: string, i: nat, r: Ref, cfg: Config) returns (q: Parser)
    requires Sim(p, buf, i, r, cfg) && i < |buf| && p.state == MsgPayload && p.msgBuf == Nil && p.at <= i
    requires StepPayload(r, buf[i]).Ref?
    ensures InBounds(p, buf, i) && PayloadTurn(p, buf, i) == Go(q, i)
    ensures Consumed(p, buf, i) == i && Consumed(q, buf, i + 1) == i + 1
    ensures Sim(q, buf, i + 1, StepPayload(r, buf[i]), cfg)
  {
    q := if i - p.at >= p.pa.size then p.(state := MsgEnd) else p;
    SliceSnoc(buf, p.at, i);
  }

  lemma BufPayloadTurn(p: Parser, buf: string, i: nat, r: Ref, cfg: Config) returns (q: Parser, r1: Ref)
    requires Sim(p, buf, i, r, cfg) && i < |buf| && p.state == MsgPayload && p.msgBuf == Nil
    requires var c := Consumed(p, buf, i); c < |buf| ==> StepPayload(r, buf[c]).Ref?
    ensures InBounds(p, buf, i) && PayloadTurn(p, buf, i) == Go(q, i)
    ensures Consumes(p, buf, i, r, q, i + 1, r1, cfg) && Sim(q, buf, i + 1, r1, cfg)
  {
    if i < p.at {
      q, r1 := p, r;
      BeforePayload(p, buf, i, r, cfg);
      RunNothing(r, buf, Consumed(p, buf, i), cfg);
    } else {
      q := BufByteSim(p, buf, i, r, cfg);
      r1 := StepPayload(r, buf[i]);
      RunByte(r, buf, i, cfg);
    }
  }

  lemma RunNothing(r: Ref, buf: string, c: nat, cfg: Config)
    requires c <= |buf|
    ensures Run(r, buf[c..c], cfg) == r
  {
  }

  lemma RunByte(r: Ref, buf: string, i: nat, cfg: Config)
    requires i < |buf| && r.Ref? && r.st == MsgPayload
    ensures Run(r, buf[i..i + 1], cfg) == StepPayload(r, buf[i])
  {
    RunOne(r, buf[i], cfg);
    assert buf[i..i + 1] == [buf[i]];
  }

  /** Appending to the saved payload leaves the saved arguments as they are. */
  lemma AppendKeepsArgs(pa: Pa, argBuf: Slice, msgBuf: Slice, buf: string, scratch: string, pub: Publish, bytes: string)
    requires |scratch| == SCRATCH_SIZE && Saved(msgBuf) && argBuf != Nil
    requires argBuf.Scratch? && msgBuf.Scratch? ==> argBuf.hi <= msgBuf.lo
    requires PubSim(pa, argBuf, buf, scratch, pub)
    ensures var a := Append(scratch, msgBuf, bytes);
            && PubSim(pa, argBuf, buf, a.scratch, pub)
            && (argBuf.Scratch? && a.slice.Scratch? ==> argBuf.hi <= a.slice.lo)
  {
    var a := Append(scratch, msgBuf, bytes);
    AppendIs(scratch, msgBuf, bytes);
    if argBuf.Scratch? && msgBuf.Scratch? {
      InsideKept(pa.subject, argBuf, buf, scratch, a.scratch);
      InsideKept(pa.reply, argBuf, buf, scratch, a.scratch);
      InsideKept(pa.sid, argBuf, buf, scratch, a.scratch);
      InsideKept(pa.szb, argBuf, buf, scratch, a.scratch);
    }
  }

  lemma InsideKept(sl: Slice, arg: Slice, buf: string, s: string, t: string)
    requires |s| == |t| == SCRATCH_SIZE && arg.Scratch? && Inside(sl, arg) && arg.hi <= SCRATCH_SIZE
    requires Within(sl, |buf|) && s[..arg.hi] == t[..arg.hi]
    ensures Deref(sl, buf, s) == Deref(sl, buf, t)
  {
    if sl.Scratch? {
      assert s[sl.lo..sl.hi] == s[..arg.hi][sl.lo..sl.hi];
      assert t[sl.lo..sl.hi] == t[..arg.hi][sl.lo..sl.hi];
    }
  }

  /** How many bytes one turn moves into the saved payload. */
  function Copied(have: nat, size: nat, left: nat): (n: nat)
    requires have <= size && left > 0
    ensures 1 <= n <= left
  {
    if size == have then 1 else Min(size - have, left)
  }

  lemma RunCopied(r: Ref, bytes: string, n: nat, cfg: Config)
    requires r.Ref? && r.st == MsgPayload && |r.payload| <= r.pub.size && bytes != ""
    requires n == Copied(|r.payload|, r.pub.size, |bytes|) && StepPayload(r, bytes[0]).Ref?
    ensures Run(r, bytes[..n], cfg) == r.(payload := r.payload + bytes[..n])
  {
    if |r.payload| == r.pub.size {
      RunOne(r, bytes[0], cfg);
      assert bytes[..1] == [bytes[0]];
    } else {
      RunPayloadBytes(r, bytes[..n], cfg);
    }
  }

  lemma CopyTurnIs(p: Parser, buf: string, i: nat, have: nat)
    requires |p.scratch| == SCRATCH_SIZE && Saved(p.msgBuf) && i < |buf|
    requires |Deref(p.msgBuf, "", p.scratch)| == have <= p.pa.size
    ensures var n := Copied(have, p.pa.size, |buf| - i);
            CopyTurn(p, buf, i) == Go(AfterCopy(p, have, buf, i, n), i + n - 1)
  {
    assert Len(p.msgBuf) == have;
  }

  /** The parser after `n` more bytes of the buffer have joined the saved payload. */
  function AfterCopy(p: Parser, have: nat, buf: string, i: nat, n: nat): Parser
    requires |p.scratch| == SCRATCH_SIZE && Saved(p.msgBuf) && i + n <= |buf|
  {
    WithSaved(p, buf[i..i + n]).(state := if have + n >= p.pa.size then MsgEnd else MsgPayload)
  }

  lemma AfterCopySim(p: Parser, buf: string, i: nat, n: nat, r: Ref, cfg: Config)
    requires Sim(p, buf, i, r, cfg) && p.state == MsgPayload && p.msgBuf != Nil
    requires i + n <= |buf| && |r.payload| + n <= p.pa.size + 1
    ensures Sim(AfterCopy(p, |r.payload|, buf, i, n), buf, i + n, r.(payload := r.payload + buf[i..i + n]), cfg)
  {
    AppendIs(p.scratch, p.msgBuf, buf[i..i + n]);
    AppendKeepsArgs(p.pa, p.argBuf, p.msgBuf, buf, p.scratch, r.pub, buf[i..i + n]);
  }

  lemma RunCopiedFrom(r: Ref, buf: string, i: nat, n: nat, cfg: Config)
    requires r.Ref? && r.st == MsgPayload && |r.payload| <= r.pub.size && i < |buf|
    requires StepPayload(r, buf[i]).Ref? && n == Copied(|r.payload|, r.pub.size, |buf| - i)
    ensures Run(r, buf[i..i + n], cfg) == r.(payload := r.payload + buf[i..i + n])
  {
    RunCopied(r, buf[i..], n, cfg);
    assert buf[i..][..n] == buf[i..i + n];
  }

  lemma CopySim(p: Parser, buf: string, i: nat, r: Ref, cfg: Config) returns (q: Parser, n: nat, r1: Ref)
    requires Sim(p, buf, i, r, cfg) && i < |buf| && p.state == MsgPayload && p.msgBuf != Nil
    ensures InBounds(p, buf, i) && CopyTurn(p, buf, i) == Go(q, i + n - 1) && q.msgBuf != Nil
    ensures r.Ref? && |r.payload| <= r.pub.size && n == Copied(|r.payload|, r.pub.size, |buf| - i)
    ensures r1 == r.(payload := r.payload + buf[i..i + n]) && Sim(q, buf, i + n, r1, cfg)
  {
    n := Copied(|r.payload|, p.pa.size, |buf| - i);
    CopyTurnIs(p, buf, i, |r.payload|);
    AfterCopySim(p, buf, i, n, r, cfg);
    q, r1 := AfterCopy(p, |r.payload|, buf, i, n), r.(payload := r.payload + buf[i..i + n]);
  }

  lemma SavedPayloadTurn(p: Parser, buf: string, i: nat, r: Ref, cfg: Config) returns (q: Parser, j: nat, r1: Ref)
    requires Sim(p, buf, i, r, cfg) && i < |buf| && p.state == MsgPayload && p.msgBuf != Nil
    requires StepPayload(r, buf[i]).Ref?
    ensures InBounds(p, buf, i) && CopyTurn(p, buf, i) == Go(q, j - 1)
    ensures Consumes(p, buf, i, r, q, j, r1, cfg) && Sim(q, buf, j, r1, cfg)
  {
    var n;
    q, n, r1 := CopySim(p, buf, i, r, cfg);
    j := i + n;
    RunCopiedFrom(r, buf, i, n, cfg);
    SavedConsumed(p, buf, i);
    SavedConsumed(q, buf, j);
  }

  lemma SavedConsumed(p: Parser, buf: string, i: nat)
    requires p.msgBuf != Nil && i <= |buf|
    ensures Consumed(p, buf, i) == i
  {
  }

  // ---------- the bytes behind the payload ----------

  lemma BufEndTurn(p: Parser, buf: string, i: nat, r: Ref, cfg: Config) returns (q: Parser)
    requires Sim(p, buf, i, r, cfg) && i < |buf| && p.state == MsgEnd && p.msgBuf == Nil
    requires StepPayload(r, buf[i]).Ref?
    ensures InBounds(p, buf, i) && buf[i] == LF
    ensures BufEnd(p, buf, i) == Go(q, i) && q.state != MsgPayload
    ensures Sim(q, buf, i + 1, StepPayload(r, buf[i]), cfg)
  {
    BufPayloadWhole(p, buf, i, r, cfg);
    q := BufEndGoes(p, buf, i, r, cfg);
  }

  lemma BufEndGoes(p: Parser, buf: string, i: nat, r: Ref, cfg: Config) returns (q: Parser)
    requires i < |buf| && |p.scratch| == SCRATCH_SIZE && p.msgBuf == Nil && (!cfg.routed ==> p.pa.sid == Nil)
    requires r.Ref? && r.st == MsgPayload && p.ops == r.ops && |r.payload| + 1 == r.pub.size + 2
    requires PaWithin(p.pa, |buf|) && p.at <= i && i + 1 - p.at == p.pa.size + 2
    requires Current(p.pa, buf, p.scratch) == r.pub && r.payload + [buf[i]] == buf[p.at..i + 1]
    requires StepPayload(r, buf[i]).Ref?
    ensures buf[i] == LF && BufEnd(p, buf, i) == Go(q, i) && q.state != MsgPayload
    ensures Sim(q, buf, i + 1, StepPayload(r, buf[i]), cfg)
  {
    var op := DoMsg(r.pub, r.payload + [buf[i]]);
    LastByte(r, buf[i]);
    BufEndIs(p, buf, i, op);
    StartSim(p, i + 1, op, buf, i + 1, cfg);
    q := AtStart(p, i + 1, op);
  }

  lemma BufPayloadWhole(p: Parser, buf: string, i: nat, r: Ref, cfg: Config)
    requires Sim(p, buf, i, r, cfg) && i < |buf| && p.state == MsgEnd && p.msgBuf == Nil
    ensures InBounds(p, buf, i) && |p.scratch| == SCRATCH_SIZE && (!cfg.routed ==> p.pa.sid == Nil)
    ensures r.Ref? && r.st == MsgPayload && p.ops == r.ops && |r.payload| + 1 == r.pub.size + 2
    ensures PaWithin(p.pa, |buf|) && p.at <= i && i + 1 - p.at == p.pa.size + 2
    ensures Current(p.pa, buf, p.scratch) == r.pub && r.payload + [buf[i]] == buf[p.at..i + 1]
  {
    SliceSnoc(buf, p.at, i);
  }

  lemma LastByte(r: Ref, b: char)
    requires r.Ref? && r.st == MsgPayload && |r.payload| + 1 == r.pub.size + 2 && StepPayload(r, b).Ref?
    ensures b == LF && StepPayload(r, b) == Done(r.ops + [DoMsg(r.pub, r.payload + [b])])
  {
  }

  lemma BufEndIs(p: Parser, buf: string, i: nat, op: Op)
    requires i < |buf| && |p.scratch| == SCRATCH_SIZE && PaWithin(p.pa, |buf|) && p.at <= i && p.msgBuf == Nil
    requires i + 1 - p.at == p.pa.size + 2 && op == DoMsg(Current(p.pa, buf, p.scratch), buf[p.at..i + 1])
    ensures BufEnd(p, buf, i) == Go(AtStart(p, i + 1, op), i)
  {
  }

  lemma SavedByteTurn(p: Parser, buf: string, i: nat, r: Ref, cfg: Config)
    requires Sim(p, buf, i, r, cfg) && i < |buf| && p.state == MsgEnd && p.msgBuf != Nil
    requires buf[i] != LF && StepPayload(r, buf[i]).Ref?
    ensures Sim(WithSaved(p, [buf[i]]), buf, i + 1, StepPayload(r, buf[i]), cfg)
  {
    AppendIs(p.scratch, p.msgBuf, [buf[i]]);
    AppendKeepsArgs(p.pa, p.argBuf, p.msgBuf, buf, p.scratch, r.pub, [buf[i]]);
  }

  /** The operation is performed with the saved arguments and the saved payload. */
  lemma SavedMsgDone(p: Parser, buf: string, i: nat, r: Ref, cfg: Config) returns (q: Parser)
    requires Sim(p, buf, i, r, cfg) && i < |buf| && p.state == MsgEnd && p.msgBuf != Nil
    requires buf[i] == LF && StepPayload(r, buf[i]).Ref?
    ensures PaWithin(p.pa, |buf|)
    ensures SavedEnd(WithSaved(p, [buf[i]]), buf, i) == Go(q, i) && q.state != MsgPayload
    ensures Sim(q, buf, i + 1, StepPayload(r, buf[i]), cfg)
  {
    AppendIs(p.scratch, p.msgBuf, [buf[i]]);
    AppendKeepsArgs(p.pa, p.argBuf, p.msgBuf, buf, p.scratch, r.pub, [buf[i]]);
    var w := WithSaved(p, [buf[i]]);
    assert Len(w.msgBuf) == |Deref(w.msgBuf, "", w.scratch)|;
    var op := DoMsg(r.pub, r.payload + [buf[i]]);
    SavedLast(r, p.pa.size, buf[i]);
    SavedEndIs(w, buf, i, op);
    StartSim(w.(msgBuf := Nil), i + 1, op, buf, i + 1, cfg);
    q := AtStart(w.(msgBuf := Nil), i + 1, op);
  }

  lemma SavedLast(r: Ref, size: nat, b: char)
    requires r.Ref? && r.st == MsgPayload && r.pub.size == size <= |r.payload| <= size + 1 && b == LF
    requires StepPayload(r, b).Ref?
    ensures |r.payload| == size + 1 && StepPayload(r, b) == Done(r.ops + [DoMsg(r.pub, r.payload + [b])])
  {
  }

  lemma SavedEndIs(w: Parser, buf: string, i: nat, op: Op)
    requires |w.scratch| == SCRATCH_SIZE && Saved(w.msgBuf) && PaWithin(w.pa, |buf|) && Len(w.msgBuf) == w.pa.size + 2
    requires op == DoMsg(Current(w.pa, buf, w.scratch), Deref(w.msgBuf, "", w.scratch))
    ensures SavedEnd(w, buf, i) == Go(AtStart(w.(msgBuf := Nil), i + 1, op), i)
  {
  }

  // ---------- every turn, the whole loop ----------

  lemma FirstStep(r: Ref, s: string, cfg: Config)
    requires s != "" && Run(r, s, cfg).Ref?
    ensures Step(r, s[0], cfg).Ref?
  {
    if Step(r, s[0], cfg).Bad? {
      RunBad(s[1..], cfg);
    }
  }

  /** What the machine does with a byte, by the kind of state it is in. */
  lemma StepIs(r: Ref, b: char, cfg: Config)
    requires r.Ref?
    ensures IsArg(r.st) ==> Step(r, b, cfg) == StepArg(r, b, cfg)
    ensures IsPayload(r.st) ==> Step(r, b, cfg) == StepPayload(r, b)
    ensures !IsArg(r.st) && !IsPayload(r.st) ==> Step(r, b, cfg) == StepWord(r, b, cfg)
  {
  }

  lemma OneByte(p: Parser, buf: string, i: nat, r: Ref, q: Parser, r1: Ref, cfg: Config)
    requires i < |buf| && p.state != MsgPayload && q.state != MsgPayload && Step(r, buf[i], cfg) == r1
    ensures Consumes(p, buf, i, r, q, i + 1, r1, cfg)
  {
    RunOne(r, buf[i], cfg);
    assert buf[i..i + 1] == [buf[i]];
  }

  /** The jump over the payload: the machine catches up with the bytes skipped. */
  lemma JumpRun(r: Ref, r0: Ref, buf: string, i: nat, c: nat, cfg: Config)
    requires i < c <= |buf| && Step(r, buf[i], cfg) == r0
    requires r0.Ref? && r0.st == MsgPayload && r0.payload == "" && c - (i + 1) <= r0.pub.size
    ensures Run(r, buf[i..c], cfg) == r0.(payload := buf[i + 1..c])
  {
    RunFrom(r, buf, i, c, cfg);
    RunPayloadBytes(r0, buf[i + 1..c], cfg);
    ConcatNothing(buf[i + 1..c]);
  }

  lemma ArgConsumed(p: Parser, buf: string, i: nat)
    requires IsArg(p.state) && i < |buf|
    ensures Consumed(p, buf, i) == i
  {
  }

  lemma PubLineTurn(p: Parser, buf: string, i: nat, r: Ref, cfg: Config) returns (q: Parser, j: nat, r1: Ref)
    requires Sim(p, buf, i, r, cfg) && i < |buf| && (p.state == PubArg || p.state == MsgArg) && buf[i] == LF
    requires EndOfArg(r, cfg).Ref?
    ensures InBounds(p, buf, i) && LineTurn(p, buf, i, cfg) == Go(q, j - 1)
    ensures Consumes(p, buf, i, r, q, j, r1, cfg) && Sim(q, buf, j, r1, cfg)
  {
    var pa, r0;
    pa, q, j, r0 := LineTurnJumps(p, buf, i, r, cfg);
    r1 := JumpSim(p, pa, q, buf, i, j, r0, cfg);
    JumpRun(r, r0, buf, i, Consumed(q, buf, j), cfg);
    ArgConsumed(p, buf, i);
  }

  lemma EndTurnIs(p: Parser, buf: string, i: nat)
    requires i < |buf| && InBounds(p, buf, i) && p.state == MsgEnd
    ensures p.msgBuf == Nil && buf[i] == LF ==> EndTurn(p, buf, i) == BufEnd(p, buf, i)
    ensures p.msgBuf != Nil && buf[i] == LF ==> EndTurn(p, buf, i) == SavedEnd(WithSaved(p, [buf[i]]), buf, i)
    ensures p.msgBuf != Nil && buf[i] != LF ==> EndTurn(p, buf, i) == Go(WithSaved(p, [buf[i]]), i)
  {
  }

  lemma TurnOfIs(p: Parser, buf: string, i: nat, cfg: Config)
    requires i < |buf| && InBounds(p, buf, i)
    ensures IsArg(p.state) ==> TurnOf(p, buf, i, cfg) == ArgTurn(p, buf, i, cfg)
    ensures p.state == MsgPayload ==> TurnOf(p, buf, i, cfg) == PayloadTurn(p, buf, i)
    ensures p.state == MsgEnd ==> TurnOf(p, buf, i, cfg) == EndTurn(p, buf, i)
    ensures !IsArg(p.state) && !IsPayload(p.state) ==> TurnOf(p, buf, i, cfg) == WordTurn(p, buf, i, cfg)
  {
  }

  lemma EndCase(p: Parser, buf: string, i: nat, r: Ref, cfg: Config) returns (q: Parser)
    requires i < |buf| && p.state == MsgEnd && Sim(p, buf, i, r, cfg) && StepPayload(r, buf[i]).Ref?
    ensures InBounds(p, buf, i) && EndTurn(p, buf, i) == Go(q, i) && q.state != MsgPayload
    ensures Sim(q, buf, i + 1, StepPayload(r, buf[i]), cfg)
  {
    if p.msgBuf == Nil {
      q := BufEndTurn(p, buf, i, r, cfg);
    } else if buf[i] == LF {
      q := SavedMsgDone(p, buf, i, r, cfg);
    } else {
      SavedByteTurn(p, buf, i, r, cfg);
      q := WithSaved(p, [buf[i]]);
    }
    EndTurnIs(p, buf, i);
  }

  lemma ArgCase(p: Parser, buf: string, i: nat, r: Ref, cfg: Config) returns (q: Parser)
    requires i < |buf| && IsArg(p.state) && Sim(p, buf, i, r, cfg) && StepArg(r, buf[i], cfg).Ref?
    requires buf[i] == LF ==> p.state != PubArg && p.state != MsgArg
    ensures InBounds(p, buf, i) && ArgTurn(p, buf, i, cfg) == Go(q, i) && q.state != MsgPayload
    ensures Sim(q, buf, i + 1, StepArg(r, buf[i], cfg), cfg)
  {
    if buf[i] == LF {
      q := PlainLineTurn(p, buf, i, r, cfg);
    } else {
      q := ArgByteTurn(p, buf, i, r, cfg);
    }
  }

  /** A turn that takes one byte. */
  lemma ByteTurn(p: Parser, buf: string, i: nat, r: Ref, cfg: Config) returns (q: Parser, r1: Ref)
    requires i < |buf| && Sim(p, buf, i, r, cfg) && Step(r, buf[i], cfg).Ref? && p.state != MsgPayload
    requires buf[i] == LF ==> p.state != PubArg && p.state != MsgArg
    ensures TurnOf(p, buf, i, cfg) == Go(q, i) && q.state != MsgPayload
    ensures r1 == Step(r, buf[i], cfg) && Sim(q, buf, i + 1, r1, cfg)
  {
    StepIs(r, buf[i], cfg);
    r1 := Step(r, buf[i], cfg);
    if p.state == MsgEnd {
      q := EndCase(p, buf, i, r, cfg);
    } else if IsArg(p.state) {
      q := ArgCase(p, buf, i, r, cfg);
    } else {
      q := IdleTurn(p, buf, i, r, cfg);
    }
    TurnOfIs(p, buf, i, cfg);
  }

  /** The machine takes the next byte of the buffer, if there is one. */
  predicate Goes(r: Ref, buf: string, c: nat, cfg: Config) {
    c < |buf| ==> Step(r, buf[c], cfg).Ref?
  }

  lemma PayloadCase(p: Parser, buf: string, i: nat, r: Ref, cfg: Config) returns (q: Parser, j: nat, r1: Ref)
    requires i < |buf| && p.state == MsgPayload && Sim(p, buf, i, r, cfg) && Goes(r, buf, Consumed(p, buf, i), cfg)
    ensures TurnOf(p, buf, i, cfg) == Go(q, j - 1)
    ensures Consumes(p, buf, i, r, q, j, r1, cfg) && Sim(q, buf, j, r1, cfg)
  {
    var c := Consumed(p, buf, i);
    if c < |buf| {
      StepIs(r, buf[c], cfg);
    }
    if p.msgBuf == Nil {
      q, r1 := BufPayloadTurn(p, buf, i, r, cfg);
      j := i + 1;
    } else {
      q, j, r1 := SavedPayloadTurn(p, buf, i, r, cfg);
    }
    TurnOfIs(p, buf, i, cfg);
  }

  lemma PubLineCase(p: Parser, buf: string, i: nat, r: Ref, cfg: Config) returns (q: Parser, j: nat, r1: Ref)
    requires i < |buf| && Sim(p, buf, i, r, cfg) && Step(r, buf[i], cfg).Ref?
    requires buf[i] == LF && (p.state == PubArg || p.state == MsgArg)
    ensures TurnOf(p, buf, i, cfg) == Go(q, j - 1)
    ensures Consumes(p, buf, i, r, q, j, r1, cfg) && Sim(q, buf, j, r1, cfg)
  {
    InArgState(p, buf, i, r, cfg);
    StepIs(r, buf[i], cfg);
    q, j, r1 := PubLineTurn(p, buf, i, r, cfg);
    TurnOfIs(p, buf, i, cfg);
  }

  lemma ByteCase(p: Parser, buf: string, i: nat, r: Ref, cfg: Config) returns (q: Parser, r1: Ref)
    requires i < |buf| && Sim(p, buf, i, r, cfg) && Step(r, buf[i], cfg).Ref? && p.state != MsgPayload
    requires buf[i] == LF ==> p.state != PubArg && p.state != MsgArg
    ensures TurnOf(p, buf, i, cfg) == Go(q, i)
    ensures Consumes(p, buf, i, r, q, i + 1, r1, cfg) && Sim(q, buf, i + 1, r1, cfg)
  {
    q, r1 := ByteTurn(p, buf, i, r, cfg);
    OneByte(p, buf, i, r, q, r1, cfg);
  }

  /** Every turn keeps in step with the machine. */
  lemma AnyTurn(p: Parser, buf: string, i: nat, r: Ref, cfg: Config) returns (q: Parser, j: nat, r1: Ref)
    requires i < |buf| && Sim(p, buf, i, r, cfg) && Goes(r, buf, Consumed(p, buf, i), cfg)
    ensures TurnOf(p, buf, i, cfg) == Go(q, j - 1)
    ensures Consumes(p, buf, i, r, q, j, r1, cfg) && Sim(q, buf, j, r1, cfg)
  {
    if p.state == MsgPayload {
      q, j, r1 := PayloadCase(p, buf, i, r, cfg);
    } else {
      if buf[i] == LF && (p.state == PubArg || p.state == MsgArg) {
        q, j, r1 := PubLineCase(p, buf, i, r, cfg);
      } else {
        q, r1 := ByteCase(p, buf, i, r, cfg);
        j := i + 1;
      }
    }
  }

  /** The rest of the buffer is consumed, in step with the machine. */
  predicate LoopSim(p: Parser, buf: string, i: nat, r: Ref, cfg: Config) {
    var t := Loop(p, buf, i, cfg);
    t.Go? && t.i >= |buf| && Sim(t.p, buf, t.i, Run(r, buf[Consumed(p, buf, i)..], cfg), cfg)
  }

  lemma LoopUnrolls(p: Parser, buf: string, i: nat, q: Parser, j: nat, cfg: Config)
    requires i < |buf| && TurnOf(p, buf, i, cfg) == Go(q, j - 1)
    ensures Loop(p, buf, i, cfg) == Loop(q, buf, j, cfg)
    ensures j > i || (j == i && p.state == PubArg && q.state == MsgPayload)
  {
  }

  lemma RunFurther(r: Ref, buf: string, c0: nat, c: nat, cfg: Config)
    requires c0 <= c <= |buf|
    ensures Run(r, buf[c0..], cfg) == Run(Run(r, buf[c0..c], cfg), buf[c..], cfg)
  {
    RunConcat(r, buf[c0..c], buf[c..], cfg);
    assert buf[c0..] == buf[c0..c] + buf[c..];
  }

  lemma LoopGoesOn(p: Parser, buf: string, i: nat, r: Ref, q: Parser, j: nat, r1: Ref, cfg: Config)
    requires Consumes(p, buf, i, r, q, j, r1, cfg)
    ensures Run(r1, buf[Consumed(q, buf, j)..], cfg) == Run(r, buf[Consumed(p, buf, i)..], cfg)
  {
    RunFurther(r, buf, Consumed(p, buf, i), Consumed(q, buf, j), cfg);
  }

  lemma {:induction false} LoopKeepsSim(p: Parser, buf: string, i: nat, r: Ref, cfg: Config)
    ensures Sim(p, buf, i, r, cfg) && Run(r, buf[Consumed(p, buf, i)..], cfg).Ref? ==> LoopSim(p, buf, i, r, cfg)
    decreases |buf| - i, if p.state == PubArg then 1 else 0
  {
    var c0 := Consumed(p, buf, i);
    if i >= |buf| {
      assert buf[c0..] == "";
    } else if Sim(p, buf, i, r, cfg) && Run(r, buf[c0..], cfg).Ref? {
      if c0 < |buf| {
        FirstStep(r, buf[c0..], cfg);
      }
      var q, j, r1 := AnyTurn(p, buf, i, r, cfg);
      LoopGoesOn(p, buf, i, r, q, j, r1, cfg);
      LoopUnrolls(p, buf, i, q, j, cfg);
      LoopKeepsSim(q, buf, j, r1, cfg);
    }
  }

  // ---------- the end of a buffer ----------

  /** The parser is between two reads: whatever the next buffer holds, it starts there. */
  predicate AtRest(p: Parser, r: Ref, cfg: Config) {
    && Sim(p, "", 0, r, cfg)
    && (IsArg(p.state) ==> p.argBuf != Nil)
    && (IsPayload(p.state) ==> p.msgBuf != Nil)
  }

  lemma InsideAnywhere(sl: Slice, arg: Slice, scratch: string, buf: string, buf': string)
    requires |scratch| == SCRATCH_SIZE && Inside(sl, arg)
    ensures Within(sl, |buf|) && Within(sl, |buf'|) && Deref(sl, buf, scratch) == Deref(sl, buf', scratch)
  {
  }

  /** Once the arguments are saved, the read buffer no longer matters. */
  lemma PubAnywhere(pa: Pa, argBuf: Slice, buf: string, buf': string, scratch: string, pub: Publish)
    requires |scratch| == SCRATCH_SIZE && argBuf != Nil
    ensures PubSim(pa, argBuf, buf, scratch, pub) ==> PubSim(pa, argBuf, buf', scratch, pub)
  {
    if PubSim(pa, argBuf, buf, scratch, pub) {
      InsideAnywhere(pa.subject, argBuf, scratch, buf, buf');
      InsideAnywhere(pa.reply, argBuf, scratch, buf, buf');
      InsideAnywhere(pa.sid, argBuf, scratch, buf, buf');
      InsideAnywhere(pa.szb, argBuf, scratch, buf, buf');
    }
  }

  lemma RestStarts(p: Parser, r: Ref, buf: string, cfg: Config)
    ensures AtRest(p, r, cfg) ==> Sim(p, buf, 0, r, cfg) && Consumed(p, buf, 0) == 0
  {
    if AtRest(p, r, cfg) && IsPayload(p.state) {
      PubAnywhere(p.pa, p.argBuf, "", buf, p.scratch, r.pub);
    }
  }

  lemma FirstSave(p: Parser, buf: string, arg: string)
    requires |p.scratch| == SCRATCH_SIZE && p.at + |arg| + p.drop == |buf| && buf[p.at..p.at + |arg|] == arg
    ensures var a := Append(p.scratch, Scratch(0, 0), buf[p.at..|buf| - p.drop]);
            SavedArg(a.slice) && Deref(a.slice, "", a.scratch) == arg && Len(a.slice) == |arg|
  {
    var a := Append(p.scratch, Scratch(0, 0), buf[p.at..|buf| - p.drop]);
    AppendAt(p.scratch, 0, buf[p.at..|buf| - p.drop]);
  }

  lemma SaveArgSim(p: Parser, buf: string, i: nat, r: Ref, cfg: Config)
    requires Sim(p, buf, i, r, cfg) && i >= |buf| && IsArg(p.state)
    ensures EndOfBuffer(p, buf, cfg).Go? && AtRest(EndOfBuffer(p, buf, cfg).p, r, cfg)
  {
    if p.argBuf == Nil {
      FirstSave(p, buf, r.arg);
    } else {
      assert Len(p.argBuf) == |Deref(p.argBuf, "", p.scratch)|;
    }
  }

  predicate Copy(sl: Slice, d: Slice, scratch: string, text: string)
    requires |scratch| == SCRATCH_SIZE
  {
    Inside(sl, d) && Within(sl, 0) && sl != Nil && Deref(sl, "", scratch) == text
  }

  lemma SliceOfSaved(d: Slice, scratch: string, all: string, lo: nat, hi: nat, text: string)
    requires |scratch| == SCRATCH_SIZE && Saved(d) && Deref(d, "", scratch) == all
    requires lo <= hi <= |all| && all[lo..hi] == text
    ensures Len(d) == |all| && Copy(SubSlice(d, Range(lo, hi)), d, scratch, text)
  {
    if d.Scratch? {
      SliceSlice(scratch, d.lo, d.hi, lo, hi);
    }
  }

  lemma FourParts(s: string, t: string, u: string, v: string)
    ensures var all := s + t + u + v;
      && all[0..|s|] == s && all[|s|..|s| + |t|] == t
      && all[|s| + |t|..|s| + |t| + |u|] == u && all[|s| + |t| + |u|..|all|] == v
  {
  }

  /** The four saved texts are cut out of their concatenation again. */
  lemma CutFour(d: Slice, scratch: string, s: string, t: string, u: string, v: string)
    requires |scratch| == SCRATCH_SIZE && Saved(d) && Deref(d, "", scratch) == s + t + u + v
    ensures Len(d) == |s| + |t| + |u| + |v|
    ensures Copy(SubSlice(d, Range(0, |s|)), d, scratch, s)
    ensures Copy(SubSlice(d, Range(|s|, |s| + |t|)), d, scratch, t)
    ensures Copy(SubSlice(d, Range(|s| + |t|, |s| + |t| + |u|)), d, scratch, u)
    ensures Copy(SubSlice(d, Range(|s| + |t| + |u|, Len(d))), d, scratch, v)
  {
    var all := s + t + u + v;
    FourParts(s, t, u, v);
    SliceOfSaved(d, scratch, all, 0, |s|, s);
    SliceOfSaved(d, scratch, all, |s|, |s| + |t|, t);
    SliceOfSaved(d, scratch, all, |s| + |t|, |s| + |t| + |u|, u);
    SliceOfSaved(d, scratch, all, |s| + |t| + |u|, |all|, v);
  }

  lemma InBufText(sl: Slice, buf: string, s: string, t: string)
    requires InBuf(sl, |buf|) && |s| == |t| == SCRATCH_SIZE
    ensures Within(sl, |buf|) && Deref(sl, buf, s) == Deref(sl, buf, t)
  {
  }

  lemma SavedTexts(pa: Pa, buf: string, scratch: string)
    requires |scratch| == SCRATCH_SIZE && PaPlaced(pa, Nil, |buf|)
    ensures PaWithin(pa, |buf|)
    ensures var d := SaveTexts(pa, buf, scratch);
            Deref(d.slice, "", d.scratch) == Deref(pa.subject, buf, scratch) + Deref(pa.reply, buf, scratch)
                                             + Deref(pa.sid, buf, scratch) + Deref(pa.szb, buf, scratch)
  {
    InBufText(pa.subject, buf, scratch, scratch);
    var t := Deref(pa.subject, buf, scratch);
    var a := Append(scratch, Scratch(0, 0), t);
    AppendAt(scratch, 0, t);
    InBufText(pa.reply, buf, scratch, a.scratch);
    var u := Deref(pa.reply, buf, scratch);
    var b := Append(a.scratch, a.slice, u);
    AppendIs(a.scratch, a.slice, u);
    InBufText(pa.sid, buf, scratch, b.scratch);
    var v := Deref(pa.sid, buf, scratch);
    var c := Append(b.scratch, b.slice, v);
    AppendIs(b.scratch, b.slice, v);
    InBufText(pa.szb, buf, scratch, c.scratch);
    AppendIs(c.scratch, c.slice, Deref(pa.szb, buf, scratch));
  }

  lemma RepointSim(pa: Pa, d: Slice, scratch: string, pub: Publish, t: string, u: string)
    requires |scratch| == SCRATCH_SIZE && SavedArg(d)
    requires Deref(d, "", scratch) == pub.subject + t + u + pub.szb && pa.size == pub.size
    requires pub.reply == (if pa.reply == Nil then None else Some(t))
    requires pub.sid == (if pa.sid == Nil then None else Some(u))
    ensures Len(d) == |pub.subject| + |t| + |u| + |pub.szb|
    ensures PubSim(Repoint(pa, d, |pub.subject|, |t|, |u|), d, "", scratch, pub)
  {
    CutFour(d, scratch, pub.subject, t, u, pub.szb);
  }

  lemma InBufLen(sl: Slice, buf: string, scratch: string)
    requires |scratch| == SCRATCH_SIZE && InBuf(sl, |buf|)
    ensures Within(sl, |buf|) && Len(sl) == |Deref(sl, buf, scratch)|
  {
  }

  /** Saving the arguments changes where they lie and not what they say. */
  lemma ClonedPa(pa: Pa, buf: string, scratch: string, pub: Publish)
    requires |scratch| == SCRATCH_SIZE && PubSim(pa, Nil, buf, scratch, pub)
    ensures var d := SaveTexts(pa, buf, scratch);
            SavedArg(d.slice) && PubSim(Repoint(pa, d.slice, Len(pa.subject), Len(pa.reply), Len(pa.sid)), d.slice,
                "", d.scratch, pub)
  {
    var d := SaveTexts(pa, buf, scratch);
    SavedTexts(pa, buf, scratch);
    InBufLen(pa.subject, buf, scratch);
    InBufLen(pa.reply, buf, scratch);
    InBufLen(pa.sid, buf, scratch);
    RepointSim(pa, d.slice, d.scratch, pub, Deref(pa.reply, buf, scratch), Deref(pa.sid, buf, scratch));
  }

  /** Scratch bytes before the saved payload are not touched when it is saved. */
  lemma SaveKeepsPub(pa: Pa, argBuf: Slice, scratch: string, pub: Publish, bytes: string)
    requires |scratch| == SCRATCH_SIZE && PubSim(pa, argBuf, "", scratch, pub) && argBuf != Nil
    requires Len(argBuf) <= SCRATCH_SIZE
    ensures var a := Append(scratch, Scratch(Len(argBuf), Len(argBuf)), bytes);
            && PubSim(pa, argBuf, "", a.scratch, pub) && Deref(a.slice, "", a.scratch) == bytes
            && (argBuf.Scratch? && a.slice.Scratch? ==> argBuf.hi <= a.slice.lo)
  {
    AppendAt(scratch, Len(argBuf), bytes);
    AppendKeepsArgs(pa, argBuf, Scratch(Len(argBuf), Len(argBuf)), "", scratch, pub, bytes);
  }

  lemma SaveMsgSim(p: Parser, buf: string, i: nat, r: Ref, cfg: Config)
    requires |p.scratch| == SCRATCH_SIZE && IsPayload(p.state) && p.msgBuf == Nil && p.argBuf != Nil && i >= |buf|
    requires r.Ref? && r.st == MsgPayload && p.ops == r.ops && (!cfg.routed ==> p.pa.sid == Nil)
    requires PubSim(p.pa, p.argBuf, "", p.scratch, r.pub)
    requires BufMsgSim(p.state, p.at, p.pa.size, buf, i, r.payload)
    ensures SaveMsg(p, buf).Go? && AtRest(SaveMsg(p, buf).p, r, cfg)
  {
    assert r.payload == buf[p.at..];
    if p.pa.size <= SCRATCH_SIZE - Len(p.argBuf) {
      SaveKeepsPub(p.pa, p.argBuf, p.scratch, r.pub, buf[p.at..]);
    }
  }

  lemma SavePayloadSim(p: Parser, buf: string, i: nat, r: Ref, cfg: Config)
    requires Sim(p, buf, i, r, cfg) && i >= |buf| && IsPayload(p.state) && p.msgBuf == Nil
    ensures SavePayload(p, buf).Go? && AtRest(SavePayload(p, buf).p, r, cfg)
  {
    if p.argBuf == Nil {
      ClonedPa(p.pa, buf, p.scratch, r.pub);
      SaveMsgSim(ClonePubArg(p, buf), buf, i, r, cfg);
    } else {
      PubAnywhere(p.pa, p.argBuf, buf, "", p.scratch, r.pub);
      SaveMsgSim(p, buf, i, r, cfg);
    }
  }

  lemma EndOfBufferIs(p: Parser, buf: string, cfg: Config)
    requires |p.scratch| == SCRATCH_SIZE && Within(p.argBuf, 0) && !p.argBuf.Buf? && IsPayload(p.state)
    ensures p.msgBuf != Nil ==> EndOfBuffer(p, buf, cfg) == Go(p, |buf|)
    ensures p.msgBuf == Nil && p.at <= |buf| && (p.argBuf == Nil ==> PaWithin(p.pa, |buf|)) ==>
      EndOfBuffer(p, buf, cfg) == SavePayload(p, buf)
  {
  }

  lemma PayloadHeld(p: Parser, buf: string, i: nat, r: Ref, cfg: Config)
    requires Sim(p, buf, i, r, cfg) && IsPayload(p.state)
    ensures |p.scratch| == SCRATCH_SIZE && Within(p.argBuf, 0) && !p.argBuf.Buf?
    ensures p.msgBuf == Nil ==> p.at <= |buf| && PaWithin(p.pa, |buf|)
  {
  }

  lemma SavedRests(p: Parser, buf: string, i: nat, r: Ref, cfg: Config)
    requires Sim(p, buf, i, r, cfg) && IsPayload(p.state) && p.msgBuf != Nil
    ensures AtRest(p, r, cfg)
  {
    PubAnywhere(p.pa, p.argBuf, buf, "", p.scratch, r.pub);
  }

  lemma EndPayloadSim(p: Parser, buf: string, i: nat, r: Ref, cfg: Config)
    requires Sim(p, buf, i, r, cfg) && i >= |buf| && IsPayload(p.state)
    ensures EndOfBuffer(p, buf, cfg).Go? && AtRest(EndOfBuffer(p, buf, cfg).p, r, cfg)
  {
    PayloadHeld(p, buf, i, r, cfg);
    EndOfBufferIs(p, buf, cfg);
    if p.msgBuf == Nil {
      SavePayloadSim(p, buf, i, r, cfg);
    } else {
      SavedRests(p, buf, i, r, cfg);
    }
  }

  lemma EndSim(p: Parser, buf: string, i: nat, r: Ref, cfg: Config)
    ensures Sim(p, buf, i, r, cfg) && i >= |buf|
            ==> EndOfBuffer(p, buf, cfg).Go? && AtRest(EndOfBuffer(p, buf, cfg).p, r, cfg)
  {
    if Sim(p, buf, i, r, cfg) && i >= |buf| {
      if IsPayload(p.state) {
        EndPayloadSim(p, buf, i, r, cfg);
      } else if IsArg(p.state) {
        SaveArgSim(p, buf, i, r, cfg);
      }
    }
  }

  // ---------- every way of cutting the stream ----------

  /** One read: the parser stays in step with the machine. */
  lemma ParseSim(p: Parser, buf: string, r: Ref, cfg: Config)
    ensures AtRest(p, r, cfg) && Run(r, buf, cfg).Ref?
            ==> Parse(p, buf, cfg).Go? && AtRest(Parse(p, buf, cfg).p, Run(r, buf, cfg), cfg)
  {
    RestStarts(p, r, buf, cfg);
    LoopKeepsSim(p, buf, 0, r, cfg);
    assert buf[0..] == buf;
    var t := Loop(p, buf, 0, cfg);
    if t.Go? && t.i >= 0 {
      EndSim(t.p, buf, t.i, Run(r, buf, cfg), cfg);
    }
  }

  /** Any sequence of reads does what the byte-at-a-time machine does on their concatenation. */
  lemma {:induction false} ChunksRefine(p: Parser, chunks: seq<string>, r: Ref, cfg: Config)
    ensures AtRest(p, r, cfg) && Run(r, Flatten(chunks), cfg).Ref?
            ==> ParseAll(p, chunks, cfg).Go? && AtRest(ParseAll(p, chunks, cfg).p, Run(r, Flatten(chunks), cfg), cfg)
    decreases |chunks|
  {
    if chunks != [] && AtRest(p, r, cfg) && Run(r, Flatten(chunks), cfg).Ref? {
      var r1 := Run(r, chunks[0], cfg);
      RunConcat(r, chunks[0], Flatten(chunks[1..]), cfg);
      if r1.Bad? {
        RunBad(Flatten(chunks[1..]), cfg);
      }
      ParseSim(p, chunks[0], r, cfg);
      ChunksRefine(Parse(p, chunks[0], cfg).p, chunks[1..], r1, cfg);
    }
  }

  lemma NewRests(cfg: Config)
    ensures AtRest(New(), Done([]), cfg)
  {
  }

  lemma AtLineStart(t: Turn, ops: seq<Op>, cfg: Config)
    requires t.Go? && AtRest(t.p, Done(ops), cfg)
    ensures t.p.ops == ops && t.p.state == OpStart && t.p.argBuf == Nil && t.p.msgBuf == Nil
  {
    StartState(t.p, Done(ops), cfg);
  }

  lemma StartState(p: Parser, r: Ref, cfg: Config)
    requires Sim(p, "", 0, r, cfg) && r.Ref? && r.st == OpStart
    ensures p.ops == r.ops && p.state == OpStart && p.argBuf == Nil && p.msgBuf == Nil
  {
    assert !IsPayload(p.state);
    assert p.state == OpStart;
  }

  /** The main result: however the bytes of a list of well-formed frames are cut into reads, the
      parser performs exactly the operations of those frames, with exactly their arguments and
      payloads, and ends at the start of a line with nothing saved. */
  lemma FramesParse(ws: seq<Written>, chunks: seq<string>, cfg: Config)
    requires AllWellFormed(ws, cfg) && Flatten(chunks) == EncodeAll(ws)
    ensures ParseAll(New(), chunks, cfg).Go?
    ensures var p := ParseAll(New(), chunks, cfg).p;
            p.ops == AllOps(ws) && p.state == OpStart && p.argBuf == Nil && p.msgBuf == Nil
  {
    RunFrames(ws, [], cfg);
    ConcatNothing(AllOps(ws));
    NewRests(cfg);
    ChunksRefine(New(), chunks, Done([]), cfg);
    AtLineStart(ParseAll(New(), chunks, cfg), AllOps(ws), cfg);
  }

  /** Where the cuts fall makes no difference to a stream the protocol allows, even one that
      stops in the middle of a frame. */
  lemma CutsDoNotMatter(a: seq<string>, b: seq<string>, cfg: Config)
    requires Flatten(a) == Flatten(b) && Run(START, Flatten(a), cfg).Ref?
    ensures ParseAll(New(), a, cfg).Go? && ParseAll(New(), b, cfg).Go?
    ensures ParseAll(New(), a, cfg).p.ops == ParseAll(New(), b, cfg).p.ops
  {
    assert AtRest(New(), START, cfg);
    ChunksRefine(New(), a, START, cfg);
    ChunksRefine(New(), b, START, cfg);
  }
}
