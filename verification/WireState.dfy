/**
 The client's parse state, updated in place: the index loop over a read buffer, with one
 scratch array shared by saved arguments and saved payloads. `View` is the parser value the
 other modules reason about.
 */
module WireState {
  import opened Common
  import opened WireArgs
  import opened WireRef
  import opened WireParser
  import WireFrames
  import WireChunks

  class ParseState {
    var state: State
    var at: nat
    var drop: nat
    var pa: Pa
    var argBuf: Slice
    var msgBuf: Slice
    const scratch: array<char>
    var ops: seq<Op>

    ghost predicate Valid()
      reads this
    {
      scratch.Length == SCRATCH_SIZE
    }

    function View(): Parser
      requires Valid()
      reads this, scratch
    {
      Parser(state, at, drop, pa, argBuf, msgBuf, scratch[..], ops)
    }

    constructor ()
      ensures Valid() && fresh(scratch)
      ensures View() == New()
    {
      state, at, drop, pa, argBuf, msgBuf, ops := OpStart, 0, 0, NO_PA, Nil, Nil, [];
      scratch := new char[SCRATCH_SIZE](_ => ' ');
      new;
      assert scratch[..] == New().scratch;
    }

    /** Copy `bytes` into the scratch array from `lo` on. */
    method CopyIn(lo: nat, bytes: string)
      requires Valid() && lo + |bytes| <= SCRATCH_SIZE
      modifies scratch
      ensures scratch[..] == CopyInto(old(scratch[..]), lo, bytes)
    {
      CopyIntoIs(scratch[..], lo, bytes);
      for k := 0 to |bytes|
        invariant scratch[..lo] == old(scratch[..lo])
        invariant scratch[lo..lo + k] == bytes[..k]
        invariant scratch[lo + |bytes|..] == old(scratch[lo + |bytes|..])
      {
        scratch[lo + k] := bytes[k];
      }
      ghost var r, k := CopyInto(old(scratch[..]), lo, bytes), lo + |bytes|;
      assert scratch[..] == scratch[..lo] + scratch[lo..k] + scratch[k..];
      assert r == r[..lo] + r[lo..k] + r[k..];
    }

    /** append: in place while the scratch array has room. */
    method AppendTo(sl: Slice, bytes: string) returns (s: Slice)
      requires Valid() && Within(sl, 0) && !sl.Buf?
      modifies scratch
      ensures Appended(scratch[..], s) == Append(old(scratch[..]), sl, bytes)
    {
      match sl
      case Scratch(lo, hi) =>
        if hi + |bytes| <= SCRATCH_SIZE {
          CopyIn(hi, bytes);
          s := Scratch(lo, hi + |bytes|);
        } else {
          assert scratch[..][lo..hi] == scratch[lo..hi];
          s := Heap(scratch[lo..hi] + bytes);
        }
      case Heap(held) =>
        s := Heap(held + bytes);
      case Nil =>
        s := Heap(bytes);
    }

    /** The line feed of a PUB or MSG line jumps over the payload. */
    method PubLine(made: Option<Pa>, i: nat) returns (ok: bool, j: int)
      requires Valid()
      modifies this
      ensures var t := PubTurn(old(View()), made, i); ok == t.Go? && (ok ==> View() == t.p && j == t.i)
    {
      ok, j := made.Some?, i;
      if ok {
        pa, drop, at := made.value, 0, i + 1;
        if state == MsgArg {
          j := i + pa.size;
        } else if msgBuf == Nil {
          j := at + pa.size - 2;
        }
        state := MsgPayload;
      }
    }

    method PlainLine(op: Option<Op>, i: nat) returns (ok: bool)
      requires Valid()
      modifies this
      ensures var t := OpTurn(old(View()), op, i); ok == t.Go? && (ok ==> View() == t.p && t.i == i)
    {
      ok := op.Some?;
      if ok {
        if state != ConnectArg {
          at := i + 1;
        }
        argBuf, drop, state, ops := Nil, 0, OpStart, ops + [op.value];
      }
    }

    /** The line feed of an argument line. */
    method LineFeed(buf: string, i: nat, cfg: Config) returns (ok: bool, j: int)
      requires Valid() && i < |buf| && Within(argBuf, 0) && !argBuf.Buf?
      requires argBuf == Nil ==> at + drop <= i
      modifies this
      ensures var t := LineTurn(old(View()), buf, i, cfg); ok == t.Go? && (ok ==> View() == t.p && j == t.i)
    {
      var base := if argBuf != Nil then argBuf else Buf(at, i - drop);
      var arg := Deref(base, buf, scratch[..]);
      assert LineTurn(View(), buf, i, cfg) == LineEnd(View(), base, arg, i, cfg);
      if state == PubArg || state == MsgArg {
        var made := ProcessPub(state, base, arg, pa.sid, cfg.maxPayload);
        ok, j := PubLine(made, i);
      } else {
        ok := PlainLine(LineOp(state, arg), i);
        j := i;
      }
    }

    method ArgByte(buf: string, i: nat, cfg: Config) returns (ok: bool, j: int)
      requires Valid() && i < |buf| && Within(argBuf, 0) && !argBuf.Buf?
      requires argBuf == Nil ==> at + drop <= i
      modifies this, scratch
      ensures var t := ArgTurn(old(View()), buf, i, cfg); ok == t.Go? && (ok ==> View() == t.p && j == t.i)
    {
      ok, j := true, i;
      if buf[i] == CR {
        drop := 1;
      } else if buf[i] == LF {
        ok, j := LineFeed(buf, i, cfg);
      } else if argBuf != Nil {
        argBuf := AppendTo(argBuf, [buf[i]]);
      }
    }

    /** Letters, blanks and lines without arguments. */
    method WordByte(buf: string, i: nat, cfg: Config) returns (ok: bool)
      requires Valid() && i < |buf|
      modifies this
      ensures var t := WordTurn(old(View()), buf, i, cfg); ok == t.Go? && (ok ==> View() == t.p && t.i == i)
    {
      ok := true;
      if IsLine(state) {
        if buf[i] == LF {
          drop, state, ops := 0, OpStart, ops + LineDone(state);
        }
      } else if ArgAfter(state).Some? {
        if !Space(buf[i]) {
          state, at := ArgAfter(state).value, i;
        }
      } else {
        var st := Letter(state, buf[i], cfg.routed);
        ok := st.Some?;
        if ok {
          state := st.value;
        }
      }
    }

    /** As many bytes as the saved payload needs and the buffer has, but one at least. */
    method CopyBytes(buf: string, i: nat) returns (j: int)
      requires Valid() && i < |buf| && Within(msgBuf, 0) && !msgBuf.Buf?
      modifies this, scratch
      ensures var t := CopyTurn(old(View()), buf, i); t.Go? && View() == t.p && j == t.i
    {
      var toCopy := pa.size - Len(msgBuf);
      if |buf| - i < toCopy {
        toCopy := |buf| - i;
      }
      var n := if toCopy > 0 then toCopy else 1;
      msgBuf := AppendTo(msgBuf, buf[i..i + n]);
      state := if Len(msgBuf) >= pa.size then MsgEnd else MsgPayload;
      j := i + n - 1;
    }

    method PayloadByte(buf: string, i: nat) returns (j: int)
      requires Valid() && i < |buf| && Within(msgBuf, 0) && !msgBuf.Buf?
      modifies this, scratch
      ensures var t := PayloadTurn(old(View()), buf, i); t.Go? && View() == t.p && j == t.i
    {
      j := i;
      if msgBuf != Nil {
        j := CopyBytes(buf, i);
      } else if i - at >= pa.size {
        state := MsgEnd;
      }
    }

    method EndByte(buf: string, i: nat) returns (ok: bool)
      requires Valid() && i < |buf| && Within(msgBuf, 0) && !msgBuf.Buf?
      requires PaWithin(pa, |buf|) && (msgBuf == Nil ==> at <= i)
      modifies this, scratch
      ensures var t := EndTurn(old(View()), buf, i); ok == t.Go? && (ok ==> View() == t.p && t.i == i)
    {
      if msgBuf != Nil {
        msgBuf := AppendTo(msgBuf, [buf[i]]);
      }
      if buf[i] != LF {
        return true;
      }
      var msg := if msgBuf == Nil then buf[at..i + 1] else Deref(msgBuf, "", scratch[..]);
      ok := |msg| == pa.size + 2;
      if ok {
        ops := ops + [DoMsg(Current(pa, buf, scratch[..]), msg)];
        argBuf, msgBuf, drop, at, state := Nil, Nil, 0, i + 1, OpStart;
      }
    }

    /** One turn of the loop. An index out of range is a panic in Go, and a stop here. */
    method TurnAt(buf: string, i: nat, cfg: Config) returns (ok: bool, j: int)
      requires Valid() && i < |buf|
      modifies this, scratch
      ensures var t := TurnOf(old(View()), buf, i, cfg); ok == t.Go? && (ok ==> View() == t.p && j == t.i)
    {
      ok, j := InBounds(View(), buf, i), i;
      if ok {
        if IsArg(state) {
          ok, j := ArgByte(buf, i, cfg);
        } else if state == MsgPayload {
          j := PayloadByte(buf, i);
        } else if state == MsgEnd {
          ok := EndByte(buf, i);
        } else {
          ok := WordByte(buf, i, cfg);
        }
      }
    }

    /** Copy the publication's texts to the scratch array and point the slices at the copy. */
    method ClonePub(buf: string)
      requires Valid() && PaWithin(pa, |buf|)
      modifies this, scratch
      ensures View() == ClonePubArg(old(View()), buf)
    {
      var d := AppendTo(Scratch(0, 0), Deref(pa.subject, buf, scratch[..]));
      d := AppendTo(d, Deref(pa.reply, buf, scratch[..]));
      d := AppendTo(d, Deref(pa.sid, buf, scratch[..]));
      d := AppendTo(d, Deref(pa.szb, buf, scratch[..]));
      assert Appended(scratch[..], d) == SaveTexts(pa, buf, old(scratch[..]));
      argBuf, pa := d, Repoint(pa, d, Len(pa.subject), Len(pa.reply), Len(pa.sid));
    }

    method SaveMessage(buf: string) returns (ok: bool)
      requires Valid() && Within(argBuf, 0) && !argBuf.Buf? && at <= |buf|
      modifies this, scratch
      ensures var t := SaveMsg(old(View()), buf); ok == t.Go? && (ok ==> View() == t.p)
    {
      ok := true;
      var used := Len(argBuf);
      if pa.size <= SCRATCH_SIZE - used {
        msgBuf := AppendTo(Scratch(used, used), buf[at..]);
      } else if |buf| - at > pa.size + 2 {
        ok := false;
      } else {
        msgBuf := Heap(buf[at..]);
      }
    }

    method SaveLine(buf: string, cfg: Config) returns (ok: bool)
      requires Valid() && Within(argBuf, 0) && !argBuf.Buf? && (argBuf == Nil ==> at + drop <= |buf|)
      modifies this, scratch
      ensures var t := SaveArg(old(View()), buf, cfg); ok == t.Go? && (ok ==> View() == t.p)
    {
      if argBuf == Nil {
        argBuf := AppendTo(Scratch(0, 0), buf[at..|buf| - drop]);
      }
      ok := Len(argBuf) <= cfg.maxControlLine;
    }

    /** What is left over at the end of a read is saved. */
    method EndOfRead(buf: string, cfg: Config) returns (ok: bool)
      requires Valid()
      modifies this, scratch
      ensures var t := EndOfBuffer(old(View()), buf, cfg); ok == t.Go? && (ok ==> View() == t.p)
    {
      ok := Within(argBuf, 0) && !argBuf.Buf?;
      if ok {
        if IsArg(state) {
          ok := argBuf != Nil || at + drop <= |buf|;
          if ok {
            ok := SaveLine(buf, cfg);
          }
        } else if IsPayload(state) && msgBuf == Nil {
          ok := at <= |buf| && (argBuf != Nil || PaWithin(pa, |buf|));
          if ok {
            if argBuf == Nil {
              ClonePub(buf);
            }
            ok := SaveMessage(buf);
          }
        }
      }
    }

    /** parse: the loop over one read. */
    method Read(buf: string, cfg: Config) returns (ok: bool)
      requires Valid()
      modifies this, scratch
      ensures var t := Parse(old(View()), buf, cfg); ok == t.Go? && (ok ==> View() == t.p)
    {
      var i := 0;
      while i < |buf|
        invariant 0 <= i && Loop(View(), buf, i, cfg) == Loop(old(View()), buf, 0, cfg)
        decreases |buf| - i, if state == PubArg then 1 else 0
      {
        var j;
        ok, j := TurnAt(buf, i, cfg);
        if !ok {
          return;
        }
        i := j + 1;
      }
      ok := EndOfRead(buf, cfg);
    }

    /** Any number of reads, any way the stream is cut: exactly the operations of its frames. */
    method Serve(chunks: seq<string>, cfg: Config, ghost ws: seq<WireFrames.Written>) returns (ok: bool)
      requires Valid() && View() == New()
      requires WireFrames.AllWellFormed(ws, cfg) && Flatten(chunks) == WireFrames.EncodeAll(ws)
      modifies this, scratch
      ensures ok && ops == WireFrames.AllOps(ws) && state == OpStart && argBuf == Nil && msgBuf == Nil
    {
      ok := true;
      WireChunks.FramesParse(ws, chunks, cfg);
      for k := 0 to |chunks|
        invariant ok && ParseAll(View(), chunks[k..], cfg) == ParseAll(New(), chunks, cfg)
      {
        assert chunks[k..][1..] == chunks[k + 1..];
        ok := Read(chunks[k], cfg);
      }
    }
  }
}
