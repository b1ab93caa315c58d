/**
 Fields a message does not know: a reader passes over them, groups within groups included, and
 finds the same message as without them.
 */
module ProtobufUnknown {
  import opened Common
  import opened Protobuf

  /** A field as some other version of the message may write it: one of the known kinds, four bytes,
      or a group, which ends at an end tag. */
  datatype Unknown = Plain(num: nat, kind: Kind, value: Value)
                   | Word(num: nat, four: seq<byte>)
                   | Group(num: nat, items: seq<Unknown>, endNum: nat)

  /** Field numbers are 31 bits wide. */
  const MAX_FIELD := 0x8000_0000

  ghost predicate Spellable(u: Unknown) {
    && u.num < MAX_FIELD
    && match u
       case Plain(_, kind, value) => Fits(kind, value)
       case Word(_, four) => |four| == 4
       case Group(_, items, endNum) => endNum < MAX_FIELD && forall i :: 0 <= i < |items| ==> Spellable(items[i])
  }

  ghost function Spell(u: Unknown): seq<byte>
    requires Spellable(u)
    decreases u, 0
  {
    match u
    case Plain(num, kind, value) => Varint(num * 8 + WireType(kind)) + Payload(kind, value)
    case Word(num, four) => Varint(num * 8 + 5) + four
    case Group(num, items, endNum) => Varint(num * 8 + 3) + (SpellAll(u, items) + Varint(endNum * 8 + 4))
  }

  /** The fields of group `u` from some item on. */
  ghost function SpellAll(u: Unknown, items: seq<Unknown>): seq<byte>
    requires forall i :: 0 <= i < |items| ==> Spellable(items[i]) && items[i] < u
    decreases u, 0, |items|
  {
    if items == [] then [] else Spell(items[0]) + SpellAll(u, items[1..])
  }

  lemma TagRead(num: nat, wt: nat, tail: seq<byte>)
    requires num < MAX_FIELD && wt < 8
    ensures ReadVarint(Varint(num * 8 + wt) + tail) == Read(num * 8 + wt, tail)
    ensures (num * 8 + wt) % 8 == wt && Int32((num * 8 + wt) / 8) == num
  {
    VarintBack(num * 8 + wt, tail);
  }

  lemma DropAll(a: seq<byte>, tail: seq<byte>)
    ensures Drop(a + tail, |a|) == Skipped(tail)
  {
    assert (a + tail)[|a|..] == tail;
  }

  /** A value of a known kind is skipped by its wire type alone. */
  lemma SkipPlain(num: nat, kind: Kind, value: Value, tail: seq<byte>)
    requires num < MAX_FIELD && Fits(kind, value)
    ensures Skip(Varint(num * 8 + WireType(kind)) + (Payload(kind, value) + tail)) == Skipped(tail)
  {
    TagRead(num, WireType(kind), Payload(kind, value) + tail);
    match kind
    case KBytes =>
      var n := |value.bytes|;
      ConcatAssoc(Varint(n), value.bytes, tail);
      VarintBack(n, value.bytes + tail);
      DropAll(value.bytes, tail);
    case KVarint =>
      SkipVarint(ToUnsigned(value.i), tail);
    case KBool =>
      var u := if value.on then 1 else 0;
      assert Payload(kind, value) == Varint(u);
      SkipVarint(u, tail);
    case KFixed =>
      DropAll(LittleEndian(value.u, 8), tail);
  }

  lemma SkipVarint(v: nat, tail: seq<byte>)
    requires v < TWO64
    ensures Uvarint(Varint(v) + tail, 0) == Read(v, tail)
  {
    TenBytes(v);
    UvarintBack(v, 0, tail);
  }

  /** A tag in front of anything. */
  lemma TagInFront(num: nat, wt: nat, body: seq<byte>, tail: seq<byte>)
    requires num < MAX_FIELD && wt < 8
    ensures ReadVarint((Varint(num * 8 + wt) + body) + tail) == Read(num * 8 + wt, body + tail)
    ensures (num * 8 + wt) % 8 == wt && Int32((num * 8 + wt) / 8) == num
  {
    ConcatAssoc(Varint(num * 8 + wt), body, tail);
    TagRead(num, wt, body + tail);
  }

  /** The wire type of a field, and what follows its tag. */
  ghost function WireTypeOf(u: Unknown): nat {
    if u.Plain? then WireType(u.kind) else if u.Word? then 5 else 3
  }

  ghost function Body(u: Unknown): seq<byte>
    requires Spellable(u)
  {
    match u
    case Plain(num, kind, value) => Payload(kind, value)
    case Word(num, four) => four
    case Group(num, items, endNum) => SpellAll(u, items) + Varint(endNum * 8 + 4)
  }

  lemma SpellIs(u: Unknown)
    requires Spellable(u)
    ensures Spell(u) == Varint(u.num * 8 + WireTypeOf(u)) + Body(u)
  {
  }

  /** A field's spelling begins with its tag, which is no end tag. */
  lemma SpellTag(u: Unknown, tail: seq<byte>) returns (wire: nat)
    requires Spellable(u)
    ensures ReadVarint(Spell(u) + tail) == Read(wire, Body(u) + tail)
    ensures wire % 8 == WireTypeOf(u) != 4 && Int32(wire / 8) == u.num
  {
    wire := u.num * 8 + WireTypeOf(u);
    SpellIs(u);
    TagInFront(u.num, WireTypeOf(u), Body(u), tail);
  }

  lemma SkipWord(d: seq<byte>, wire: nat, four: seq<byte>, tail: seq<byte>)
    requires ReadVarint(d) == Read(wire, four + tail) && wire % 8 == 5 && |four| == 4
    ensures Skip(d) == Skipped(tail)
  {
    DropAll(four, tail);
  }

  lemma SkipsGroup(d: seq<byte>, wire: nat, rest: seq<byte>, tail: seq<byte>)
    requires ReadVarint(d) == Read(wire, rest) && wire % 8 == 3 && SkipGroup(rest) == Skipped(tail)
    ensures Skip(d) == Skipped(tail)
  {
  }

  lemma GroupEnds(d: seq<byte>, wire: nat, tail: seq<byte>)
    requires ReadVarint(d) == Read(wire, tail) && wire % 8 == 4
    ensures SkipGroup(d) == Skipped(tail)
  {
  }

  lemma GroupGoesOn(d: seq<byte>, wire: nat, after: seq<byte>, rest: seq<byte>, tail: seq<byte>)
    requires ReadVarint(d) == Read(wire, after) && wire % 8 != 4
    requires Skip(d) == Skipped(rest) && SkipGroup(rest) == Skipped(tail)
    ensures SkipGroup(d) == Skipped(tail)
  {
  }

  /** Any field is skipped whole, and nothing after it is touched. */
  lemma {:induction false} SkipSpelled(u: Unknown, tail: seq<byte>)
    requires Spellable(u)
    ensures Skip(Spell(u) + tail) == Skipped(tail)
    decreases u, 0
  {
    var wire := SpellTag(u, tail);
    match u
    case Plain(num, kind, value) =>
      ConcatAssoc(Varint(num * 8 + WireType(kind)), Payload(kind, value), tail);
      SkipPlain(num, kind, value, tail);
    case Word(num, four) =>
      SkipWord(Spell(u) + tail, wire, four, tail);
    case Group(num, items, endNum) =>
      SkipItems(u, items, endNum, tail);
      ConcatAssoc(SpellAll(u, items), Varint(endNum * 8 + 4), tail);
      SkipsGroup(Spell(u) + tail, wire, Body(u) + tail, tail);
  }

  /** The items of a group up to its end tag. */
  lemma {:induction false} SkipItems(u: Unknown, items: seq<Unknown>, endNum: nat, tail: seq<byte>)
    requires endNum < MAX_FIELD && forall i :: 0 <= i < |items| ==> Spellable(items[i]) && items[i] < u
    ensures SkipGroup(SpellAll(u, items) + (Varint(endNum * 8 + 4) + tail)) == Skipped(tail)
    decreases u, 0, |items|
  {
    var end := Varint(endNum * 8 + 4) + tail;
    if items == [] {
      TagRead(endNum, 4, tail);
      ConcatNothing(end);
      GroupEnds(end, endNum * 8 + 4, tail);
    } else {
      var first, rest := items[0], SpellAll(u, items[1..]) + end;
      ConcatAssoc(Spell(first), SpellAll(u, items[1..]), end);
      var wire := SpellTag(first, rest);
      SkipSpelled(first, rest);
      SkipItems(u, items[1..], endNum, tail);
      GroupGoesOn(Spell(first) + rest, wire, Body(first) + rest, rest, tail);
    }
  }

  lemma {:induction false} FieldAtNone(fs: seq<Field>, num: nat)
    requires forall k :: 0 <= k < |fs| ==> fs[k].num != num
    ensures FieldAt(fs, num) == None
  {
    if fs != [] {
      FieldAtNone(fs[1..], num);
    }
  }

  lemma DecodeSkips(fs: seq<Field>, d: seq<byte>, wire: nat, rest: seq<byte>, after: seq<byte>, vs: seq<Value>)
    requires |fs| == |vs| && ReadVarint(d) == Read(wire, rest) && wire % 8 != 4 && Int32(wire / 8) > 0
    requires FieldAt(fs, Int32(wire / 8)) == None && Skip(d) == Skipped(after)
    ensures Decode(fs, d, vs) == Decode(fs, after, vs)
  {
    UvarintShorter(d, 0);
    assert d != [];
  }

  /** What a reader meets at an unknown field. */
  lemma UnknownMet(fs: seq<Field>, u: Unknown, tail: seq<byte>, d: seq<byte>) returns (wire: nat, rest: seq<byte>)
    requires Spellable(u) && u.num > 0 && (forall k :: 0 <= k < |fs| ==> fs[k].num != u.num) && d == Spell(u) + tail
    ensures ReadVarint(d) == Read(wire, rest) && wire % 8 != 4 && Int32(wire / 8) > 0
    ensures FieldAt(fs, Int32(wire / 8)) == None && Skip(d) == Skipped(tail)
  {
    wire := SpellTag(u, tail);
    rest := Body(u) + tail;
    FieldAtNone(fs, u.num);
    SkipSpelled(u, tail);
  }

  /** A field the message does not have changes nothing, wherever it stands. */
  lemma UnknownIgnored(fs: seq<Field>, u: Unknown, tail: seq<byte>, vs: seq<Value>)
    requires |fs| == |vs| && Spellable(u) && u.num > 0 && forall k :: 0 <= k < |fs| ==> fs[k].num != u.num
    ensures Decode(fs, Spell(u) + tail, vs) == Decode(fs, tail, vs)
  {
    var d := Spell(u) + tail;
    var wire, rest := UnknownMet(fs, u, tail, d);
    DecodeSkips(fs, d, wire, rest, tail, vs);
  }

  /** An ack written by a version with one more field is read as the ack. */
  lemma NewerAckRead(m: BigFileAck, u: Unknown)
    requires AckFits(m) && Spellable(u) && u.num > 5
    ensures FitAll(ACK, AckValues(m))
    ensures var d := Decode(ACK, Spell(u) + Encode(ACK, AckValues(m)), Zeros(ACK));
      d.Decoded? && AckShaped(d.values) && AckOf(d.values) == m
  {
    AckBack(m);
    UnknownIgnored(ACK, u, Encode(ACK, AckValues(m)), Zeros(ACK));
  }
}
