/**
 The generated codec of file chunks and their acks: Protocol Buffers encoding, base-128 varints.
 A message is a list of values against a list of fields; both messages use the same helpers in
 the same order, so the two codecs are one, instantiated twice.
 */
module Protobuf {
  import opened Common

  datatype Kind = KBytes | KVarint | KBool | KFixed

  datatype Field = Field(num: nat, kind: Kind)

  datatype Value = Bytes(bytes: seq<byte>) | Int(i: int) | Flag(on: bool) | Fixed(u: nat)

  datatype Error = UnexpectedEOF | IntOverflow | InvalidLength | EndGroup | IllegalTag | WrongWireType | IllegalWireType

  // ---------- numbers ----------

  /** A 64-bit signed number as the unsigned one with the same bits, and back. */
  function ToUnsigned(i: int): int {
    if i < 0 then i + TWO64 else i
  }

  function ToSigned(u: int): int {
    if u >= TWO63 then u - TWO64 else u
  }

  function Varint(v: nat): (r: seq<byte>)
    ensures |r| > 0
  {
    if v >= 128 then [(v % 128 + 128) as byte] + Varint(v / 128) else [v as byte]
  }

  /** `n` bytes, least significant first. */
  function LittleEndian(v: nat, n: nat): (r: seq<byte>)
    ensures |r| == n
  {
    if n == 0 then [] else [(v % 256) as byte] + LittleEndian(v / 256, n - 1)
  }

  datatype Read = Bad(err: Error) | Read(value: nat, rest: seq<byte>)

  /** `n` bytes of the varint have been read; the eleventh byte is an overflow. */
  function Uvarint(d: seq<byte>, n: nat): Read
    decreases |d|
  {
    if n >= 10 then Bad(IntOverflow)
    else if d == [] then Bad(UnexpectedEOF)
    else if d[0] as int < 128 then Read(d[0] as int, d[1..])
    else match Uvarint(d[1..], n + 1)
      case Bad(err) => Bad(err)
      case Read(v, rest) => Read(d[0] as int - 128 + 128 * v, rest)
  }

  /** Bits above the 64th are lost. */
  function ReadVarint(d: seq<byte>): (r: Read)
    ensures r.Read? ==> r.value < TWO64
  {
    match Uvarint(d, 0)
    case Bad(err) => Bad(err)
    case Read(v, rest) => Read(v % TWO64, rest)
  }

  function ValueOf(d: seq<byte>): nat {
    if d == [] then 0 else d[0] as int + 256 * ValueOf(d[1..])
  }

  lemma {:induction false} UvarintShorter(d: seq<byte>, n: nat)
    ensures Uvarint(d, n).Read? ==> |Uvarint(d, n).rest| < |d|
    decreases |d|
  {
    if n < 10 && d != [] && d[0] as int >= 128 {
      UvarintShorter(d[1..], n + 1);
    }
  }

  // ---------- fields ----------

  function WireType(k: Kind): nat {
    match k
    case KBytes => 2
    case KVarint => 0
    case KBool => 0
    case KFixed => 1
  }

  function Zero(k: Kind): Value {
    match k
    case KBytes => Bytes([])
    case KVarint => Int(0)
    case KBool => Flag(false)
    case KFixed => Fixed(0)
  }

  /** The value is one the Go field can hold. */
  predicate Fits(k: Kind, v: Value) {
    match k
    case KBytes => v.Bytes? && |v.bytes| < TWO63
    case KVarint => v.Int? && -TWO63 <= v.i < TWO63
    case KBool => v.Flag?
    case KFixed => v.Fixed? && v.u < TWO64
  }

  function Payload(k: Kind, v: Value): seq<byte>
    requires Fits(k, v)
  {
    match k
    case KBytes => Varint(|v.bytes|) + v.bytes
    case KVarint => Varint(ToUnsigned(v.i))
    case KBool => [if v.on then 1 else 0]
    case KFixed => LittleEndian(v.u, 8)
  }

  function Tag(f: Field): nat {
    f.num * 8 + WireType(f.kind)
  }

  /** Zero values are left out. */
  function EncodeField(f: Field, v: Value): seq<byte>
    requires Fits(f.kind, v) && Tag(f) < 128
  {
    if v == Zero(f.kind) then [] else [Tag(f) as byte] + Payload(f.kind, v)
  }

  predicate FitAll(fs: seq<Field>, vs: seq<Value>) {
    |fs| == |vs| && forall k :: 0 <= k < |fs| ==> Fits(fs[k].kind, vs[k]) && Tag(fs[k]) < 128
  }

  function Encode(fs: seq<Field>, vs: seq<Value>): seq<byte>
    requires FitAll(fs, vs)
  {
    if fs == [] then [] else EncodeField(fs[0], vs[0]) + Encode(fs[1..], vs[1..])
  }

  // ---------- sizes ----------

  function Sov(v: nat): nat {
    if v / 128 == 0 then 1 else 1 + Sov(v / 128)
  }

  function SizeField(f: Field, v: Value): nat
    requires Fits(f.kind, v)
  {
    match f.kind
    case KBytes => if |v.bytes| > 0 then 1 + |v.bytes| + Sov(|v.bytes|) else 0
    case KVarint => if v.i != 0 then 1 + Sov(ToUnsigned(v.i)) else 0
    case KBool => if v.on then 2 else 0
    case KFixed => if v.u != 0 then 9 else 0
  }

  function Size(fs: seq<Field>, vs: seq<Value>): nat
    requires FitAll(fs, vs)
  {
    if fs == [] then 0 else SizeField(fs[0], vs[0]) + Size(fs[1..], vs[1..])
  }

  lemma {:induction false} SovIsLength(v: nat)
    ensures Sov(v) == |Varint(v)|
  {
    if v >= 128 {
      SovIsLength(v / 128);
    }
  }

  /** Size is the number of bytes written. */
  lemma {:induction false} SizeExact(fs: seq<Field>, vs: seq<Value>)
    requires FitAll(fs, vs)
    ensures |Encode(fs, vs)| == Size(fs, vs)
  {
    if fs != [] {
      SizeExact(fs[1..], vs[1..]);
      match fs[0].kind
      case KBytes => SovIsLength(|vs[0].bytes|);
      case KVarint => SovIsLength(ToUnsigned(vs[0].i));
      case KBool =>
      case KFixed =>
    }
  }

  // ---------- reading ----------

  datatype Got = Wrong(err: Error) | Got(value: Value, rest: seq<byte>)

  function GetBytes(d: seq<byte>): Got {
    match ReadVarint(d)
    case Bad(err) => Wrong(err)
    case Read(len, rest) =>
      if ToSigned(len) < 0 then Wrong(InvalidLength)
      else if len > |rest| then Wrong(UnexpectedEOF)
      else Got(Bytes(rest[..len]), rest[len..])
  }

  function GetValue(k: Kind, d: seq<byte>): Got {
    match k
    case KBytes => GetBytes(d)
    case KVarint =>
      (match ReadVarint(d)
       case Bad(err) => Wrong(err)
       case Read(u, rest) => Got(Int(ToSigned(u)), rest))
    case KBool =>
      (match ReadVarint(d)
       case Bad(err) => Wrong(err)
       case Read(u, rest) => Got(Flag(u != 0), rest))
    case KFixed =>
      if |d| < 8 then Wrong(UnexpectedEOF) else Got(Fixed(ValueOf(d[..8])), d[8..])
  }

  /** int32 of a field number. */
  function Int32(v: nat): int {
    var w := v % 0x1_0000_0000;
    if w >= 0x8000_0000 then w - 0x1_0000_0000 else w
  }

  function FieldAt(fs: seq<Field>, num: int): Option<nat> {
    if fs == [] then None
    else if fs[0].num == num then Some(0)
    else match FieldAt(fs[1..], num)
      case None => None
      case Some(k) => Some(k + 1)
  }

  lemma {:induction false} FieldAtIn(fs: seq<Field>, num: int)
    ensures FieldAt(fs, num).Some? ==> FieldAt(fs, num).value < |fs| && fs[FieldAt(fs, num).value].num == num
  {
    if fs != [] && fs[0].num != num {
      FieldAtIn(fs[1..], num);
    }
  }

  datatype Skipped = SkipBad(err: Error) | Skipped(rest: seq<byte>)

  function Drop(d: seq<byte>, n: nat): (r: Skipped)
    ensures r.Skipped? ==> |r.rest| <= |d|
  {
    if n > |d| then SkipBad(UnexpectedEOF) else Skipped(d[n..])
  }

  /** skipSbf: one field of any kind, its tag included. */
  function Skip(d: seq<byte>): (r: Skipped)
    ensures r.Skipped? ==> |r.rest| < |d|
    decreases |d|, 0
  {
    UvarintShorter(d, 0);
    match ReadVarint(d)
    case Bad(err) => SkipBad(err)
    case Read(wire, rest) =>
      match wire % 8
      case 0 =>
        (UvarintShorter(rest, 0);
         match Uvarint(rest, 0)
         case Bad(err) => SkipBad(err)
         case Read(_, after) => Skipped(after))
      case 1 => Drop(rest, 8)
      case 2 =>
        (UvarintShorter(rest, 0);
         match ReadVarint(rest)
         case Bad(err) => SkipBad(err)
         case Read(len, after) => if ToSigned(len) < 0 then SkipBad(InvalidLength) else Drop(after, len))
      case 3 => SkipGroup(rest)
      case 4 => Skipped(rest)
      case 5 => Drop(rest, 4)
      case _ => SkipBad(IllegalWireType)
  }

  /** The fields of a group, up to its end tag. */
  function SkipGroup(d: seq<byte>): (r: Skipped)
    ensures r.Skipped? ==> |r.rest| <= |d|
    decreases |d|, 1
  {
    UvarintShorter(d, 0);
    match ReadVarint(d)
    case Bad(err) => SkipBad(err)
    case Read(wire, rest) =>
      if wire % 8 == 4 then Skipped(rest)
      else match Skip(d)
        case SkipBad(err) => SkipBad(err)
        case Skipped(after) => SkipGroup(after)
  }

  lemma GetShorter(k: Kind, d: seq<byte>)
    ensures GetValue(k, d).Got? ==> |GetValue(k, d).rest| <= |d|
  {
    UvarintShorter(d, 0);
  }

  datatype Decoded = Failed(err: Error) | Decoded(values: seq<Value>)

  /** Unmarshal: fields in any order, later ones overwriting earlier ones, unknown ones skipped. */
  function Decode(fs: seq<Field>, d: seq<byte>, vs: seq<Value>): Decoded
    requires |fs| == |vs|
    decreases |d|
  {
    if d == [] then Decoded(vs)
    else
      UvarintShorter(d, 0);
      match ReadVarint(d)
      case Bad(err) => Failed(err)
      case Read(wire, rest) =>
        var num := Int32(wire / 8);
        if wire % 8 == 4 then Failed(EndGroup)
        else if num <= 0 then Failed(IllegalTag)
        else match FieldAt(fs, num)
          case None =>
            (match Skip(d)
             case SkipBad(err) => Failed(err)
             case Skipped(after) => Decode(fs, after, vs))
          case Some(k) =>
            FieldAtIn(fs, num);
            GetShorter(fs[k].kind, rest);
            if wire % 8 != WireType(fs[k].kind) then Failed(WrongWireType)
            else match GetValue(fs[k].kind, rest)
              case Wrong(err) => Failed(err)
              case Got(v, after) => Decode(fs, after, vs[k := v])
  }

  function Zeros(fs: seq<Field>): (r: seq<Value>)
    ensures |r| == |fs|
  {
    seq(|fs|, k requires 0 <= k < |fs| => Zero(fs[k].kind))
  }

  // ---------- numbers come back ----------

  function Pow128(k: nat): nat {
    if k == 0 then 1 else 128 * Pow128(k - 1)
  }

  lemma {:induction false} VarintLength(v: nat, k: nat)
    requires k >= 1 && v < Pow128(k)
    ensures |Varint(v)| <= k
  {
    if v >= 128 {
      VarintLength(v / 128, k - 1);
    }
  }

  lemma TenBytes(v: nat)
    requires v < TWO64
    ensures |Varint(v)| <= 10
  {
    assert Pow128(2) == 16384;
    assert Pow128(4) == 16384 * 16384;
    assert Pow128(6) == Pow128(4) * 16384;
    assert Pow128(8) == Pow128(6) * 16384;
    assert Pow128(10) == Pow128(8) * 16384;
    VarintLength(v, 10);
  }

  lemma {:induction false} UvarintBack(v: nat, n: nat, tail: seq<byte>)
    requires n + |Varint(v)| <= 10
    ensures Uvarint(Varint(v) + tail, n) == Read(v, tail)
    decreases v
  {
    var d := Varint(v) + tail;
    if v < 128 {
      assert d[1..] == tail;
    } else {
      UvarintBack(v / 128, n + 1, tail);
      assert d[1..] == Varint(v / 128) + tail;
    }
  }

  /** A varint reads back as the number written, a negative one through all ten bytes. */
  lemma VarintBack(v: nat, tail: seq<byte>)
    requires v < TWO64
    ensures ReadVarint(Varint(v) + tail) == Read(v, tail)
  {
    TenBytes(v);
    UvarintBack(v, 0, tail);
    SmallRead(Varint(v) + tail, v, tail);
  }

  lemma SmallRead(d: seq<byte>, v: nat, rest: seq<byte>)
    requires Uvarint(d, 0) == Read(v, rest) && v < TWO64
    ensures ReadVarint(d) == Read(v, rest)
  {
    assert v % TWO64 == v;
  }

  lemma NegativeTakesTen(i: int)
    requires -TWO63 <= i < 0
    ensures |Varint(ToUnsigned(i))| == 10
  {
    TenBytes(ToUnsigned(i));
    AtLeast(ToUnsigned(i), 9);
    assert Pow128(2) == 16384;
    assert Pow128(4) == 16384 * 16384;
    assert Pow128(6) == Pow128(4) * 16384;
    assert Pow128(8) == Pow128(6) * 16384;
    assert Pow128(9) == Pow128(8) * 128;
  }

  lemma {:induction false} AtLeast(v: nat, k: nat)
    requires v >= Pow128(k)
    ensures |Varint(v)| > k
  {
    if k > 0 {
      PowGrows(k - 1);
      AtLeast(v / 128, k - 1);
    }
  }

  lemma {:induction false} PowGrows(k: nat)
    ensures Pow128(k) >= 1
  {
    if k > 0 {
      PowGrows(k - 1);
    }
  }

  function Pow256(k: nat): nat {
    if k == 0 then 1 else 256 * Pow256(k - 1)
  }

  lemma {:induction false} LittleEndianBack(v: nat, n: nat)
    requires v < Pow256(n)
    ensures ValueOf(LittleEndian(v, n)) == v
  {
    if n > 0 {
      LittleEndianBack(v / 256, n - 1);
    }
  }

  lemma Fixed64Back(v: nat)
    requires v < TWO64
    ensures ValueOf(LittleEndian(v, 8)) == v
  {
    assert Pow256(2) == 65536;
    assert Pow256(4) == 65536 * 65536;
    assert Pow256(6) == Pow256(4) * 65536;
    assert Pow256(8) == Pow256(6) * 65536;
    LittleEndianBack(v, 8);
  }

  // ---------- messages come back ----------

  lemma GetBack(k: Kind, v: Value, tail: seq<byte>)
    requires Fits(k, v)
    ensures GetValue(k, Payload(k, v) + tail) == Got(v, tail)
  {
    match k
    case KBytes =>
      var n := |v.bytes|;
      assert Payload(k, v) + tail == Varint(n) + (v.bytes + tail);
      VarintBack(n, v.bytes + tail);
      assert (v.bytes + tail)[..n] == v.bytes && (v.bytes + tail)[n..] == tail;
    case KVarint =>
      VarintBack(ToUnsigned(v.i), tail);
    case KBool =>
      var u := if v.on then 1 else 0;
      assert Payload(k, v) == Varint(u);
      VarintBack(u, tail);
    case KFixed =>
      var d := LittleEndian(v.u, 8) + tail;
      assert d[..8] == LittleEndian(v.u, 8) && d[8..] == tail;
      Fixed64Back(v.u);
  }

  ghost predicate Distinct(fs: seq<Field>) {
    && (forall k :: 0 <= k < |fs| ==> fs[k].num > 0 && Tag(fs[k]) < 128)
    && (forall j, k :: 0 <= j < k < |fs| ==> fs[j].num != fs[k].num)
  }

  lemma {:induction false} FieldAtIs(fs: seq<Field>, k: nat)
    requires Distinct(fs) && k < |fs|
    ensures FieldAt(fs, fs[k].num) == Some(k)
  {
    if k > 0 {
      FieldAtIs(fs[1..], k - 1);
    }
  }

  lemma TagBack(f: Field, tail: seq<byte>)
    requires Tag(f) < 128 && f.num > 0
    ensures ReadVarint([Tag(f) as byte] + tail) == Read(Tag(f), tail)
    ensures Int32(Tag(f) / 8) == f.num && Tag(f) % 8 == WireType(f.kind)
  {
    assert Varint(Tag(f)) == [Tag(f) as byte];
    VarintBack(Tag(f), tail);
  }

  lemma DecodeField(fs: seq<Field>, k: nat, v: Value, tail: seq<byte>, vs: seq<Value>)
    requires Distinct(fs) && k < |fs| == |vs| && Fits(fs[k].kind, v) && v != Zero(fs[k].kind)
    ensures Decode(fs, EncodeField(fs[k], v) + tail, vs) == Decode(fs, tail, vs[k := v])
  {
    var f := fs[k];
    var p := Payload(f.kind, v);
    var d := EncodeField(f, v) + tail;
    assert d == [Tag(f) as byte] + (p + tail);
    TagBack(f, p + tail);
    FieldAtIs(fs, k);
    GetBack(f.kind, v, tail);
  }

  /** The values before `k` as written, the others still zero. */
  function Partly(fs: seq<Field>, vs: seq<Value>, k: nat): (r: seq<Value>)
    requires |fs| == |vs| && k <= |fs|
    ensures |r| == |fs|
  {
    vs[..k] + Zeros(fs)[k..]
  }

  lemma PartlyNext(fs: seq<Field>, vs: seq<Value>, k: nat)
    requires |fs| == |vs| && k < |fs|
    ensures Partly(fs, vs, k)[k] == Zero(fs[k].kind)
    ensures Partly(fs, vs, k)[k := vs[k]] == Partly(fs, vs, k + 1)
  {
  }

  lemma EncodeNext(fs: seq<Field>, vs: seq<Value>, k: nat)
    requires FitAll(fs, vs) && k < |fs|
    ensures FitAll(fs[k..], vs[k..]) && FitAll(fs[k + 1..], vs[k + 1..])
    ensures Encode(fs[k..], vs[k..]) == EncodeField(fs[k], vs[k]) + Encode(fs[k + 1..], vs[k + 1..])
  {
    assert fs[k..][1..] == fs[k + 1..] && vs[k..][1..] == vs[k + 1..];
  }

  lemma DecodeNext(fs: seq<Field>, vs: seq<Value>, k: nat, tail: seq<byte>)
    requires Distinct(fs) && FitAll(fs, vs) && k < |fs|
    ensures Decode(fs, EncodeField(fs[k], vs[k]) + tail, Partly(fs, vs, k)) == Decode(fs, tail, Partly(fs, vs, k + 1))
  {
    PartlyNext(fs, vs, k);
    if vs[k] == Zero(fs[k].kind) {
      assert EncodeField(fs[k], vs[k]) + tail == tail;
      assert Partly(fs, vs, k)[k := vs[k]] == Partly(fs, vs, k);
    } else {
      DecodeField(fs, k, vs[k], tail, Partly(fs, vs, k));
    }
  }

  lemma {:induction false} DecodeFrom(fs: seq<Field>, vs: seq<Value>, k: nat)
    requires Distinct(fs) && FitAll(fs, vs) && k <= |fs|
    ensures FitAll(fs[k..], vs[k..])
    ensures Decode(fs, Encode(fs[k..], vs[k..]), Partly(fs, vs, k)) == Decoded(vs)
    decreases |fs| - k
  {
    if k == |fs| {
      assert Partly(fs, vs, k) == vs;
    } else {
      EncodeNext(fs, vs, k);
      DecodeFrom(fs, vs, k + 1);
      DecodeNext(fs, vs, k, Encode(fs[k + 1..], vs[k + 1..]));
    }
  }

  lemma RoundTrip(fs: seq<Field>, vs: seq<Value>)
    requires Distinct(fs) && FitAll(fs, vs)
    ensures Decode(fs, Encode(fs, vs), Zeros(fs)) == Decoded(vs)
  {
    DecodeFrom(fs, vs, 0);
    assert fs[0..] == fs && vs[0..] == vs && Partly(fs, vs, 0) == Zeros(fs);
  }

  // ---------- the two messages ----------

  datatype BigFileChunk = BigFileChunk(filepath: seq<byte>, sizeInBytes: int, sendTime: nat, blake2B: seq<byte>,
                                       blake2BCumulative: seq<byte>, data: seq<byte>, chunkNumber: int,
                                       isLastChunk: bool, isBcastSet: bool, originalStartSendTime: nat)

  datatype BigFileAck = BigFileAck(filepath: seq<byte>, sizeInBytes: int, recvTime: nat, wholeFileBlake2B: seq<byte>,
                                   err: seq<byte>)

  const CHUNK := [Field(1, KBytes), Field(2, KVarint), Field(3, KFixed), Field(4, KBytes), Field(5, KBytes),
                  Field(6, KBytes), Field(7, KVarint), Field(8, KBool), Field(9, KBool), Field(10, KFixed)]

  const ACK := [Field(1, KBytes), Field(2, KVarint), Field(3, KFixed), Field(4, KBytes), Field(5, KBytes)]

  /** The tag bytes the generated code writes. */
  lemma ChunkTags()
    ensures |CHUNK| == 10
    ensures [Tag(CHUNK[0]), Tag(CHUNK[1]), Tag(CHUNK[2]), Tag(CHUNK[3]), Tag(CHUNK[4])]
         == [0xa, 0x10, 0x19, 0x22, 0x2a]
    ensures [Tag(CHUNK[5]), Tag(CHUNK[6]), Tag(CHUNK[7]), Tag(CHUNK[8]), Tag(CHUNK[9])]
         == [0x32, 0x38, 0x40, 0x48, 0x51]
  {
  }

  lemma {:induction false} Consecutive(fs: seq<Field>)
    requires |fs| < 15 && forall k :: 0 <= k < |fs| ==> fs[k].num == k + 1
    ensures Distinct(fs)
  {
  }

  function ChunkValues(m: BigFileChunk): seq<Value> {
    [Bytes(m.filepath), Int(m.sizeInBytes), Fixed(m.sendTime), Bytes(m.blake2B), Bytes(m.blake2BCumulative),
     Bytes(m.data), Int(m.chunkNumber), Flag(m.isLastChunk), Flag(m.isBcastSet), Fixed(m.originalStartSendTime)]
  }

  function AckValues(m: BigFileAck): seq<Value> {
    [Bytes(m.filepath), Int(m.sizeInBytes), Fixed(m.recvTime), Bytes(m.wholeFileBlake2B), Bytes(m.err)]
  }

  predicate Int64(i: int) {
    -TWO63 <= i < TWO63
  }

  predicate Length(b: seq<byte>) {
    |b| < TWO63
  }

  /** Values of the Go types. */
  predicate ChunkFits(m: BigFileChunk) {
    && Length(m.filepath) && Length(m.blake2B) && Length(m.blake2BCumulative) && Length(m.data)
    && Int64(m.sizeInBytes) && Int64(m.chunkNumber) && m.sendTime < TWO64 && m.originalStartSendTime < TWO64
  }

  predicate AckFits(m: BigFileAck) {
    && Length(m.filepath) && Length(m.wholeFileBlake2B) && Length(m.err)
    && Int64(m.sizeInBytes) && m.recvTime < TWO64
  }

  /** Every chunk: Marshal writes Size bytes, and Unmarshal of them into a new message gives it back. */
  lemma ChunkRoundTrip(m: BigFileChunk)
    requires ChunkFits(m)
    ensures FitAll(CHUNK, ChunkValues(m))
    ensures |Encode(CHUNK, ChunkValues(m))| == Size(CHUNK, ChunkValues(m))
    ensures Decode(CHUNK, Encode(CHUNK, ChunkValues(m)), Zeros(CHUNK)) == Decoded(ChunkValues(m))
  {
    Consecutive(CHUNK);
    ChunkFitAll(m);
    SizeExact(CHUNK, ChunkValues(m));
    RoundTrip(CHUNK, ChunkValues(m));
  }

  lemma ChunkFitAll(m: BigFileChunk)
    requires ChunkFits(m)
    ensures FitAll(CHUNK, ChunkValues(m))
  {
  }

  /** Every ack. */
  lemma AckRoundTrip(m: BigFileAck)
    requires AckFits(m)
    ensures FitAll(ACK, AckValues(m))
    ensures |Encode(ACK, AckValues(m))| == Size(ACK, AckValues(m))
    ensures Decode(ACK, Encode(ACK, AckValues(m)), Zeros(ACK)) == Decoded(AckValues(m))
  {
    Consecutive(ACK);
    SizeExact(ACK, AckValues(m));
    RoundTrip(ACK, AckValues(m));
  }

  // ---------- from the values back to the message ----------

  predicate ChunkShaped(vs: seq<Value>) {
    && |vs| == 10 && vs[0].Bytes? && vs[1].Int? && vs[2].Fixed? && vs[3].Bytes? && vs[4].Bytes?
    && vs[5].Bytes? && vs[6].Int? && vs[7].Flag? && vs[8].Flag? && vs[9].Fixed?
  }

  predicate AckShaped(vs: seq<Value>) {
    |vs| == 5 && vs[0].Bytes? && vs[1].Int? && vs[2].Fixed? && vs[3].Bytes? && vs[4].Bytes?
  }

  /** The message that Unmarshal has filled with these values. */
  function ChunkOf(vs: seq<Value>): BigFileChunk
    requires ChunkShaped(vs)
  {
    BigFileChunk(vs[0].bytes, vs[1].i, vs[2].u, vs[3].bytes, vs[4].bytes,
                 vs[5].bytes, vs[6].i, vs[7].on, vs[8].on, vs[9].u)
  }

  function AckOf(vs: seq<Value>): BigFileAck
    requires AckShaped(vs)
  {
    BigFileAck(vs[0].bytes, vs[1].i, vs[2].u, vs[3].bytes, vs[4].bytes)
  }

  /** What Unmarshal makes of the bytes Marshal writes is the chunk, field by field. */
  lemma ChunkBack(m: BigFileChunk)
    requires ChunkFits(m)
    ensures FitAll(CHUNK, ChunkValues(m))
    ensures var d := Decode(CHUNK, Encode(CHUNK, ChunkValues(m)), Zeros(CHUNK));
      d.Decoded? && ChunkShaped(d.values) && ChunkOf(d.values) == m
  {
    ChunkRoundTrip(m);
  }

  lemma AckBack(m: BigFileAck)
    requires AckFits(m)
    ensures FitAll(ACK, AckValues(m))
    ensures var d := Decode(ACK, Encode(ACK, AckValues(m)), Zeros(ACK));
      d.Decoded? && AckShaped(d.values) && AckOf(d.values) == m
  {
    AckRoundTrip(m);
  }

  // ---------- the bytes of a message, written out ----------

  /** A field as the generated code writes it: nothing for a zero value, else the tag byte and the value. */
  function BytesPart(tag: byte, b: seq<byte>): seq<byte> {
    if b == [] then [] else [tag] + Varint(|b|) + b
  }

  function IntPart(tag: byte, i: int): seq<byte>
    requires Int64(i)
  {
    if i == 0 then [] else [tag] + Varint(ToUnsigned(i))
  }

  function FixedPart(tag: byte, u: nat): seq<byte> {
    if u == 0 then [] else [tag] + LittleEndian(u, 8)
  }

  function FlagPart(tag: byte, on: bool): seq<byte> {
    if on then [tag, 1] else []
  }

  function ChunkBytes(m: BigFileChunk): seq<byte>
    requires ChunkFits(m)
  {
    Five(BytesPart(0x0a, m.filepath), IntPart(0x10, m.sizeInBytes), FixedPart(0x19, m.sendTime),
         BytesPart(0x22, m.blake2B), BytesPart(0x2a, m.blake2BCumulative))
    + Five(BytesPart(0x32, m.data), IntPart(0x38, m.chunkNumber), FlagPart(0x40, m.isLastChunk),
           FlagPart(0x48, m.isBcastSet), FixedPart(0x51, m.originalStartSendTime))
  }

  function AckBytes(m: BigFileAck): seq<byte>
    requires AckFits(m)
  {
    Five(BytesPart(0x0a, m.filepath), IntPart(0x10, m.sizeInBytes), FixedPart(0x19, m.recvTime),
         BytesPart(0x22, m.wholeFileBlake2B), BytesPart(0x2a, m.err))
  }

  /** One after the other. */
  function Five(a: seq<byte>, b: seq<byte>, c: seq<byte>, d: seq<byte>, e: seq<byte>): seq<byte> {
    a + b + c + d + e
  }

  lemma BytesField(num: nat, b: seq<byte>)
    requires num < 15 && Length(b)
    ensures EncodeField(Field(num, KBytes), Bytes(b)) == BytesPart((num * 8 + 2) as byte, b)
  {
    var tag := (num * 8 + 2) as byte;
    var length := Varint(|b|);
    ConcatAssoc([tag], length, b);
    assert Payload(KBytes, Bytes(b)) == length + b;
  }

  lemma IntField(num: nat, i: int)
    requires num < 15 && Int64(i)
    ensures EncodeField(Field(num, KVarint), Int(i)) == IntPart((num * 8) as byte, i)
  {
  }

  lemma FixedField(num: nat, u: nat)
    requires num < 15 && u < TWO64
    ensures EncodeField(Field(num, KFixed), Fixed(u)) == FixedPart((num * 8 + 1) as byte, u)
  {
  }

  lemma FlagField(num: nat, on: bool)
    requires num < 15
    ensures EncodeField(Field(num, KBool), Flag(on)) == FlagPart((num * 8) as byte, on)
  {
  }

  /** Encoding in two parts. */
  lemma {:induction false} EncodeSplit(fs: seq<Field>, vs: seq<Value>, k: nat)
    requires FitAll(fs, vs) && k <= |fs|
    ensures FitAll(fs[..k], vs[..k]) && FitAll(fs[k..], vs[k..])
    ensures Encode(fs, vs) == Encode(fs[..k], vs[..k]) + Encode(fs[k..], vs[k..])
  {
    if k == 0 {
      assert fs[0..] == fs && vs[0..] == vs;
    } else {
      EncodeSplit(fs[1..], vs[1..], k - 1);
      assert fs[..k][1..] == fs[1..][..k - 1] && vs[..k][1..] == vs[1..][..k - 1];
      assert fs[1..][k - 1..] == fs[k..] && vs[1..][k - 1..] == vs[k..];
      ConcatAssoc(EncodeField(fs[0], vs[0]), Encode(fs[..k][1..], vs[..k][1..]), Encode(fs[k..], vs[k..]));
    }
  }

  lemma EncodeSnoc(fs: seq<Field>, vs: seq<Value>, k: nat)
    requires FitAll(fs, vs) && k < |fs|
    ensures FitAll(fs[..k], vs[..k]) && FitAll(fs[..k + 1], vs[..k + 1])
    ensures Encode(fs[..k + 1], vs[..k + 1]) == Encode(fs[..k], vs[..k]) + EncodeField(fs[k], vs[k])
  {
    var gs, us := fs[..k + 1], vs[..k + 1];
    EncodeSplit(gs, us, k);
    assert gs[..k] == fs[..k] && us[..k] == vs[..k];
    assert gs[k..] == [fs[k]] && us[k..] == [vs[k]];
    ConcatNothing(EncodeField(fs[k], vs[k]));
  }

  lemma EncodeThree(fs: seq<Field>, vs: seq<Value>)
    requires FitAll(fs, vs) && |fs| >= 3
    ensures FitAll(fs[..3], vs[..3])
    ensures Encode(fs[..3], vs[..3])
         == EncodeField(fs[0], vs[0]) + EncodeField(fs[1], vs[1]) + EncodeField(fs[2], vs[2])
  {
    EncodeSnoc(fs, vs, 0);
    EncodeSnoc(fs, vs, 1);
    EncodeSnoc(fs, vs, 2);
    ConcatNothing(EncodeField(fs[0], vs[0]));
  }

  lemma EncodeFive(fs: seq<Field>, vs: seq<Value>)
    requires FitAll(fs, vs) && |fs| == 5
    ensures Encode(fs, vs) == Five(EncodeField(fs[0], vs[0]), EncodeField(fs[1], vs[1]), EncodeField(fs[2], vs[2]),
                                   EncodeField(fs[3], vs[3]), EncodeField(fs[4], vs[4]))
  {
    EncodeThree(fs, vs);
    EncodeSnoc(fs, vs, 3);
    EncodeSnoc(fs, vs, 4);
    assert fs[..5] == fs && vs[..5] == vs;
  }

  /** The first five fields, which chunks and acks share. */
  lemma FirstFive(fs: seq<Field>, vs: seq<Value>, a: seq<byte>, i: int, u: nat, b: seq<byte>, c: seq<byte>)
    requires FitAll(fs, vs) && Length(a) && Int64(i) && u < TWO64 && Length(b) && Length(c)
    requires fs == [Field(1, KBytes), Field(2, KVarint), Field(3, KFixed), Field(4, KBytes), Field(5, KBytes)]
    requires vs == [Bytes(a), Int(i), Fixed(u), Bytes(b), Bytes(c)]
    ensures Encode(fs, vs) == Five(BytesPart(0x0a, a), IntPart(0x10, i), FixedPart(0x19, u),
                                   BytesPart(0x22, b), BytesPart(0x2a, c))
  {
    EncodeFive(fs, vs);
    BytesField(1, a);
    IntField(2, i);
    FixedField(3, u);
    BytesField(4, b);
    BytesField(5, c);
  }

  lemma LastFive(fs: seq<Field>, vs: seq<Value>, a: seq<byte>, i: int, f: bool, g: bool, u: nat)
    requires FitAll(fs, vs) && Length(a) && Int64(i) && u < TWO64
    requires fs == [Field(6, KBytes), Field(7, KVarint), Field(8, KBool), Field(9, KBool), Field(10, KFixed)]
    requires vs == [Bytes(a), Int(i), Flag(f), Flag(g), Fixed(u)]
    ensures Encode(fs, vs) == Five(BytesPart(0x32, a), IntPart(0x38, i), FlagPart(0x40, f),
                                   FlagPart(0x48, g), FixedPart(0x51, u))
  {
    EncodeFive(fs, vs);
    BytesField(6, a);
    IntField(7, i);
    FlagField(8, f);
    FlagField(9, g);
    FixedField(10, u);
  }

  /** Marshal of every chunk, byte for byte. */
  lemma ChunkSpelled(m: BigFileChunk)
    requires ChunkFits(m)
    ensures FitAll(CHUNK, ChunkValues(m)) && Encode(CHUNK, ChunkValues(m)) == ChunkBytes(m)
  {
    ChunkFitAll(m);
    EncodeSplit(CHUNK, ChunkValues(m), 5);
    FirstFive(CHUNK[..5], ChunkValues(m)[..5], m.filepath, m.sizeInBytes, m.sendTime, m.blake2B, m.blake2BCumulative);
    LastFive(CHUNK[5..], ChunkValues(m)[5..], m.data, m.chunkNumber, m.isLastChunk, m.isBcastSet,
             m.originalStartSendTime);
  }

  /** Marshal of every ack, byte for byte. */
  lemma AckSpelled(m: BigFileAck)
    requires AckFits(m)
    ensures FitAll(ACK, AckValues(m)) && Encode(ACK, AckValues(m)) == AckBytes(m)
  {
    FirstFive(ACK, AckValues(m), m.filepath, m.sizeInBytes, m.recvTime, m.wholeFileBlake2B, m.err);
  }
}
