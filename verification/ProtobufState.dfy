/** The generated code as it works: index-driven loops over byte arrays. */
module ProtobufState {
  import opened Common
  import opened Protobuf

  /** Writes from `at` to `i` hold `bytes`; everything else is as before. */
  ghost predicate Wrote(before: seq<byte>, after: seq<byte>, at: nat, i: nat, bytes: seq<byte>) {
    && |after| == |before| && at <= i <= |after| && after[at..i] == bytes
    && after[..at] == before[..at] && after[i..] == before[i..]
  }

  lemma WroteMore(a: seq<byte>, b: seq<byte>, c: seq<byte>, at: nat, i: nat, j: nat, x: seq<byte>, y: seq<byte>)
    requires Wrote(a, b, at, i, x) && Wrote(b, c, i, j, y)
    ensures Wrote(a, c, at, j, x + y)
  {
    assert c[at..j] == c[at..i] + c[i..j];
    assert c[at..i] == c[..i][at..] && b[..i][at..] == b[at..i];
    assert c[..at] == c[..i][..at] && b[..at] == b[..i][..at];
    assert c[j..] == b[j..] && b[j..] == b[i..][j - i..] && a[j..] == a[i..][j - i..];
  }

  method PutByte(a: array<byte>, at: nat, b: byte) returns (i: nat)
    requires at < a.Length
    modifies a
    ensures i == at + 1 && Wrote(old(a[..]), a[..], at, i, [b])
  {
    a[at] := b;
    i := at + 1;
  }

  /** encodeVarintSbf */
  method PutVarint(a: array<byte>, at: nat, x: nat) returns (i: nat)
    requires at + |Varint(x)| <= a.Length
    modifies a
    ensures i == at + |Varint(x)| && Wrote(old(a[..]), a[..], at, i, Varint(x))
  {
    var v := x;
    i := at;
    ghost var done: seq<byte> := [];
    while v >= 128
      invariant at <= i && i + |Varint(v)| <= a.Length
      invariant done + Varint(v) == Varint(x) && i == at + |done|
      invariant Wrote(old(a[..]), a[..], at, i, done)
    {
      ghost var before := a[..];
      ghost var b := (v % 128 + 128) as byte;
      var j := PutByte(a, i, (v % 128 + 128) as byte);
      WroteMore(old(a[..]), before, a[..], at, i, j, done, [b]);
      VarintNext(v);
      ConcatAssoc(done, [b], Varint(v / 128));
      done := done + [b];
      i := j;
      v := v / 128;
    }
    ghost var before := a[..];
    var j := PutByte(a, i, v as byte);
    WroteMore(old(a[..]), before, a[..], at, i, j, done, [v as byte]);
    i := j;
  }

  /** encodeFixed64Sbf, for any number of bytes. */
  method PutFixed(a: array<byte>, at: nat, x: nat, n: nat) returns (i: nat)
    requires at + n <= a.Length
    modifies a
    ensures i == at + n && Wrote(old(a[..]), a[..], at, i, LittleEndian(x, n))
  {
    var v := x;
    i := at;
    ghost var done: seq<byte> := [];
    for k := 0 to n
      invariant i == at + k && |done| == k
      invariant done + LittleEndian(v, n - k) == LittleEndian(x, n)
      invariant Wrote(old(a[..]), a[..], at, i, done)
    {
      ghost var before := a[..];
      ghost var b := (v % 256) as byte;
      var j := PutByte(a, i, (v % 256) as byte);
      WroteMore(old(a[..]), before, a[..], at, i, j, done, [b]);
      FixedNext(v, n - k);
      ConcatAssoc(done, [b], LittleEndian(v / 256, n - k - 1));
      done := done + [b];
      i := j;
      v := v / 256;
    }
    ConcatNothing(done);
  }

  lemma VarintNext(v: nat)
    requires v >= 128
    ensures Varint(v) == [(v % 128 + 128) as byte] + Varint(v / 128)
  {
  }

  lemma FixedNext(v: nat, n: nat)
    requires n > 0
    ensures LittleEndian(v, n) == [(v % 256) as byte] + LittleEndian(v / 256, n - 1)
  {
  }

  method PutBytes(a: array<byte>, at: nat, bytes: seq<byte>) returns (i: nat)
    requires at + |bytes| <= a.Length
    modifies a
    ensures i == at + |bytes| && Wrote(old(a[..]), a[..], at, i, bytes)
  {
    forall k | 0 <= k < |bytes| {
      a[at + k] := bytes[k];
    }
    i := at + |bytes|;
  }

  method PutPayload(a: array<byte>, at: nat, k: Kind, v: Value) returns (i: nat)
    requires Fits(k, v) && at + |Payload(k, v)| <= a.Length
    modifies a
    ensures i == at + |Payload(k, v)| && Wrote(old(a[..]), a[..], at, i, Payload(k, v))
  {
    match k
    case KBytes =>
      i := PutVarint(a, at, |v.bytes|);
      ghost var before := a[..];
      var j := PutBytes(a, i, v.bytes);
      WroteMore(old(a[..]), before, a[..], at, i, j, Varint(|v.bytes|), v.bytes);
      i := j;
    case KVarint => i := PutVarint(a, at, ToUnsigned(v.i));
    case KBool => i := PutByte(a, at, if v.on then 1 else 0);
    case KFixed => i := PutFixed(a, at, v.u, 8);
  }

  method PutField(a: array<byte>, at: nat, f: Field, v: Value) returns (i: nat)
    requires Fits(f.kind, v) && Tag(f) < 128 && at + |EncodeField(f, v)| <= a.Length
    modifies a
    ensures i == at + |EncodeField(f, v)| && Wrote(old(a[..]), a[..], at, i, EncodeField(f, v))
  {
    i := at;
    if v != Zero(f.kind) {
      i := PutByte(a, at, Tag(f) as byte);
      ghost var before := a[..];
      var j := PutPayload(a, i, f.kind, v);
      WroteMore(old(a[..]), before, a[..], at, i, j, [Tag(f) as byte], Payload(f.kind, v));
      i := j;
    }
  }

  /** MarshalTo: the fields that are not zero, in order, into an array of at least Size bytes. */
  method MarshalTo(fs: seq<Field>, vs: seq<Value>, a: array<byte>) returns (n: nat)
    requires FitAll(fs, vs) && Size(fs, vs) <= a.Length
    modifies a
    ensures n == Size(fs, vs) && a[..n] == Encode(fs, vs)
  {
    SizeExact(fs, vs);
    n := 0;
    ghost var done: seq<byte> := [];
    for k := 0 to |fs|
      invariant FitAll(fs[k..], vs[k..]) && done + Encode(fs[k..], vs[k..]) == Encode(fs, vs)
      invariant n == |done| && Wrote(old(a[..]), a[..], 0, n, done)
    {
      EncodeNext(fs, vs, k);
      ghost var part, rest := EncodeField(fs[k], vs[k]), Encode(fs[k + 1..], vs[k + 1..]);
      ConcatAssoc(done, part, rest);
      ghost var before := a[..];
      var i := PutField(a, n, fs[k], vs[k]);
      WroteMore(old(a[..]), before, a[..], 0, n, i, done, part);
      n := i;
      done := done + part;
    }
    NothingAfter(done);
  }

  lemma NothingAfter(a: seq<byte>)
    ensures a + [] == a
  {
  }

  /** sovSbf */
  method SovOf(v: nat) returns (n: nat)
    ensures n == Sov(v)
  {
    n := 1;
    var x: nat := v / 128;
    while x != 0
      invariant n + (if x == 0 then 0 else Sov(x)) == Sov(v)
      decreases x
    {
      n := n + 1;
      x := x / 128;
    }
  }

  // ---------- reading ----------

  lemma ModPlus(x: int, y: int)
    ensures (x % TWO64 + y) % TWO64 == (x + y) % TWO64
  {
    var q, k := x / TWO64, (x % TWO64 + y) / TWO64;
    assert x + y == TWO64 * (q + k) + (x % TWO64 + y) % TWO64;
  }

  /** One more seven-bit digit, with the bits above the 64th dropped. */
  lemma DigitStep(acc: nat, w: nat, lo: nat, v: nat)
    ensures ((acc + lo * w) % TWO64 + (w * 128) * v) % TWO64 == (acc + w * (lo + 128 * v)) % TWO64
  {
    ModPlus(acc + lo * w, (w * 128) * v);
    assert w * (lo + 128 * v) == lo * w + (w * 128) * v;
  }

  /** What is read so far and what is still to come make the whole number. */
  ghost predicate Reading(whole: Read, rest: Read, acc: nat, w: nat) {
    match rest
    case Bad(err) => whole == Bad(err)
    case Read(v, after) => whole.Read? && whole.rest == after && whole.value % TWO64 == (acc + w * v) % TWO64
  }

  lemma LastDigit(whole: Read, d: seq<byte>, n: nat, acc: nat, w: nat)
    requires n < 10 && d != [] && d[0] as int < 128 && Reading(whole, Uvarint(d, n), acc, w)
    ensures whole.Read? && whole.rest == d[1..] && whole.value % TWO64 == (acc + (d[0] as int) * w) % TWO64
  {
    assert w * (d[0] as int) == (d[0] as int) * w;
  }

  lemma NextDigit(whole: Read, d: seq<byte>, n: nat, acc: nat, w: nat)
    requires n < 10 && d != [] && d[0] as int >= 128 && Reading(whole, Uvarint(d, n), acc, w)
    ensures Reading(whole, Uvarint(d[1..], n + 1), (acc + (d[0] as int - 128) * w) % TWO64, w * 128)
  {
    if Uvarint(d[1..], n + 1).Read? {
      DigitStep(acc, w, d[0] as int - 128, Uvarint(d[1..], n + 1).value);
    }
  }

  lemma ReadingStep(whole: Read, d: seq<byte>, n: nat, acc: nat, w: nat)
    requires n < 10 && d != [] && Reading(whole, Uvarint(d, n), acc, w)
    ensures var b := d[0] as int;
            var next := (acc + (b % 128) * w) % TWO64;
            if b < 128 then whole.Read? && whole.rest == d[1..] && whole.value % TWO64 == next
            else Reading(whole, Uvarint(d[1..], n + 1), next, w * 128)
  {
    if d[0] as int < 128 {
      LastDigit(whole, d, n, acc, w);
    } else {
      NextDigit(whole, d, n, acc, w);
    }
  }

  /** The varint loop: seven bits a byte, at most ten bytes. `shift` is seven times the bytes read. */
  method GetVarint(d: seq<byte>, at: nat) returns (err: Option<Error>, v: nat, i: nat)
    requires at <= |d|
    ensures err.None? ==> at < i <= |d| && ReadVarint(d[at..]) == Read(v, d[i..])
    ensures err.Some? ==> ReadVarint(d[at..]) == Bad(err.value)
  {
    err, v, i := None, 0, at;
    var shift, w: nat := 0, 1;
    ghost var whole := Uvarint(d[at..], 0);
    while true
      invariant at <= i <= |d| && shift == 7 * (i - at) && err.None?
      invariant Reading(whole, Uvarint(d[i..], i - at), v, w)
      decreases |d| - i
    {
      if shift >= 64 {
        return Some(IntOverflow), 0, i;
      }
      if i >= |d| {
        return Some(UnexpectedEOF), 0, i;
      }
      var b := d[i] as int;
      ReadingStep(whole, d[i..], i - at, v, w);
      assert d[i..][1..] == d[i + 1..];
      v := (v + (b % 128) * w) % TWO64;
      i := i + 1;
      if b < 128 {
        return;
      }
      shift, w := shift + 7, w * 128;
    }
  }

  method GetPayload(d: seq<byte>, at: nat, k: Kind) returns (err: Option<Error>, v: Value, i: nat)
    requires at <= |d|
    ensures err.None? ==> at <= i <= |d| && GetValue(k, d[at..]) == Got(v, d[i..])
    ensures err.Some? ==> GetValue(k, d[at..]) == Wrong(err.value)
  {
    v, i := Zero(k), at;
    if k == KFixed {
      if at + 8 > |d| {
        return Some(UnexpectedEOF), v, at;
      }
      assert d[at..][..8] == d[at..at + 8] && d[at..][8..] == d[at + 8..];
      return None, Fixed(ValueOf(d[at..at + 8])), at + 8;
    }
    var u;
    err, u, i := GetVarint(d, at);
    if err.Some? {
      return;
    }
    match k
    case KBytes =>
      if ToSigned(u) < 0 {
        err := Some(InvalidLength);
      } else if i + u > |d| {
        err := Some(UnexpectedEOF);
      } else {
        assert d[i..][..u] == d[i..i + u] && d[i..][u..] == d[i + u..];
        v, i := Bytes(d[i..i + u]), i + u;
      }
    case KVarint => v := Int(ToSigned(u));
    case KBool => v := Flag(u != 0);
    case KFixed => assert false;
  }

  /** Unmarshal into a message with the values `start`. */
  method Unmarshal(fs: seq<Field>, d: seq<byte>, start: seq<Value>) returns (err: Option<Error>, vs: seq<Value>)
    requires |fs| == |start|
    ensures err.None? ==> Decode(fs, d, start) == Decoded(vs)
    ensures err.Some? ==> Decode(fs, d, start) == Failed(err.value)
  {
    vs, err := start, None;
    var i := 0;
    assert d[0..] == d;
    while i < |d|
      invariant 0 <= i <= |d| && |vs| == |fs| && err.None?
      invariant Decode(fs, d[i..], vs) == Decode(fs, d, start)
      decreases |d| - i
    {
      var before := i;
      var wire;
      err, wire, i := GetVarint(d, i);
      if err.Some? {
        return;
      }
      var num := Int32(wire / 8);
      if wire % 8 == 4 {
        return Some(EndGroup), vs;
      }
      if num <= 0 {
        return Some(IllegalTag), vs;
      }
      var k := FieldAt(fs, num);
      FieldAtIn(fs, num);
      if k.None? {
        var skipped := Skip(d[before..]);
        if skipped.SkipBad? {
          return Some(skipped.err), vs;
        }
        SkipIsSuffix(d[before..]);
        i := |d| - |skipped.rest|;
        assert d[i..] == skipped.rest by {
          assert d[before..][|d| - before - |skipped.rest|..] == skipped.rest;
        }
      } else {
        if wire % 8 != WireType(fs[k.value].kind) {
          return Some(WrongWireType), vs;
        }
        var v;
        err, v, i := GetPayload(d, i, fs[k.value].kind);
        if err.Some? {
          return;
        }
        vs := vs[k.value := v];
      }
    }
  }

  ghost predicate Suffix(t: seq<byte>, d: seq<byte>) {
    |t| <= |d| && d[|d| - |t|..] == t
  }

  lemma SuffixTrans(t: seq<byte>, s: seq<byte>, d: seq<byte>)
    requires Suffix(t, s) && Suffix(s, d)
    ensures Suffix(t, d)
  {
    assert d[|d| - |t|..] == d[|d| - |s|..][|s| - |t|..];
  }

  lemma {:induction false} UvarintSuffix(d: seq<byte>, n: nat)
    ensures Uvarint(d, n).Read? ==> Suffix(Uvarint(d, n).rest, d)
    decreases |d|
  {
    if n < 10 && d != [] {
      assert Suffix(d[1..], d);
      if d[0] as int >= 128 && Uvarint(d[1..], n + 1).Read? {
        UvarintSuffix(d[1..], n + 1);
        SuffixTrans(Uvarint(d[1..], n + 1).rest, d[1..], d);
      }
    }
  }

  lemma DropSuffix(d: seq<byte>, n: nat)
    ensures Drop(d, n).Skipped? ==> Suffix(Drop(d, n).rest, d)
  {
  }

  /** Skipping never invents bytes: what is left is the end of what was there. */
  lemma {:induction false} SkipIsSuffix(d: seq<byte>)
    ensures Skip(d).Skipped? ==> Suffix(Skip(d).rest, d)
    decreases |d|, 0
  {
    if Skip(d).Skipped? {
      UvarintSuffix(d, 0);
      UvarintShorter(d, 0);
      var r := ReadVarint(d);
      var rest := r.rest;
      UvarintSuffix(rest, 0);
      if r.value % 8 == 1 {
        DropSuffix(rest, 8);
      } else if r.value % 8 == 2 {
        DropSuffix(ReadVarint(rest).rest, ReadVarint(rest).value);
        SuffixTrans(Skip(d).rest, ReadVarint(rest).rest, rest);
      } else if r.value % 8 == 3 {
        GroupIsSuffix(rest);
      } else if r.value % 8 == 5 {
        DropSuffix(rest, 4);
      }
      SuffixTrans(Skip(d).rest, rest, d);
    }
  }

  lemma {:induction false} GroupIsSuffix(d: seq<byte>)
    ensures SkipGroup(d).Skipped? ==> Suffix(SkipGroup(d).rest, d)
    decreases |d|, 1
  {
    if SkipGroup(d).Skipped? {
      UvarintSuffix(d, 0);
      if ReadVarint(d).value % 8 != 4 {
        SkipIsSuffix(d);
        GroupIsSuffix(Skip(d).rest);
        SuffixTrans(SkipGroup(d).rest, Skip(d).rest, d);
      }
    }
  }
}
