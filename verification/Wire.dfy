/**
  The wire format under the generated code of serialization/: varints, tags and records, as in the
  sections "Base 128 Varints" and "Message Structure" of the Protocol Buffers Encoding specification.
 */
module Wire {
  import opened Words
  import opened Wrappers

  type Byte = n: nat | n < 256
  type Bytes = seq<Byte>

  // ---------------------------------------------------------------- varints

  function Varint(n: nat): (r: Bytes)
    ensures |r| >= 1
  {
    if n < 128 then [n] else [n % 128 + 128] + Varint(n / 128)
  }

  /** A varint of at most `max` bytes, with the number of bytes it takes. */
  function ReadVarint(b: Bytes, max: nat): (r: Option<(nat, nat)>)
    ensures r.Some? ==> 1 <= r.value.1 <= |b| && r.value.1 <= max
    decreases max
  {
    if b == [] || max == 0 then None
    else if b[0] < 128 then Some((b[0], 1))
    else
      match ReadVarint(b[1..], max - 1)
      case None => None
      case Some((v, used)) => Some((b[0] - 128 + 128 * v, used + 1))
  }

  /** Numbers that take at most `max` bytes. */
  predicate FitsVarint(n: nat, max: nat) {
    max > 0 && (n < 128 || FitsVarint(n / 128, max - 1))
  }

  lemma {:induction false} VarintRoundTrip(n: nat, max: nat, rest: Bytes)
    requires FitsVarint(n, max)
    ensures ReadVarint(Varint(n) + rest, max) == Some((n, |Varint(n)|))
    decreases n
  {
    var b := Varint(n) + rest;
    if n < 128 {
      assert b[0] == n;
    } else {
      VarintRoundTrip(n / 128, max - 1, rest);
      assert b[0] == n % 128 + 128;
      assert b[1..] == Varint(n / 128) + rest;
    }
  }

  lemma WordsFit(n: nat)
    ensures n < WORD64 ==> FitsVarint(n, 10)
    ensures n < WORD32 ==> FitsVarint(n, 5)
  {
    if n < WORD64 {
      var n3 := n / 128 / 128 / 128;
      var n6 := n3 / 128 / 128 / 128;
      var n9 := n6 / 128 / 128 / 128;
      assert n9 < 2;
      assert FitsVarint(n9, 1);
      assert FitsVarint(n6, 4);
      assert FitsVarint(n3, 7);
    }
    if n < WORD32 {
      assert FitsVarint(n / 128 / 128 / 128, 2);
    }
  }

  // ---------------------------------------------------------------- records

  /** One field as it stands on the wire; groups are not modelled. */
  datatype Payload = PVarint(n: nat) | PFixed64(bytes: Bytes) | PBytes(bytes: Bytes) | PFixed32(bytes: Bytes)

  datatype Record = Record(number: nat, payload: Payload)

  function WireType(p: Payload): nat {
    match p
    case PVarint(_) => 0
    case PFixed64(_) => 1
    case PBytes(_) => 2
    case PFixed32(_) => 5
  }

  /** What fits the format: 29-bit field numbers, 64-bit varints, lengths below 2^31 - 16. */
  predicate Encodable(r: Record) {
    && 1 <= r.number < 0x2000_0000
    && match r.payload
       case PVarint(n) => n < WORD64
       case PFixed64(b) => |b| == 8
       case PBytes(b) => |b| <= 0x7fff_ffef
       case PFixed32(b) => |b| == 4
  }

  function EncodePayload(p: Payload): Bytes {
    match p
    case PVarint(n) => Varint(n)
    case PFixed64(b) => b
    case PBytes(b) => Varint(|b|) + b
    case PFixed32(b) => b
  }

  function EncodeRecord(r: Record): (b: Bytes)
    ensures |b| >= 1
  {
    Varint(8 * r.number + WireType(r.payload)) + EncodePayload(r.payload)
  }

  function EncodeRecords(rs: seq<Record>): Bytes {
    if rs == [] then [] else EncodeRecord(rs[0]) + EncodeRecords(rs[1..])
  }

  /** The payload behind a tag, with the bytes it takes; a group, or an unknown wire type, is not read. */
  function ReadPayload(wire: nat, b: Bytes): (r: Option<(Payload, nat)>)
    ensures r.Some? ==> r.value.1 <= |b|
    ensures r.Some? && r.value.0.PBytes? ==> |r.value.0.bytes| <= |b|
  {
    match wire
    case 0 => (match ReadVarint(b, 10) case None => None case Some((n, used)) => Some((PVarint(n % WORD64), used)))
    case 1 => if |b| < 8 then None else Some((PFixed64(b[..8]), 8))
    case 2 =>
      (match ReadVarint(b, 5)
       case None => None
       case Some((n, used)) =>
         if n > 0x7fff_ffef || |b| < used + n then None else Some((PBytes(b[used..used + n]), used + n)))
    case 5 => if |b| < 4 then None else Some((PFixed32(b[..4]), 4))
    case _ => None
  }

  /** The next record and the bytes it takes; `None` stops the parse without success. */
  function ReadRecord(b: Bytes): (r: Option<(Record, nat)>)
    ensures r.Some? ==> 1 <= r.value.1 <= |b|
    ensures r.Some? && r.value.0.payload.PBytes? ==> |r.value.0.payload.bytes| < |b|
  {
    match ReadVarint(b, 5)
    case None => None
    case Some((v, used)) =>
      var tag := v % WORD32;
      if tag / 8 == 0 then None
      else
        match ReadPayload(tag % 8, b[used..])
        case None => None
        case Some((p, more)) => Some((Record(tag / 8, p), used + more))
  }

  lemma PayloadRoundTrip(r: Record, rest: Bytes)
    requires Encodable(r)
    ensures ReadPayload(WireType(r.payload), EncodePayload(r.payload) + rest) == Some((r.payload, |EncodePayload(r.payload)|))
  {
    hide ReadVarint, Varint, FitsVarint;
    var b := EncodePayload(r.payload) + rest;
    match r.payload
    case PVarint(n) =>
      WordsFit(n);
      VarintRoundTrip(n, 10, rest);
    case PBytes(bytes) =>
      WordsFit(|bytes|);
      VarintRoundTrip(|bytes|, 5, bytes + rest);
      assert b == Varint(|bytes|) + (bytes + rest);
      assert b[|Varint(|bytes|)|..|Varint(|bytes|)| + |bytes|] == bytes;
    case PFixed64(bytes) => assert b[..8] == bytes;
    case PFixed32(bytes) => assert b[..4] == bytes;
  }

  lemma RecordRoundTrip(r: Record, rest: Bytes)
    requires Encodable(r)
    ensures ReadRecord(EncodeRecord(r) + rest) == Some((r, |EncodeRecord(r)|))
  {
    hide ReadVarint, Varint, ReadPayload, EncodePayload, FitsVarint;
    var tag := 8 * r.number + WireType(r.payload);
    var b := EncodeRecord(r) + rest;
    var tail := EncodePayload(r.payload) + rest;
    WordsFit(tag);
    assert b == Varint(tag) + tail;
    VarintRoundTrip(tag, 5, tail);
    assert b[|Varint(tag)|..] == tail;
    PayloadRoundTrip(r, rest);
  }

  // ---------------------------------------------------------------- reading past the end

  /** What lies behind the end of the bytes given to a parse: they are copied into a zeroed buffer. */
  const ZEROS: Bytes := [0, 0, 0, 0, 0, 0, 0, 0, 0, 0, 0, 0, 0, 0, 0, 0]

  /** Bytes behind do not change what is read, unless the reading runs into them. */
  lemma {:induction false} VarintPrefix(b: Bytes, behind: Bytes, max: nat)
    ensures match ReadVarint(b + behind, max)
            case None => ReadVarint(b, max) == None
            case Some((n, used)) => ReadVarint(b, max) == if used <= |b| then Some((n, used)) else None
    decreases max
  {
    if b != [] && max > 0 && b[0] >= 128 {
      VarintPrefix(b[1..], behind, max - 1);
      assert (b + behind)[1..] == b[1..] + behind;
    }
  }

  lemma PayloadPrefix(wire: nat, b: Bytes, behind: Bytes)
    ensures match ReadPayload(wire, b + behind)
            case None => ReadPayload(wire, b) == None
            case Some((p, used)) => ReadPayload(wire, b) == if used <= |b| then Some((p, used)) else None
  {
    hide ReadVarint;
    var all := b + behind;
    match wire
    case 0 => VarintPrefix(b, behind, 10);
    case 1 => if |b| >= 8 { assert all[..8] == b[..8]; }
    case 2 =>
      VarintPrefix(b, behind, 5);
      match ReadVarint(b, 5) {
        case None =>
        case Some((n, used)) => if |b| >= used + n { assert all[used..used + n] == b[used..used + n]; }
      }
    case 5 => if |b| >= 4 { assert all[..4] == b[..4]; }
    case _ =>
  }

  lemma RecordPrefix(b: Bytes, behind: Bytes)
    ensures match ReadRecord(b + behind)
            case None => ReadRecord(b) == None
            case Some((r, used)) => ReadRecord(b) == if used <= |b| then Some((r, used)) else None
  {
    hide ReadVarint, ReadPayload;
    VarintPrefix(b, behind, 5);
    match ReadVarint(b + behind, 5)
    case None =>
    case Some((v, used)) =>
      if used <= |b| {
        assert (b + behind)[used..] == b[used..] + behind;
        PayloadPrefix(v % WORD32 % 8, b[used..], behind);
      }
  }

  lemma {:induction false} EncodeConcat(a: seq<Record>, b: seq<Record>)
    ensures EncodeRecords(a + b) == EncodeRecords(a) + EncodeRecords(b)
  {
    if a == [] {
      assert a + b == b;
    } else {
      assert (a + b)[1..] == a[1..] + b;
      EncodeConcat(a[1..], b);
    }
  }

  // ---------------------------------------------------------------- sizes

  function VarintSize(n: nat): nat {
    if n < 128 then 1 else 1 + VarintSize(n / 128)
  }

  lemma {:induction false} VarintSizeIsLength(n: nat)
    ensures |Varint(n)| == VarintSize(n)
  {
    if n >= 128 {
      VarintSizeIsLength(n / 128);
    }
  }

  /** The wire type in the low bits does not change the size of a tag. */
  lemma TagSize(number: nat, wire: nat)
    requires wire < 8
    ensures |Varint(8 * number + wire)| == VarintSize(8 * number)
  {
    VarintSizeIsLength(8 * number + wire);
    if 8 * number + wire >= 128 {
      assert (8 * number + wire) / 128 == (8 * number) / 128;
    }
  }

  /** A sign-extended negative number always takes ten bytes. */
  lemma NegativeSize(n: nat)
    requires 0x8000_0000_0000_0000 <= n < WORD64
    ensures VarintSize(n) == 10
  {
    var n3 := n / 128 / 128 / 128;
    var n6 := n3 / 128 / 128 / 128;
    ThreeBytesMore(n6);
    ThreeBytesMore(n3);
    ThreeBytesMore(n);
    assert VarintSize(n6 / 128 / 128 / 128) == 1;
  }

  lemma ThreeBytesMore(n: nat)
    requires n >= 128 * 128 * 128
    ensures VarintSize(n) == 3 + VarintSize(n / 128 / 128 / 128)
  {
    assert VarintSize(n) == 1 + VarintSize(n / 128);
    assert VarintSize(n / 128) == 1 + VarintSize(n / 128 / 128);
  }
}
