/**
  What the generated parse and serialize code of serialization/ does for a message type, given its list
  of fields: one loop over the records of the wire, one clause per field, everything else kept as unknown.
 */
module Messages {
  import opened Words
  import opened Wire
  import opened Wrappers

  /** How a clause of the generated code reads and writes its field. */
  datatype Kind =
    | KInt32
    | KUInt32
    | KEnum(limit: nat)
    | KDouble
    | KString
    | KMessage(schema: Schema)
    | KRepeated(schema: Schema)

  datatype Field = Field(number: nat, kind: Kind)

  datatype Schema = Schema(fields: seq<Field>)

  /** A set field. A repeated field that is set has at least one element. */
  datatype Value =
    | VInt(n: int)
    | VDouble(bytes: Bytes)
    | VString(bytes: Bytes)
    | VMessage(m: Message)
    | VMessages(ms: seq<Message>)

  /** The fields of the schema in order, and the records no clause took. */
  datatype Message = Message(fields: seq<Option<Value>>, unknown: seq<Record>)

  function Empty(schema: Schema): Message {
    Message(seq(|schema.fields|, _ => None), [])
  }

  // ---------------------------------------------------------------- schemas and the messages they allow

  ghost predicate SchemaOk(schema: Schema) {
    && (forall i, j | 0 <= i < j < |schema.fields| :: schema.fields[i].number != schema.fields[j].number)
    && (forall i | 0 <= i < |schema.fields| :: FieldOk(schema.fields[i]))
  }

  ghost predicate FieldOk(field: Field) {
    && 1 <= field.number < 0x2000_0000
    && match field.kind
       case KEnum(limit) => 1 <= limit <= 0x8000_0000
       case KMessage(sub) => SchemaOk(sub)
       case KRepeated(sub) => SchemaOk(sub)
       case _ => true
  }

  predicate IsScalar(kind: Kind) {
    !kind.KMessage? && !kind.KRepeated?
  }

  /** A message the setters can build: values in range, serialized parts within the length limit. */
  ghost predicate MessageOk(schema: Schema, m: Message)
    decreases m
  {
    && |m.fields| == |schema.fields|
    && (forall i | 0 <= i < |m.fields| && m.fields[i].Some? :: ValueOk(schema.fields[i].kind, m.fields[i].value))
    && (forall k | 0 <= k < |m.unknown| :: Encodable(m.unknown[k]) && Stray(schema, m.unknown[k]))
  }

  /** A record no clause takes: unknown number, wrong wire type, or an enum value out of range. */
  predicate Stray(schema: Schema, r: Record) {
    var i := FieldIndex(schema, r.number);
    i < |schema.fields| ==>
      match (schema.fields[i].kind, r.payload)
      case (KInt32, PVarint(_)) => false
      case (KUInt32, PVarint(_)) => false
      case (KEnum(limit), PVarint(n)) => !(0 <= ToInt32(n) < limit)
      case (KDouble, PFixed64(_)) => false
      case (KString, PBytes(_)) => false
      case (KMessage(_), PBytes(_)) => false
      case (KRepeated(_), PBytes(_)) => false
      case _ => true
  }

  ghost predicate ValueOk(kind: Kind, v: Value)
    decreases v
  {
    match kind
    case KInt32 => v.VInt? && -0x8000_0000 <= v.n < 0x8000_0000
    case KUInt32 => v.VInt? && 0 <= v.n < WORD32
    case KEnum(limit) => v.VInt? && 0 <= v.n < limit
    case KDouble => v.VDouble? && |v.bytes| == 8
    case KString => v.VString? && |v.bytes| <= 0x7fff_ffef
    case KMessage(sub) => v.VMessage? && MessageOk(sub, v.m) && |Serialize(sub, v.m)| <= 0x7fff_ffef
    case KRepeated(sub) =>
      && v.VMessages? && v.ms != []
      && forall k | 0 <= k < |v.ms| :: MessageOk(sub, v.ms[k]) && |Serialize(sub, v.ms[k])| <= 0x7fff_ffef
  }

  /** Position of the field with this number, or the number of fields. */
  function FieldIndex(schema: Schema, number: nat): (i: nat)
    ensures i <= |schema.fields|
    ensures i < |schema.fields| ==> schema.fields[i].number == number
    ensures forall j | 0 <= j < i :: schema.fields[j].number != number
  {
    FieldFrom(schema, number, 0)
  }

  function FieldFrom(schema: Schema, number: nat, i: nat): (r: nat)
    requires i <= |schema.fields|
    ensures i <= r <= |schema.fields|
    ensures r < |schema.fields| ==> schema.fields[r].number == number
    ensures forall j | i <= j < r :: schema.fields[j].number != number
    decreases |schema.fields| - i
  {
    if i == |schema.fields| || schema.fields[i].number == number then i else FieldFrom(schema, number, i + 1)
  }

  // ---------------------------------------------------------------- serializing

  /** Sign extension to 64 bits, as WriteInt32ToArray and WriteEnumToArray write negative numbers. */
  function Extend(n: int): nat
    requires -0x8000_0000 <= n < WORD32
  {
    if n < 0 then n + WORD64 else n
  }

  /** `_InternalSerialize`: the set fields in the order of their numbers, then the unknown ones. */
  function Serialize(schema: Schema, m: Message): Bytes
    decreases m, 2
  {
    EncodeRecords(Records(schema, m, 0) + m.unknown)
  }

  function Records(schema: Schema, m: Message, i: nat): seq<Record>
    decreases m, 1, |m.fields| - i
  {
    if i >= |m.fields| || i >= |schema.fields| then []
    else
      (match m.fields[i] case None => [] case Some(v) => ValueRecords(schema.fields[i], v)) + Records(schema, m, i + 1)
  }

  function ValueRecords(field: Field, v: Value): seq<Record>
    decreases v, 0
  {
    match (field.kind, v)
    case (KInt32, VInt(n)) => if -0x8000_0000 <= n < WORD32 then [Record(field.number, PVarint(Extend(n)))] else []
    case (KUInt32, VInt(n)) => if 0 <= n < WORD32 then [Record(field.number, PVarint(n))] else []
    case (KEnum(_), VInt(n)) => if -0x8000_0000 <= n < WORD32 then [Record(field.number, PVarint(Extend(n)))] else []
    case (KDouble, VDouble(b)) => [Record(field.number, PFixed64(b))]
    case (KString, VString(b)) => [Record(field.number, PBytes(b))]
    case (KMessage(sub), VMessage(m)) => [Record(field.number, PBytes(Serialize(sub, m)))]
    case (KRepeated(sub), VMessages(ms)) => RepeatedRecords(field.number, sub, ms)
    case _ => []
  }

  function RepeatedRecords(number: nat, sub: Schema, ms: seq<Message>): seq<Record>
    decreases ms
  {
    if ms == [] then []
    else [Record(number, PBytes(Serialize(sub, ms[0])))] + RepeatedRecords(number, sub, ms[1..])
  }

  // ---------------------------------------------------------------- parsing

  /** The low 32 bits, read as a signed number. */
  function ToInt32(n: nat): int {
    var low := n % WORD32;
    if low < 0x8000_0000 then low else low - WORD32
  }

  /**
    `_InternalParse` from a message that may already hold something; the flag says whether it got through.
    A record that runs past the end makes it fail, but not before the clause has done its work.
   */
  function Parse(schema: Schema, b: Bytes, m: Message): (r: (Message, bool))
    decreases |b|, 1
  {
    if b == [] then (m, true)
    else
      match ReadRecord(b)
      case None => (Overrun(schema, m, b), false)
      case Some((record, used)) =>
        var (m', ok) := Apply(schema, m, record);
        if ok then Parse(schema, b[used..], m') else (m', false)
  }

  /** The last record, read on into the zeros behind the end: a number it carries is stored all the same. */
  function Overrun(schema: Schema, m: Message, b: Bytes): Message
    requires b != []
    decreases |b|, 0
  {
    match ReadRecord(b + ZEROS)
    case None => Overlong(schema, m, b)
    case Some((record, _)) => if record.payload.PBytes? then m else Apply(schema, m, record).0
  }

  /** A varint of more than ten bytes yields 0, and an int32 or uint32 field takes that before the check. */
  function Overlong(schema: Schema, m: Message, b: Bytes): Message {
    match ReadVarint(b + ZEROS, 5)
    case None => m
    case Some((v, _)) =>
      var tag := v % WORD32;
      var i := FieldIndex(schema, tag / 8);
      if tag / 8 != 0 && tag % 8 == 0 && i < |schema.fields| && i < |m.fields|
         && (schema.fields[i].kind.KInt32? || schema.fields[i].kind.KUInt32?) then SetField(m, i, VInt(0))
      else m
  }

  function PayloadSize(r: Record): nat {
    if r.payload.PBytes? then |r.payload.bytes| else 0
  }

  /** The clause of the switch for one record: the later of two values of a field wins, messages are merged. */
  function Apply(schema: Schema, m: Message, r: Record): (Message, bool)
    decreases PayloadSize(r), 2
  {
    var i := FieldIndex(schema, r.number);
    if i >= |schema.fields| || i >= |m.fields| then (AddUnknown(m, r), true)
    else
      match (schema.fields[i].kind, r.payload)
      case (KInt32, PVarint(n)) => (SetField(m, i, VInt(ToInt32(n))), true)
      case (KUInt32, PVarint(n)) => (SetField(m, i, VInt(n % WORD32)), true)
      case (KEnum(limit), PVarint(n)) =>
        (if 0 <= ToInt32(n) < limit then SetField(m, i, VInt(ToInt32(n))) else AddUnknown(m, r), true)
      case (KDouble, PFixed64(b)) => (SetField(m, i, VDouble(b)), true)
      case (KString, PBytes(b)) => (SetField(m, i, VString(b)), true)
      case (KMessage(sub), PBytes(b)) =>
        var before := if m.fields[i].Some? && m.fields[i].value.VMessage? then m.fields[i].value.m else Empty(sub);
        var (inner, ok) := Parse(sub, b, before);
        (SetField(m, i, VMessage(inner)), ok)
      case (KRepeated(sub), PBytes(b)) =>
        var before := if m.fields[i].Some? && m.fields[i].value.VMessages? then m.fields[i].value.ms else [];
        var (inner, ok) := Parse(sub, b, Empty(sub));
        (SetField(m, i, VMessages(before + [inner])), ok)
      case _ => (AddUnknown(m, r), true)
  }

  function SetField(m: Message, i: nat, v: Value): Message
    requires i < |m.fields|
  {
    m.(fields := m.fields[i := Some(v)])
  }

  function AddUnknown(m: Message, r: Record): Message {
    m.(unknown := m.unknown + [r])
  }

  // ---------------------------------------------------------------- parsing what was serialized

  function ApplyAll(schema: Schema, m: Message, rs: seq<Record>): (Message, bool)
    decreases |rs|
  {
    if rs == [] then (m, true)
    else
      var (m', ok) := Apply(schema, m, rs[0]);
      if ok then ApplyAll(schema, m', rs[1..]) else (m', false)
  }

  /** Parsing encoded records is applying them one after the other. */
  lemma {:induction false} ParseRecords(schema: Schema, m: Message, rs: seq<Record>)
    requires forall k | 0 <= k < |rs| :: Encodable(rs[k])
    ensures Parse(schema, EncodeRecords(rs), m) == ApplyAll(schema, m, rs)
    decreases |rs|
  {
    hide Apply, EncodeRecord, ReadRecord, Encodable;
    if rs != [] {
      var rest := EncodeRecords(rs[1..]);
      RecordRoundTrip(rs[0], rest);
      assert (EncodeRecord(rs[0]) + rest)[|EncodeRecord(rs[0])|..] == rest;
      var (m', ok) := Apply(schema, m, rs[0]);
      ParseRecords(schema, m', rs[1..]);
    }
  }

  lemma {:induction false} ApplyConcat(schema: Schema, m: Message, a: seq<Record>, b: seq<Record>)
    ensures ApplyAll(schema, m, a + b) ==
      var (m', ok) := ApplyAll(schema, m, a); if ok then ApplyAll(schema, m', b) else (m', false)
    decreases |a|
  {
    hide Apply;
    if a == [] {
      assert a + b == b;
    } else {
      assert (a + b)[1..] == a[1..] + b;
      var (m', ok) := Apply(schema, m, a[0]);
      ApplyConcat(schema, m', a[1..], b);
    }
  }

  lemma {:induction false} ApplyStray(schema: Schema, m: Message, rs: seq<Record>)
    requires forall k | 0 <= k < |rs| :: Stray(schema, rs[k])
    requires |m.fields| == |schema.fields|
    ensures ApplyAll(schema, m, rs) == (m.(unknown := m.unknown + rs), true)
    decreases |rs|
  {
    if rs == [] {
      assert m.unknown + rs == m.unknown;
    } else {
      ApplyStray(schema, AddUnknown(m, rs[0]), rs[1..]);
      assert (m.unknown + [rs[0]]) + rs[1..] == m.unknown + rs;
    }
  }

  lemma OwnIndex(schema: Schema, i: nat)
    requires SchemaOk(schema) && i < |schema.fields|
    ensures FieldIndex(schema, schema.fields[i].number) == i
  {
    hide FieldIndex;
  }

  lemma Int32RoundTrip(n: int)
    requires -0x8000_0000 <= n < 0x8000_0000
    ensures Extend(n) < WORD64 && ToInt32(Extend(n)) == n
  {
  }

  lemma {:induction false} RecordsEncodable(schema: Schema, m: Message, i: nat)
    requires SchemaOk(schema) && MessageOk(schema, m)
    ensures forall k | 0 <= k < |Records(schema, m, i)| :: Encodable(Records(schema, m, i)[k])
    decreases |m.fields| - i
  {
    if i < |m.fields| {
      RecordsEncodable(schema, m, i + 1);
      if m.fields[i].Some? {
        ValueEncodable(schema.fields[i], m.fields[i].value);
      }
    }
  }

  lemma ValueEncodable(field: Field, v: Value)
    requires FieldOk(field) && ValueOk(field.kind, v)
    ensures forall k | 0 <= k < |ValueRecords(field, v)| :: Encodable(ValueRecords(field, v)[k])
  {
    hide Serialize;
    if field.kind.KRepeated? {
      RepeatedEncodable(field.number, field.kind.schema, v.ms);
    }
  }

  lemma {:induction false} RepeatedEncodable(number: nat, sub: Schema, ms: seq<Message>)
    requires 1 <= number < 0x2000_0000
    requires forall k | 0 <= k < |ms| :: |Serialize(sub, ms[k])| <= 0x7fff_ffef
    ensures forall k | 0 <= k < |RepeatedRecords(number, sub, ms)| :: Encodable(RepeatedRecords(number, sub, ms)[k])
    decreases |ms|
  {
    hide Serialize;
    if ms != [] {
      RepeatedEncodable(number, sub, ms[1..]);
    }
  }

  /** From field i on, b is still blank wherever m has a message, or nothing at all. */
  ghost predicate Blank(schema: Schema, m: Message, b: Message, i: nat) {
    && |m.fields| == |b.fields| == |schema.fields|
    && forall j | i <= j < |b.fields| :: b.fields[j] == None || (IsScalar(schema.fields[j].kind) && m.fields[j].Some?)
  }

  /**
    The round trip: what was serialized is parsed back completely, whatever scalar values stood there
    before, and unknown records are kept behind those already there.
   */
  lemma {:induction false} Restores(schema: Schema, m: Message, b: Message)
    requires SchemaOk(schema) && MessageOk(schema, m) && Blank(schema, m, b, 0)
    ensures Parse(schema, Serialize(schema, m), b) == (Message(m.fields, b.unknown + m.unknown), true)
    decreases m, 2
  {
    hide Parse, Records, EncodeRecords;
    var rs := Records(schema, m, 0);
    RecordsEncodable(schema, m, 0);
    ParseRecords(schema, b, rs + m.unknown);
    ApplyConcat(schema, b, rs, m.unknown);
    RestoresFrom(schema, m, b, 0);
    ApplyStray(schema, Message(m.fields, b.unknown), m.unknown);
  }

  lemma {:induction false} RestoresFrom(schema: Schema, m: Message, b: Message, i: nat)
    requires SchemaOk(schema) && MessageOk(schema, m) && Blank(schema, m, b, i) && i <= |m.fields|
    requires forall j | 0 <= j < i :: b.fields[j] == m.fields[j]
    ensures ApplyAll(schema, b, Records(schema, m, i)) == (Message(m.fields, b.unknown), true)
    decreases m, 1, |m.fields| - i
  {
    hide Apply, ValueRecords;
    if i == |m.fields| {
      assert b.fields == m.fields;
    } else {
      var rest := Records(schema, m, i + 1);
      match m.fields[i]
      case None =>
        assert Records(schema, m, i) == rest;
        RestoresFrom(schema, m, b, i + 1);
      case Some(v) =>
        var rs := ValueRecords(schema.fields[i], v);
        RestoresValue(schema, m, b, i);
        ApplyConcat(schema, b, rs, rest);
        var b' := SetField(b, i, v);
        RestoresFrom(schema, m, b', i + 1);
    }
  }

  lemma {:induction false} RestoresValue(schema: Schema, m: Message, b: Message, i: nat)
    requires SchemaOk(schema) && MessageOk(schema, m) && Blank(schema, m, b, i) && i < |m.fields| && m.fields[i].Some?
    ensures ApplyAll(schema, b, ValueRecords(schema.fields[i], m.fields[i].value)) == (SetField(b, i, m.fields[i].value), true)
    decreases m, 0
  {
    var v := m.fields[i].value;
    OwnIndex(schema, i);
    match schema.fields[i].kind
    case KMessage(sub) => RestoresMessage(schema, m, b, i);
    case KRepeated(sub) =>
      RestoresRepeated(schema, sub, b, i, v.ms, []);
      assert [] + v.ms == v.ms;
    case _ => RestoresScalar(schema, b, i, v);
  }

  lemma RestoresScalar(schema: Schema, b: Message, i: nat, v: Value)
    requires i < |schema.fields| == |b.fields| && FieldIndex(schema, schema.fields[i].number) == i
    requires IsScalar(schema.fields[i].kind) && ValueOk(schema.fields[i].kind, v) && FieldOk(schema.fields[i])
    ensures ApplyAll(schema, b, ValueRecords(schema.fields[i], v)) == (SetField(b, i, v), true)
  {
    hide Parse, FieldIndex;
    if v.VInt? && schema.fields[i].kind != KUInt32 {
      Int32RoundTrip(v.n);
    }
    OneRecord(schema, b, ValueRecords(schema.fields[i], v));
  }

  lemma OneRecord(schema: Schema, b: Message, rs: seq<Record>)
    requires |rs| == 1
    ensures ApplyAll(schema, b, rs) == Apply(schema, b, rs[0])
  {
    hide Apply;
    var (m', ok) := Apply(schema, b, rs[0]);
    assert rs[1..] == [];
    assert ApplyAll(schema, m', []) == (m', true);
  }

  lemma {:induction false} RestoresMessage(schema: Schema, m: Message, b: Message, i: nat)
    requires SchemaOk(schema) && MessageOk(schema, m) && Blank(schema, m, b, i) && i < |m.fields| && m.fields[i].Some?
    requires schema.fields[i].kind.KMessage? && FieldIndex(schema, schema.fields[i].number) == i
    ensures ApplyAll(schema, b, ValueRecords(schema.fields[i], m.fields[i].value)) == (SetField(b, i, m.fields[i].value), true)
    decreases m.fields[i].value, 3
  {
    hide Parse, Serialize, FieldIndex;
    var sub, inner := schema.fields[i].kind.schema, m.fields[i].value.m;
    assert ValueOk(schema.fields[i].kind, m.fields[i].value) && FieldOk(schema.fields[i]);
    Restores(sub, inner, Empty(sub));
    assert Message(inner.fields, Empty(sub).unknown + inner.unknown) == inner;
    OneRecord(schema, b, ValueRecords(schema.fields[i], m.fields[i].value));
  }

  lemma {:induction false} RestoresRepeated(schema: Schema, sub: Schema, b: Message, i: nat, ms: seq<Message>, before: seq<Message>)
    requires i < |schema.fields| == |b.fields| && FieldIndex(schema, schema.fields[i].number) == i
    requires schema.fields[i].kind == KRepeated(sub) && SchemaOk(sub)
    requires forall k | 0 <= k < |ms| :: MessageOk(sub, ms[k])
    requires b.fields[i] == if before == [] then None else Some(VMessages(before))
    requires before != [] || ms != []
    ensures ApplyAll(schema, b, RepeatedRecords(schema.fields[i].number, sub, ms)) == (SetField(b, i, VMessages(before + ms)), true)
    decreases ms, 3
  {
    hide Parse, Serialize, FieldIndex;
    if ms == [] {
      assert before + ms == before;
      assert b.fields[i := b.fields[i]] == b.fields;
    } else {
      Restores(sub, ms[0], Empty(sub));
      assert Message(ms[0].fields, Empty(sub).unknown + ms[0].unknown) == ms[0];
      var b' := SetField(b, i, VMessages(before + [ms[0]]));
      var r := Record(schema.fields[i].number, PBytes(Serialize(sub, ms[0])));
      assert Apply(schema, b, r) == (b', true);
      RestoresRepeated(schema, sub, b', i, ms[1..], before + [ms[0]]);
      assert (before + [ms[0]]) + ms[1..] == before + ms;
      var rs := RepeatedRecords(schema.fields[i].number, sub, ms);
      assert rs[0] == r && rs[1..] == RepeatedRecords(schema.fields[i].number, sub, ms[1..]);
      assert SetField(b', i, VMessages(before + ms)) == SetField(b, i, VMessages(before + ms));
    }
  }

  /** Parsing two encodings one behind the other merges the second into what the first gave. */
  lemma ConcatMerges(schema: Schema, m: Message, a: seq<Record>, b: seq<Record>)
    requires forall k | 0 <= k < |a| :: Encodable(a[k])
    requires forall k | 0 <= k < |b| :: Encodable(b[k])
    ensures Parse(schema, EncodeRecords(a) + EncodeRecords(b), m) ==
      var (m', ok) := Parse(schema, EncodeRecords(a), m); if ok then Parse(schema, EncodeRecords(b), m') else (m', false)
  {
    hide Parse, ApplyAll, EncodeRecords, Encodable;
    EncodeConcat(a, b);
    ParseRecords(schema, m, a + b);
    ParseRecords(schema, m, a);
    ApplyConcat(schema, m, a, b);
    var (m', _) := ApplyAll(schema, m, a);
    ParseRecords(schema, m', b);
  }

  /** Of two values of a scalar field the last one wins, whatever stood there before. */
  lemma LastOneWins(schema: Schema, m: Message, i: nat, v: Value, w: Value)
    requires SchemaOk(schema) && i < |schema.fields| == |m.fields| && IsScalar(schema.fields[i].kind)
    requires ValueOk(schema.fields[i].kind, v) && ValueOk(schema.fields[i].kind, w)
    ensures var field := schema.fields[i];
      Parse(schema, EncodeRecords(ValueRecords(field, v)) + EncodeRecords(ValueRecords(field, w)), m) == (SetField(m, i, w), true)
  {
    hide Parse, ApplyAll, EncodeRecords, Encodable, ValueRecords;
    var field := schema.fields[i];
    OwnIndex(schema, i);
    ValueEncodable(field, v);
    ValueEncodable(field, w);
    ConcatMerges(schema, m, ValueRecords(field, v), ValueRecords(field, w));
    ParseRecords(schema, m, ValueRecords(field, v));
    ParseRecords(schema, SetField(m, i, v), ValueRecords(field, w));
    RestoresScalar(schema, m, i, v);
    RestoresScalar(schema, SetField(m, i, v), i, w);
    assert SetField(SetField(m, i, v), i, w) == SetField(m, i, w);
  }

  /**
    What a clause can change: its own field, or the end of the unknown records. A stray record is kept as it is,
    and a field takes the value the record was written for, whatever stood there before.
   */
  ghost predicate ClauseEffect(schema: Schema, start: Message, r: Record, m: Message, ok: bool) {
    && |m.fields| == |start.fields|
    && (forall j | 0 <= j < |m.fields| && j != FieldIndex(schema, r.number) :: m.fields[j] == start.fields[j])
    && start.unknown <= m.unknown <= start.unknown + [r]
    && (|start.fields| == |schema.fields| && Stray(schema, r) ==> m == start.(unknown := start.unknown + [r]) && ok)
    && (forall i: nat, v {:trigger WrittenFor(schema, i, v, r)} |
          WrittenFor(schema, i, v, r) && i < |start.fields| :: m == SetField(start, i, v) && ok)
  }

  /** Record r is how the scalar field i is written when it holds v. */
  ghost predicate WrittenFor(schema: Schema, i: nat, v: Value, r: Record) {
    && SchemaOk(schema) && i < |schema.fields| && IsScalar(schema.fields[i].kind)
    && ValueOk(schema.fields[i].kind, v) && ValueRecords(schema.fields[i], v) == [r]
  }

  lemma ApplyEffect(schema: Schema, start: Message, r: Record)
    ensures ClauseEffect(schema, start, r, Apply(schema, start, r).0, Apply(schema, start, r).1)
  {
    var (m, ok) := Apply(schema, start, r);
    forall i: nat, v | WrittenFor(schema, i, v, r) && i < |start.fields|
      ensures m == SetField(start, i, v) && ok
    {
      ScalarTaken(schema, start, i, v, r);
    }
    ApplyFrame(schema, start, r);
    if |start.fields| == |schema.fields| && Stray(schema, r) {
      assert (m, ok) == (AddUnknown(start, r), true);
    }
  }

  lemma ApplyFrame(schema: Schema, start: Message, r: Record)
    ensures var m := Apply(schema, start, r).0;
      && |m.fields| == |start.fields|
      && (forall j | 0 <= j < |m.fields| && j != FieldIndex(schema, r.number) :: m.fields[j] == start.fields[j])
      && start.unknown <= m.unknown <= start.unknown + [r]
  {
    hide Parse;
  }

  lemma ScalarTaken(schema: Schema, start: Message, i: nat, v: Value, r: Record)
    requires WrittenFor(schema, i, v, r) && i < |start.fields|
    ensures Apply(schema, start, r) == (SetField(start, i, v), true)
  {
    hide Parse, FieldIndex;
    OwnIndex(schema, i);
    if v.VInt? && schema.fields[i].kind != KUInt32 {
      Int32RoundTrip(v.n);
    }
  }

  /** Two occurrences of a message field merge: they are one occurrence with the bytes of both. */
  lemma NestedMerge(schema: Schema, m: Message, i: nat, a: seq<Record>, b: seq<Record>)
    requires SchemaOk(schema) && i < |schema.fields| == |m.fields| && schema.fields[i].kind.KMessage?
    requires forall k | 0 <= k < |a| :: Encodable(a[k])
    requires forall k | 0 <= k < |b| :: Encodable(b[k])
    ensures var number := schema.fields[i].number;
      var (m', ok) := Apply(schema, m, Record(number, PBytes(EncodeRecords(a))));
      ok ==> Apply(schema, m', Record(number, PBytes(EncodeRecords(b)))) == Apply(schema, m, Record(number, PBytes(EncodeRecords(a) + EncodeRecords(b))))
  {
    hide Parse, FieldIndex, EncodeRecords, Encodable;
    OwnIndex(schema, i);
    var sub := schema.fields[i].kind.schema;
    var before := if m.fields[i].Some? && m.fields[i].value.VMessage? then m.fields[i].value.m else Empty(sub);
    ConcatMerges(sub, before, a, b);
    var (inner, ok) := Parse(sub, EncodeRecords(a), before);
    if ok {
      var (both, _) := Parse(sub, EncodeRecords(b), inner);
      assert SetField(SetField(m, i, VMessage(inner)), i, VMessage(both)) == SetField(m, i, VMessage(both));
    }
  }

  // ---------------------------------------------------------------- sizes

  /** `ByteSizeLong`: what the generated code computes, field by field, before it writes anything. */
  function ByteSize(schema: Schema, m: Message): nat
    decreases m, 2
  {
    FieldsSize(schema, m, 0) + RecordsSize(m.unknown)
  }

  function FieldsSize(schema: Schema, m: Message, i: nat): nat
    decreases m, 1, |m.fields| - i
  {
    if i >= |m.fields| || i >= |schema.fields| then 0
    else (match m.fields[i] case None => 0 case Some(v) => ValueSize(schema.fields[i], v)) + FieldsSize(schema, m, i + 1)
  }

  function SignedSize(n: int): nat {
    if n < 0 then 10 else VarintSize(n)
  }

  function ValueSize(field: Field, v: Value): nat
    decreases v, 0
  {
    var tag := VarintSize(8 * field.number);
    match (field.kind, v)
    case (KInt32, VInt(n)) => tag + SignedSize(n)
    case (KUInt32, VInt(n)) => tag + SignedSize(n)
    case (KEnum(_), VInt(n)) => tag + SignedSize(n)
    case (KDouble, VDouble(b)) => tag + 8
    case (KString, VString(b)) => tag + VarintSize(|b|) + |b|
    case (KMessage(sub), VMessage(m)) => tag + VarintSize(ByteSize(sub, m)) + ByteSize(sub, m)
    case (KRepeated(sub), VMessages(ms)) => RepeatedSize(tag, sub, ms)
    case _ => 0
  }

  function RepeatedSize(tag: nat, sub: Schema, ms: seq<Message>): nat
    decreases ms
  {
    if ms == [] then 0 else tag + VarintSize(ByteSize(sub, ms[0])) + ByteSize(sub, ms[0]) + RepeatedSize(tag, sub, ms[1..])
  }

  function RecordsSize(rs: seq<Record>): nat {
    if rs == [] then 0 else |EncodeRecord(rs[0])| + RecordsSize(rs[1..])
  }

  lemma {:induction false} RecordsSizeIsLength(rs: seq<Record>)
    ensures |EncodeRecords(rs)| == RecordsSize(rs)
  {
    hide EncodeRecord;
    if rs != [] {
      RecordsSizeIsLength(rs[1..]);
    }
  }

  /** The length written in front of a nested message is the length of what follows. */
  lemma {:induction false} SerializedSize(schema: Schema, m: Message)
    requires SchemaOk(schema) && MessageOk(schema, m)
    ensures |Serialize(schema, m)| == ByteSize(schema, m)
    decreases m, 2
  {
    hide Records, EncodeRecords, FieldsSize;
    EncodeConcat(Records(schema, m, 0), m.unknown);
    RecordsSizeIsLength(m.unknown);
    FieldsSizeIsLength(schema, m, 0);
  }

  lemma {:induction false} FieldsSizeIsLength(schema: Schema, m: Message, i: nat)
    requires SchemaOk(schema) && MessageOk(schema, m)
    ensures |EncodeRecords(Records(schema, m, i))| == FieldsSize(schema, m, i)
    decreases m, 1, |m.fields| - i
  {
    hide ValueRecords, ValueSize, EncodeRecords;
    if i < |m.fields| {
      FieldsSizeIsLength(schema, m, i + 1);
      if m.fields[i].Some? {
        var rs := ValueRecords(schema.fields[i], m.fields[i].value);
        EncodeConcat(rs, Records(schema, m, i + 1));
        ValueSizeIsLength(schema.fields[i], m.fields[i].value);
      } else {
        assert Records(schema, m, i) == Records(schema, m, i + 1);
      }
    } else {
      NoRecords();
    }
  }

  lemma NoRecords()
    ensures EncodeRecords([]) == []
  {
  }

  lemma {:induction false} ValueSizeIsLength(field: Field, v: Value)
    requires FieldOk(field) && ValueOk(field.kind, v)
    ensures |EncodeRecords(ValueRecords(field, v))| == ValueSize(field, v)
    decreases v, 0
  {
    hide Serialize, ByteSize, EncodeRecords, EncodeRecord, VarintSize, Varint;
    if field.kind.KRepeated? {
      RepeatedSizeIsLength(field.number, field.kind.schema, v.ms);
    } else {
      var rs := ValueRecords(field, v);
      SingleRecord(rs[0]);
      RecordSize(rs[0]);
      match field.kind
      case KMessage(sub) => SerializedSize(sub, v.m);
      case KDouble =>
      case KString =>
      case KInt32 => IntSize(v.n);
      case KUInt32 => IntSize(v.n);
      case KEnum(_) => IntSize(v.n);
    }
  }

  lemma SingleRecord(r: Record)
    ensures EncodeRecords([r]) == EncodeRecord(r)
  {
    assert [r][1..] == [];
    assert EncodeRecords([]) == [];
  }

  lemma RecordSize(r: Record)
    ensures |EncodeRecord(r)| == VarintSize(8 * r.number) +
      match r.payload
      case PVarint(n) => VarintSize(n)
      case PFixed64(b) => |b|
      case PBytes(b) => VarintSize(|b|) + |b|
      case PFixed32(b) => |b|
  {
    hide Varint, VarintSize;
    TagSize(r.number, WireType(r.payload));
    match r.payload
    case PVarint(n) => VarintSizeIsLength(n);
    case PBytes(b) => VarintSizeIsLength(|b|);
    case _ =>
  }

  lemma IntSize(n: int)
    requires -0x8000_0000 <= n < WORD32
    ensures VarintSize(Extend(n)) == SignedSize(n)
  {
    hide VarintSize;
    if n < 0 {
      NegativeSize(Extend(n));
    }
  }

  lemma {:induction false} RepeatedSizeIsLength(number: nat, sub: Schema, ms: seq<Message>)
    requires SchemaOk(sub) && forall k | 0 <= k < |ms| :: MessageOk(sub, ms[k])
    ensures |EncodeRecords(RepeatedRecords(number, sub, ms))| == RepeatedSize(VarintSize(8 * number), sub, ms)
    decreases ms, 3
  {
    hide Serialize, ByteSize, EncodeRecords, EncodeRecord, VarintSize, Varint;
    if ms == [] {
      NoRecords();
    } else {
      var r := Record(number, PBytes(Serialize(sub, ms[0])));
      SerializedSize(sub, ms[0]);
      RecordSize(r);
      SingleRecord(r);
      EncodeConcat([r], RepeatedRecords(number, sub, ms[1..]));
      RepeatedSizeIsLength(number, sub, ms[1..]);
    }
  }
}
