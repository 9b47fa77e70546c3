/**
  The loops of the generated code, Request.pb.cc and Message.pb.cc in serialization/, proved against the
  functions of `Messages`: `_InternalParse` moves a pointer over the bytes and changes the message as it
  goes, `_InternalSerialize` appends to its target.
 */
module Generated {
  import opened Words
  import opened Wire
  import opened Messages
  import opened Wrappers

  /**
    `_InternalParse`. Bytes are read before it is known whether they are still there: only after the clause
    has stored what it read does the loop notice that it has run past the end.
   */
  method InternalParse(schema: Schema, b: Bytes, start: Message) returns (m: Message, ok: bool)
    ensures (m, ok) == Parse(schema, b, start)
    decreases |b|, 1
  {
    hide Apply, ReadRecord, Overlong;
    m := start;
    var ptr := 0;
    assert b[0..] == b;
    while ptr < |b|
      invariant ptr <= |b| && Parse(schema, b, start) == Parse(schema, b[ptr..], m)
    {
      var rest := b[ptr..];
      RecordPrefix(rest, ZEROS);
      match ReadRecord(rest + ZEROS)
      case None =>
        return Overlong(schema, m, rest), false;
      case Some((record, used)) =>
        if record.payload.PBytes? && used > |rest| {
          return m, false;
        }
        m, ok := Clause(schema, m, record);
        if ptr + used > |b| {
          return m, false;
        }
        if !ok {
          return;
        }
        assert rest[used..] == b[ptr + used..];
        ptr := ptr + used;
    }
    ok := true;
  }

  /** The switch of `_InternalParse`: one record changes one field, or goes to the unknown ones. */
  method Clause(schema: Schema, start: Message, r: Record) returns (m: Message, ok: bool)
    ensures (m, ok) == Apply(schema, start, r)
    ensures ClauseEffect(schema, start, r, m, ok)
    decreases PayloadSize(r), 2
  {
    hide Parse, ClauseEffect;
    ApplyEffect(schema, start, r);
    m, ok := start, true;
    var i := FieldIndex(schema, r.number);
    if i >= |schema.fields| || i >= |m.fields| {
      m := AddUnknown(m, r);
      return;
    }
    match (schema.fields[i].kind, r.payload)
    case (KInt32, PVarint(n)) => m := SetField(m, i, VInt(ToInt32(n)));
    case (KUInt32, PVarint(n)) => m := SetField(m, i, VInt(n % WORD32));
    case (KEnum(limit), PVarint(n)) =>
      if 0 <= ToInt32(n) < limit {
        m := SetField(m, i, VInt(ToInt32(n)));
      } else {
        m := AddUnknown(m, r);
      }
    case (KDouble, PFixed64(b)) => m := SetField(m, i, VDouble(b));
    case (KString, PBytes(b)) => m := SetField(m, i, VString(b));
    case (KMessage(sub), PBytes(b)) =>
      var inner := if m.fields[i].Some? && m.fields[i].value.VMessage? then m.fields[i].value.m else Empty(sub);
      inner, ok := InternalParse(sub, b, inner);
      m := SetField(m, i, VMessage(inner));
    case (KRepeated(sub), PBytes(b)) =>
      var before := if m.fields[i].Some? && m.fields[i].value.VMessages? then m.fields[i].value.ms else [];
      var inner;
      inner, ok := InternalParse(sub, b, Empty(sub));
      m := SetField(m, i, VMessages(before + [inner]));
    case _ => m := AddUnknown(m, r);
  }

  /** `_InternalSerialize`: the set fields in the order of their numbers, then the unknown ones. */
  method InternalSerialize(schema: Schema, m: Message) returns (target: Bytes)
    requires SchemaOk(schema) && MessageOk(schema, m)
    ensures target == Serialize(schema, m)
    decreases m, 2
  {
    hide ValueRecords, EncodeRecords, Encodable, Stray, ValueOk, FieldOk;
    target := [];
    var i := 0;
    while i < |schema.fields|
      invariant i <= |schema.fields|
      invariant target + EncodeRecords(Records(schema, m, i)) == EncodeRecords(Records(schema, m, 0))
    {
      match m.fields[i] {
        case None => assert Records(schema, m, i) == Records(schema, m, i + 1);
        case Some(v) =>
          EncodeConcat(ValueRecords(schema.fields[i], v), Records(schema, m, i + 1));
          var part := WriteField(schema.fields[i], v);
          target := target + part;
      }
      i := i + 1;
    }
    NoRecords();
    EncodeConcat(Records(schema, m, 0), m.unknown);
    target := target + EncodeRecords(m.unknown);
  }

  /** One set field. The length in front of a nested message is the size computed before anything is written. */
  method WriteField(field: Field, v: Value) returns (out: Bytes)
    requires FieldOk(field) && ValueOk(field.kind, v)
    ensures out == EncodeRecords(ValueRecords(field, v))
    decreases v, 0
  {
    hide Serialize, ByteSize, EncodeRecords, EncodeRecord;
    match field.kind
    case KMessage(sub) =>
      out := WriteMessage(field.number, sub, v.m);
      SingleRecord(Record(field.number, PBytes(Serialize(sub, v.m))));
    case KRepeated(sub) =>
      out := [];
      var k := 0;
      assert v.ms[0..] == v.ms;
      while k < |v.ms|
        invariant k <= |v.ms|
        invariant out + EncodeRecords(RepeatedRecords(field.number, sub, v.ms[k..]))
          == EncodeRecords(RepeatedRecords(field.number, sub, v.ms))
      {
        var part := WriteMessage(field.number, sub, v.ms[k]);
        NextRepeated(field.number, sub, v.ms, k);
        out := out + part;
        k := k + 1;
      }
      NoRecords();
    case KDouble =>
      out := EncodeRecord(Record(field.number, PFixed64(v.bytes)));
      SingleRecord(Record(field.number, PFixed64(v.bytes)));
    case KString =>
      out := EncodeRecord(Record(field.number, PBytes(v.bytes)));
      SingleRecord(Record(field.number, PBytes(v.bytes)));
    case KInt32 => out := WriteInt(field.number, Extend(v.n));
    case KUInt32 => out := WriteInt(field.number, v.n);
    case KEnum(_) => out := WriteInt(field.number, Extend(v.n));
  }

  method WriteInt(number: nat, n: nat) returns (out: Bytes)
    ensures out == EncodeRecords([Record(number, PVarint(n))])
  {
    hide Varint;
    SingleRecord(Record(number, PVarint(n)));
    out := Varint(8 * number) + Varint(n);
  }

  /** `InternalWriteMessage`: tag, cached size, message. */
  method WriteMessage(number: nat, sub: Schema, m: Message) returns (out: Bytes)
    requires SchemaOk(sub) && MessageOk(sub, m)
    ensures out == EncodeRecord(Record(number, PBytes(Serialize(sub, m))))
    decreases m, 3
  {
    hide Varint, Serialize, ByteSize, SchemaOk, MessageOk;
    SerializedSize(sub, m);
    var inner := InternalSerialize(sub, m);
    out := Varint(8 * number + 2) + (Varint(ByteSize(sub, m)) + inner);
  }

  lemma NextRepeated(number: nat, sub: Schema, ms: seq<Message>, k: nat)
    requires k < |ms|
    ensures EncodeRecords(RepeatedRecords(number, sub, ms[k..]))
      == EncodeRecord(Record(number, PBytes(Serialize(sub, ms[k])))) + EncodeRecords(RepeatedRecords(number, sub, ms[k + 1..]))
  {
    hide Serialize, EncodeRecord;
    var r := Record(number, PBytes(Serialize(sub, ms[k])));
    assert ms[k..][1..] == ms[k + 1..];
    assert RepeatedRecords(number, sub, ms[k..]) == [r] + RepeatedRecords(number, sub, ms[k + 1..]);
  }
}
