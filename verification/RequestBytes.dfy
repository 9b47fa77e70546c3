/**
  What a request looks like on the wire, byte by byte: the messages of serialization/proto/Request.proto as plain
  records, and their encoding written out with the tags the generated code writes and compares with.
 */
module RequestBytes {
  import opened Frames
  import opened Messages
  import opened Wire
  import opened Wrappers

  // ---------------------------------------------------------------- the messages

  type Int32 = n: int | -0x8000_0000 <= n < 0x8000_0000

  /** The eight bytes of a double. */
  type Double = b: Bytes | |b| == 8 witness [0, 0, 0, 0, 0, 0, 0, 0]

  /** `Request_RequestType`. */
  type CallType = n: nat | n < 4

  datatype FuncInfo = FuncInfo(funcName: Option<Bytes>, paramsType: Option<Bytes>, returnType: Option<Bytes>)

  datatype ConnectionReq = ConnectionReq

  datatype ConnectionRet = ConnectionRet(funcInfo: seq<FuncInfo>)

  datatype AddIntParams = AddIntParams(left: Option<Int32>, right: Option<Int32>)

  datatype AddDoubleParams = AddDoubleParams(left: Option<Double>, right: Option<Double>)

  datatype AddStringParams = AddStringParams(left: Option<Bytes>, right: Option<Bytes>)

  datatype PlayerMoveParams = PlayerMoveParams(
    x: Option<Double>, y: Option<Double>, speed: Option<Double>,
    acceleration: Option<Double>, aspect: Option<Double>, angle: Option<Double>)

  datatype FunctionCall = FunctionCall(
    functionName: Option<Bytes>,
    addInt: Option<AddIntParams>,
    addDouble: Option<AddDoubleParams>,
    addString: Option<AddStringParams>,
    playerMove: Option<PlayerMoveParams>)

  datatype AddIntRet = AddIntRet(ret: Option<Int32>)

  datatype AddDoubleRet = AddDoubleRet(ret: Option<Double>)

  datatype AddStringRet = AddStringRet(ret: Option<Bytes>)

  datatype PlayerMoveRet = PlayerMoveRet(x: Option<Double>, y: Option<Double>, speed: Option<Double>, aspect: Option<Double>)

  datatype FunctionRet = FunctionRet(
    functionName: Option<Bytes>,
    addInt: Option<AddIntRet>,
    addDouble: Option<AddDoubleRet>,
    addString: Option<AddStringRet>,
    playerMove: Option<PlayerMoveRet>)

  datatype Request = Request(
    callType: Option<CallType>,
    connectionReq: Option<ConnectionReq>,
    connectionRet: Option<ConnectionRet>,
    functionCall: Option<FunctionCall>,
    functionRet: Option<FunctionRet>)

  // ---------------------------------------------------------------- their bytes

  function Int(tag: Byte, n: Option<Int32>): Bytes {
    match n case None => [] case Some(n) => [tag] + Varint(Extend(n))
  }

  function Enum(tag: Byte, n: Option<CallType>): Bytes {
    match n case None => [] case Some(n) => [tag] + Varint(n)
  }

  function Fixed(tag: Byte, d: Option<Double>): Bytes {
    match d case None => [] case Some(d) => [tag] + d
  }

  function Nest(tag: Byte, b: Option<Bytes>): Bytes {
    match b case None => [] case Some(b) => [tag] + Varint(|b|) + b
  }

  function Map<A, B>(f: A -> B, a: Option<A>): Option<B> {
    match a case None => None case Some(a) => Some(f(a))
  }

  function FuncInfoBytes(i: FuncInfo): Bytes {
    Nest(10, i.funcName) + Nest(18, i.paramsType) + Nest(26, i.returnType)
  }

  function FuncInfosBytes(infos: seq<FuncInfo>): Bytes {
    if infos == [] then [] else Nest(10, Some(FuncInfoBytes(infos[0]))) + FuncInfosBytes(infos[1..])
  }

  function ConnectionReqBytes(c: ConnectionReq): Bytes {
    []
  }

  function ConnectionRetBytes(c: ConnectionRet): Bytes {
    FuncInfosBytes(c.funcInfo)
  }

  function AddIntParamsBytes(p: AddIntParams): Bytes {
    Int(8, p.left) + Int(16, p.right)
  }

  function AddDoubleParamsBytes(p: AddDoubleParams): Bytes {
    Fixed(9, p.left) + Fixed(17, p.right)
  }

  function AddStringParamsBytes(p: AddStringParams): Bytes {
    Nest(10, p.left) + Nest(18, p.right)
  }

  function PlayerMoveParamsBytes(p: PlayerMoveParams): Bytes {
    Fixed(9, p.x) + Fixed(17, p.y) + Fixed(25, p.speed) + Fixed(33, p.acceleration) + Fixed(41, p.aspect) + Fixed(49, p.angle)
  }

  function FunctionCallBytes(c: FunctionCall): Bytes {
    Nest(10, c.functionName)
    + Nest(18, Map(AddIntParamsBytes, c.addInt))
    + Nest(26, Map(AddDoubleParamsBytes, c.addDouble))
    + Nest(34, Map(AddStringParamsBytes, c.addString))
    + Nest(42, Map(PlayerMoveParamsBytes, c.playerMove))
  }

  function AddIntRetBytes(r: AddIntRet): Bytes {
    Int(8, r.ret)
  }

  function AddDoubleRetBytes(r: AddDoubleRet): Bytes {
    Fixed(9, r.ret)
  }

  function AddStringRetBytes(r: AddStringRet): Bytes {
    Nest(10, r.ret)
  }

  function PlayerMoveRetBytes(r: PlayerMoveRet): Bytes {
    Fixed(9, r.x) + Fixed(17, r.y) + Fixed(25, r.speed) + Fixed(41, r.aspect)
  }

  function FunctionRetBytes(r: FunctionRet): Bytes {
    Nest(10, r.functionName)
    + Nest(18, Map(AddIntRetBytes, r.addInt))
    + Nest(26, Map(AddDoubleRetBytes, r.addDouble))
    + Nest(34, Map(AddStringRetBytes, r.addString))
    + Nest(42, Map(PlayerMoveRetBytes, r.playerMove))
  }

  function RequestBytes(q: Request): Bytes {
    Enum(8, q.callType)
    + Nest(18, Map(ConnectionReqBytes, q.connectionReq))
    + Nest(26, Map(ConnectionRetBytes, q.connectionRet))
    + Nest(34, Map(FunctionCallBytes, q.functionCall))
    + Nest(42, Map(FunctionRetBytes, q.functionRet))
  }

  // ---------------------------------------------------------------- the same messages to the generic code

  function IntValue(n: Option<Int32>): Option<Value> {
    Map((n: Int32) => VInt(n), n)
  }

  function EnumValue(n: Option<CallType>): Option<Value> {
    Map((n: CallType) => VInt(n), n)
  }

  function DoubleValue(d: Option<Double>): Option<Value> {
    Map((d: Double) => VDouble(d), d)
  }

  function StringValue(s: Option<Bytes>): Option<Value> {
    Map((s: Bytes) => VString(s), s)
  }

  function MessageValue<A>(f: A -> Message, a: Option<A>): Option<Value> {
    Map((a: A) => VMessage(f(a)), a)
  }

  function FuncInfoMessage(i: FuncInfo): Message {
    Message([StringValue(i.funcName), StringValue(i.paramsType), StringValue(i.returnType)], [])
  }

  function FuncInfoMessages(infos: seq<FuncInfo>): seq<Message> {
    if infos == [] then [] else [FuncInfoMessage(infos[0])] + FuncInfoMessages(infos[1..])
  }

  function ConnectionReqMessage(c: ConnectionReq): Message {
    Message([], [])
  }

  function ConnectionRetMessage(c: ConnectionRet): Message {
    Message([if c.funcInfo == [] then None else Some(VMessages(FuncInfoMessages(c.funcInfo)))], [])
  }

  function AddIntParamsMessage(p: AddIntParams): Message {
    Message([IntValue(p.left), IntValue(p.right)], [])
  }

  function AddDoubleParamsMessage(p: AddDoubleParams): Message {
    Message([DoubleValue(p.left), DoubleValue(p.right)], [])
  }

  function AddStringParamsMessage(p: AddStringParams): Message {
    Message([StringValue(p.left), StringValue(p.right)], [])
  }

  function PlayerMoveParamsMessage(p: PlayerMoveParams): Message {
    Message([DoubleValue(p.x), DoubleValue(p.y), DoubleValue(p.speed),
             DoubleValue(p.acceleration), DoubleValue(p.aspect), DoubleValue(p.angle)], [])
  }

  function FunctionCallMessage(c: FunctionCall): Message {
    Message([StringValue(c.functionName),
             MessageValue(AddIntParamsMessage, c.addInt),
             MessageValue(AddDoubleParamsMessage, c.addDouble),
             MessageValue(AddStringParamsMessage, c.addString),
             MessageValue(PlayerMoveParamsMessage, c.playerMove)], [])
  }

  function AddIntRetMessage(r: AddIntRet): Message {
    Message([IntValue(r.ret)], [])
  }

  function AddDoubleRetMessage(r: AddDoubleRet): Message {
    Message([DoubleValue(r.ret)], [])
  }

  function AddStringRetMessage(r: AddStringRet): Message {
    Message([StringValue(r.ret)], [])
  }

  function PlayerMoveRetMessage(r: PlayerMoveRet): Message {
    Message([DoubleValue(r.x), DoubleValue(r.y), DoubleValue(r.speed), DoubleValue(r.aspect)], [])
  }

  function FunctionRetMessage(r: FunctionRet): Message {
    Message([StringValue(r.functionName),
             MessageValue(AddIntRetMessage, r.addInt),
             MessageValue(AddDoubleRetMessage, r.addDouble),
             MessageValue(AddStringRetMessage, r.addString),
             MessageValue(PlayerMoveRetMessage, r.playerMove)], [])
  }

  function RequestMessage(q: Request): Message {
    Message([EnumValue(q.callType),
             MessageValue(ConnectionReqMessage, q.connectionReq),
             MessageValue(ConnectionRetMessage, q.connectionRet),
             MessageValue(FunctionCallMessage, q.functionCall),
             MessageValue(FunctionRetMessage, q.functionRet)], [])
  }

  // ---------------------------------------------------------------- field by field

  function ValueBytes(field: Field, v: Option<Value>): Bytes {
    match v case None => [] case Some(v) => EncodeRecords(ValueRecords(field, v))
  }

  function FieldsBytes(schema: Schema, fields: seq<Option<Value>>, i: nat): Bytes
    decreases |fields| - i
  {
    if i >= |fields| || i >= |schema.fields| then [] else ValueBytes(schema.fields[i], fields[i]) + FieldsBytes(schema, fields, i + 1)
  }

  /** A message is written field by field, and what was unknown follows. */
  lemma KnownThenUnknown(schema: Schema, m: Message)
    ensures Serialize(schema, m) == FieldsBytes(schema, m.fields, 0) + EncodeRecords(m.unknown)
  {
    hide Records, FieldsBytes, EncodeRecords;
    EncodeConcat(Records(schema, m, 0), m.unknown);
    FieldsAreRecords(schema, m, 0);
  }

  lemma {:induction false} FieldsAreRecords(schema: Schema, m: Message, i: nat)
    ensures EncodeRecords(Records(schema, m, i)) == FieldsBytes(schema, m.fields, i)
    decreases |m.fields| - i
  {
    hide ValueRecords, EncodeRecords;
    if i < |m.fields| && i < |schema.fields| {
      FieldsAreRecords(schema, m, i + 1);
      if m.fields[i].Some? {
        EncodeConcat(ValueRecords(schema.fields[i], m.fields[i].value), Records(schema, m, i + 1));
      } else {
        assert Records(schema, m, i) == Records(schema, m, i + 1);
      }
    } else {
      NoRecords();
    }
  }

  /** The bytes of the fields, one behind the other. */
  function Concat(parts: seq<Bytes>): Bytes {
    if parts == [] then [] else parts[0] + Concat(parts[1..])
  }

  /** If each field has these bytes, the message is these bytes. */
  lemma {:induction false} PartsFrom(schema: Schema, fields: seq<Option<Value>>, parts: seq<Bytes>, i: nat)
    requires |schema.fields| == |fields| == |parts| && i <= |fields|
    requires forall k | 0 <= k < |fields| :: ValueBytes(schema.fields[k], fields[k]) == parts[k]
    ensures FieldsBytes(schema, fields, i) == Concat(parts[i..])
    decreases |fields| - i
  {
    hide ValueBytes;
    if i < |fields| {
      PartsFrom(schema, fields, parts, i + 1);
      assert parts[i..][1..] == parts[i + 1..];
    }
  }

  lemma Parts(schema: Schema, fields: seq<Option<Value>>, parts: seq<Bytes>)
    requires |schema.fields| == |fields| == |parts|
    requires forall k | 0 <= k < |fields| :: ValueBytes(schema.fields[k], fields[k]) == parts[k]
    ensures Serialize(schema, Message(fields, [])) == Concat(parts)
  {
    hide FieldsBytes, ValueBytes, Serialize, Concat;
    KnownThenUnknown(schema, Message(fields, []));
    PartsFrom(schema, fields, parts, 0);
    assert parts[0..] == parts;
    NoRecords();
  }

  lemma ConcatStep(first: Bytes, rest: seq<Bytes>)
    ensures Concat([first] + rest) == first + Concat(rest)
  {
    assert ([first] + rest)[1..] == rest;
  }

  lemma Concat1(a: Bytes)
    ensures Concat([a]) == a
  {
    assert [a][1..] == [];
    assert Concat([]) == [];
  }

  lemma Concat2(a: Bytes, b: Bytes)
    ensures Concat([a, b]) == a + b
  {
    assert [a, b] == [a] + [b];
    ConcatStep(a, [b]);
    Concat1(b);
  }

  lemma Concat3(a: Bytes, b: Bytes, c: Bytes)
    ensures Concat([a, b, c]) == a + b + c
  {
    assert [a, b, c] == [a] + [b, c];
    ConcatStep(a, [b, c]);
    Concat2(b, c);
  }

  lemma Concat4(a: Bytes, b: Bytes, c: Bytes, d: Bytes)
    ensures Concat([a, b, c, d]) == a + b + c + d
  {
    assert [a, b, c, d] == [a] + [b, c, d];
    ConcatStep(a, [b, c, d]);
    Concat3(b, c, d);
  }

  lemma Concat5(a: Bytes, b: Bytes, c: Bytes, d: Bytes, e: Bytes)
    ensures Concat([a, b, c, d, e]) == a + b + c + d + e
  {
    assert [a, b, c, d, e] == [a] + [b, c, d, e];
    ConcatStep(a, [b, c, d, e]);
    Concat4(b, c, d, e);
  }

  lemma Concat6(a: Bytes, b: Bytes, c: Bytes, d: Bytes, e: Bytes, f: Bytes)
    ensures Concat([a, b, c, d, e, f]) == a + b + c + d + e + f
  {
    assert [a, b, c, d, e, f] == [a] + [b, c, d, e, f];
    ConcatStep(a, [b, c, d, e, f]);
    Concat5(b, c, d, e, f);
  }

  // ---------------------------------------------------------------- one field

  lemma TagByte(tag: Byte)
    requires tag < 128
    ensures Varint(tag) == [tag]
  {
  }

  /** A field is written as b, and if that is short enough it is one the setters can build. */
  ghost predicate FieldWritten(field: Field, v: Option<Value>, b: Bytes) {
    ValueBytes(field, v) == b && (v.Some? && |b| <= 0x7fff_ffef ==> ValueOk(field.kind, v.value))
  }

  /** The same for a message. */
  ghost predicate Written(schema: Schema, m: Message, b: Bytes) {
    Serialize(schema, m) == b && (|b| <= 0x7fff_ffef ==> MessageOk(schema, m))
  }

  lemma IntField(number: nat, n: Option<Int32>)
    requires 1 <= number < 16
    ensures FieldWritten(Field(number, KInt32), IntValue(n), Int(8 * number, n))
  {
    hide EncodeRecords, Varint;
    TagByte(8 * number);
    if n.Some? {
      SingleRecord(Record(number, PVarint(Extend(n.value))));
    }
  }

  lemma EnumField(number: nat, n: Option<CallType>)
    requires 1 <= number < 16
    ensures FieldWritten(Field(number, KEnum(4)), EnumValue(n), Enum(8 * number, n))
  {
    hide EncodeRecords, Varint;
    TagByte(8 * number);
    if n.Some? {
      SingleRecord(Record(number, PVarint(n.value)));
    }
  }

  lemma DoubleField(number: nat, d: Option<Double>)
    requires 1 <= number < 16
    ensures FieldWritten(Field(number, KDouble), DoubleValue(d), Fixed(8 * number + 1, d))
  {
    hide EncodeRecords, Varint;
    TagByte(8 * number + 1);
    if d.Some? {
      SingleRecord(Record(number, PFixed64(d.value)));
    }
  }

  lemma StringField(number: nat, s: Option<Bytes>)
    requires 1 <= number < 16
    ensures FieldWritten(Field(number, KString), StringValue(s), Nest(8 * number + 2, s))
  {
    hide EncodeRecords, Varint;
    TagByte(8 * number + 2);
    if s.Some? {
      SingleRecord(Record(number, PBytes(s.value)));
    }
  }

  lemma MessageField<A>(number: nat, sub: Schema, f: A -> Message, g: A -> Bytes, a: Option<A>)
    requires 1 <= number < 16
    requires a.Some? ==> Written(sub, f(a.value), g(a.value))
    ensures FieldWritten(Field(number, KMessage(sub)), MessageValue(f, a), Nest(8 * number + 2, Map(g, a)))
  {
    hide EncodeRecords, Varint, Serialize, MessageOk;
    TagByte(8 * number + 2);
    if a.Some? {
      SingleRecord(Record(number, PBytes(g(a.value))));
    }
  }

  lemma FieldsWritten(schema: Schema, fields: seq<Option<Value>>, parts: seq<Bytes>)
    requires |schema.fields| == |fields| == |parts|
    requires forall k | 0 <= k < |fields| :: FieldWritten(schema.fields[k], fields[k], parts[k])
    ensures Written(schema, Message(fields, []), Concat(parts))
  {
    hide ValueBytes, Serialize, Concat, ValueOk;
    forall k | 0 <= k < |parts|
      ensures ValueBytes(schema.fields[k], fields[k]) == parts[k] && |parts[k]| <= |Concat(parts)|
      ensures fields[k].Some? && |parts[k]| <= 0x7fff_ffef ==> ValueOk(schema.fields[k].kind, fields[k].value)
    {
      assert FieldWritten(schema.fields[k], fields[k], parts[k]);
      PartLength(parts, k);
    }
    Parts(schema, fields, parts);
  }

  lemma {:induction false} PartLength(parts: seq<Bytes>, k: nat)
    requires k < |parts|
    ensures |parts[k]| <= |Concat(parts)|
  {
    if k > 0 {
      PartLength(parts[1..], k - 1);
    }
  }

  // ---------------------------------------------------------------- one message

  lemma FuncInfoWritten(i: FuncInfo)
    ensures Written(FUNC_INFO, FuncInfoMessage(i), FuncInfoBytes(i))
  {
    hide FieldWritten, Written, Concat, Int, Fixed, Nest, Map, IntValue, DoubleValue, StringValue, MessageValue;
    StringField(1, i.funcName);
    StringField(2, i.paramsType);
    StringField(3, i.returnType);
    var parts := [Nest(10, i.funcName), Nest(18, i.paramsType), Nest(26, i.returnType)];
    Concat3(parts[0], parts[1], parts[2]);
    FieldsWritten(FUNC_INFO, FuncInfoMessage(i).fields, parts);
  }

  lemma AddIntParamsWritten(p: AddIntParams)
    ensures Written(ADD_INT_PARAMS, AddIntParamsMessage(p), AddIntParamsBytes(p))
  {
    hide FieldWritten, Written, Concat, Int, Fixed, Nest, Map, IntValue, DoubleValue, StringValue, MessageValue;
    IntField(1, p.left);
    IntField(2, p.right);
    var parts := [Int(8, p.left), Int(16, p.right)];
    Concat2(parts[0], parts[1]);
    FieldsWritten(ADD_INT_PARAMS, AddIntParamsMessage(p).fields, parts);
  }

  lemma AddDoubleParamsWritten(p: AddDoubleParams)
    ensures Written(ADD_DOUBLE_PARAMS, AddDoubleParamsMessage(p), AddDoubleParamsBytes(p))
  {
    hide FieldWritten, Written, Concat, Int, Fixed, Nest, Map, IntValue, DoubleValue, StringValue, MessageValue;
    DoubleField(1, p.left);
    DoubleField(2, p.right);
    var parts := [Fixed(9, p.left), Fixed(17, p.right)];
    Concat2(parts[0], parts[1]);
    FieldsWritten(ADD_DOUBLE_PARAMS, AddDoubleParamsMessage(p).fields, parts);
  }

  lemma AddStringParamsWritten(p: AddStringParams)
    ensures Written(ADD_STRING_PARAMS, AddStringParamsMessage(p), AddStringParamsBytes(p))
  {
    hide FieldWritten, Written, Concat, Int, Fixed, Nest, Map, IntValue, DoubleValue, StringValue, MessageValue;
    StringField(1, p.left);
    StringField(2, p.right);
    var parts := [Nest(10, p.left), Nest(18, p.right)];
    Concat2(parts[0], parts[1]);
    FieldsWritten(ADD_STRING_PARAMS, AddStringParamsMessage(p).fields, parts);
  }

  lemma PlayerMoveParamsWritten(p: PlayerMoveParams)
    ensures Written(PLAYER_MOVE_PARAMS, PlayerMoveParamsMessage(p), PlayerMoveParamsBytes(p))
  {
    hide FieldWritten, Written, Concat, Int, Fixed, Nest, Map, IntValue, DoubleValue, StringValue, MessageValue;
    DoubleField(1, p.x);
    DoubleField(2, p.y);
    DoubleField(3, p.speed);
    DoubleField(4, p.acceleration);
    DoubleField(5, p.aspect);
    DoubleField(6, p.angle);
    var parts := [Fixed(9, p.x), Fixed(17, p.y), Fixed(25, p.speed), Fixed(33, p.acceleration), Fixed(41, p.aspect), Fixed(49, p.angle)];
    Concat6(parts[0], parts[1], parts[2], parts[3], parts[4], parts[5]);
    FieldsWritten(PLAYER_MOVE_PARAMS, PlayerMoveParamsMessage(p).fields, parts);
  }

  lemma AddIntRetWritten(r: AddIntRet)
    ensures Written(ADD_INT_RET, AddIntRetMessage(r), AddIntRetBytes(r))
  {
    hide FieldWritten, Written, Concat, Int, Fixed, Nest, Map, IntValue, DoubleValue, StringValue, MessageValue;
    IntField(1, r.ret);
    var parts := [Int(8, r.ret)];
    Concat1(parts[0]);
    FieldsWritten(ADD_INT_RET, AddIntRetMessage(r).fields, parts);
  }

  lemma AddDoubleRetWritten(r: AddDoubleRet)
    ensures Written(ADD_DOUBLE_RET, AddDoubleRetMessage(r), AddDoubleRetBytes(r))
  {
    hide FieldWritten, Written, Concat, Int, Fixed, Nest, Map, IntValue, DoubleValue, StringValue, MessageValue;
    DoubleField(1, r.ret);
    var parts := [Fixed(9, r.ret)];
    Concat1(parts[0]);
    FieldsWritten(ADD_DOUBLE_RET, AddDoubleRetMessage(r).fields, parts);
  }

  lemma AddStringRetWritten(r: AddStringRet)
    ensures Written(ADD_STRING_RET, AddStringRetMessage(r), AddStringRetBytes(r))
  {
    hide FieldWritten, Written, Concat, Int, Fixed, Nest, Map, IntValue, DoubleValue, StringValue, MessageValue;
    StringField(1, r.ret);
    var parts := [Nest(10, r.ret)];
    Concat1(parts[0]);
    FieldsWritten(ADD_STRING_RET, AddStringRetMessage(r).fields, parts);
  }

  lemma PlayerMoveRetWritten(r: PlayerMoveRet)
    ensures Written(PLAYER_MOVE_RET, PlayerMoveRetMessage(r), PlayerMoveRetBytes(r))
  {
    hide FieldWritten, Written, Concat, Int, Fixed, Nest, Map, IntValue, DoubleValue, StringValue, MessageValue;
    DoubleField(1, r.x);
    DoubleField(2, r.y);
    DoubleField(3, r.speed);
    DoubleField(5, r.aspect);
    var parts := [Fixed(9, r.x), Fixed(17, r.y), Fixed(25, r.speed), Fixed(41, r.aspect)];
    Concat4(parts[0], parts[1], parts[2], parts[3]);
    FieldsWritten(PLAYER_MOVE_RET, PlayerMoveRetMessage(r).fields, parts);
  }

  lemma FunctionCallWritten(c: FunctionCall)
    ensures Written(FUNCTION_CALL, FunctionCallMessage(c), FunctionCallBytes(c))
  {
    hide FieldWritten, Written, Concat, Int, Fixed, Nest, Map, IntValue, DoubleValue, StringValue, MessageValue;
    StringField(1, c.functionName);
    if c.addInt.Some? { AddIntParamsWritten(c.addInt.value); }
    MessageField(2, ADD_INT_PARAMS, AddIntParamsMessage, AddIntParamsBytes, c.addInt);
    if c.addDouble.Some? { AddDoubleParamsWritten(c.addDouble.value); }
    MessageField(3, ADD_DOUBLE_PARAMS, AddDoubleParamsMessage, AddDoubleParamsBytes, c.addDouble);
    if c.addString.Some? { AddStringParamsWritten(c.addString.value); }
    MessageField(4, ADD_STRING_PARAMS, AddStringParamsMessage, AddStringParamsBytes, c.addString);
    if c.playerMove.Some? { PlayerMoveParamsWritten(c.playerMove.value); }
    MessageField(5, PLAYER_MOVE_PARAMS, PlayerMoveParamsMessage, PlayerMoveParamsBytes, c.playerMove);
    var parts := [Nest(10, c.functionName), Nest(18, Map(AddIntParamsBytes, c.addInt)), Nest(26, Map(AddDoubleParamsBytes, c.addDouble)), Nest(34, Map(AddStringParamsBytes, c.addString)), Nest(42, Map(PlayerMoveParamsBytes, c.playerMove))];
    Concat5(parts[0], parts[1], parts[2], parts[3], parts[4]);
    FieldsWritten(FUNCTION_CALL, FunctionCallMessage(c).fields, parts);
  }

  lemma FunctionRetWritten(r: FunctionRet)
    ensures Written(FUNCTION_RET, FunctionRetMessage(r), FunctionRetBytes(r))
  {
    hide FieldWritten, Written, Concat, Int, Fixed, Nest, Map, IntValue, DoubleValue, StringValue, MessageValue;
    StringField(1, r.functionName);
    if r.addInt.Some? { AddIntRetWritten(r.addInt.value); }
    MessageField(2, ADD_INT_RET, AddIntRetMessage, AddIntRetBytes, r.addInt);
    if r.addDouble.Some? { AddDoubleRetWritten(r.addDouble.value); }
    MessageField(3, ADD_DOUBLE_RET, AddDoubleRetMessage, AddDoubleRetBytes, r.addDouble);
    if r.addString.Some? { AddStringRetWritten(r.addString.value); }
    MessageField(4, ADD_STRING_RET, AddStringRetMessage, AddStringRetBytes, r.addString);
    if r.playerMove.Some? { PlayerMoveRetWritten(r.playerMove.value); }
    MessageField(5, PLAYER_MOVE_RET, PlayerMoveRetMessage, PlayerMoveRetBytes, r.playerMove);
    var parts := [Nest(10, r.functionName), Nest(18, Map(AddIntRetBytes, r.addInt)), Nest(26, Map(AddDoubleRetBytes, r.addDouble)), Nest(34, Map(AddStringRetBytes, r.addString)), Nest(42, Map(PlayerMoveRetBytes, r.playerMove))];
    Concat5(parts[0], parts[1], parts[2], parts[3], parts[4]);
    FieldsWritten(FUNCTION_RET, FunctionRetMessage(r).fields, parts);
  }

  lemma ConnectionReqWritten(c: ConnectionReq)
    ensures Written(CONNECTION_REQ, ConnectionReqMessage(c), ConnectionReqBytes(c))
  {
    hide FieldWritten, Written, Concat;
    FieldsWritten(CONNECTION_REQ, [], []);
    assert Concat([]) == [] by { NoParts(); }
  }

  lemma NoParts()
    ensures Concat([]) == []
  {
  }

  /** A repeated field is one record for each element, each short enough if all are together. */
  lemma {:induction false} FuncInfosWritten(infos: seq<FuncInfo>)
    ensures EncodeRecords(RepeatedRecords(1, FUNC_INFO, FuncInfoMessages(infos))) == FuncInfosBytes(infos)
    ensures |FuncInfoMessages(infos)| == |infos|
    ensures |FuncInfosBytes(infos)| <= 0x7fff_ffef ==>
      forall k | 0 <= k < |infos| ::
        MessageOk(FUNC_INFO, FuncInfoMessages(infos)[k]) && |Serialize(FUNC_INFO, FuncInfoMessages(infos)[k])| <= 0x7fff_ffef
  {
    hide Serialize, MessageOk, EncodeRecords, EncodeRecord, FuncInfoMessage, FuncInfoBytes, Varint;
    if infos == [] {
      NoRecords();
    } else {
      var m, b, rest := FuncInfoMessage(infos[0]), FuncInfoBytes(infos[0]), FuncInfoMessages(infos[1..]);
      FuncInfoWritten(infos[0]);
      FuncInfosWritten(infos[1..]);
      var r := Record(1, PBytes(b));
      FuncInfoRecord(b);
      SingleRecord(r);
      assert FuncInfoMessages(infos) == [m] + rest;
      assert RepeatedRecords(1, FUNC_INFO, [m] + rest) == [r] + RepeatedRecords(1, FUNC_INFO, rest) by {
        assert ([m] + rest)[1..] == rest;
      }
      EncodeConcat([r], RepeatedRecords(1, FUNC_INFO, rest));
    }
  }

  lemma FuncInfoRecord(b: Bytes)
    ensures EncodeRecord(Record(1, PBytes(b))) == Nest(10, Some(b)) && |Nest(10, Some(b))| > |b|
  {
    hide Varint;
    TagByte(10);
  }

  lemma ConnectionRetWritten(c: ConnectionRet)
    ensures Written(CONNECTION_RET, ConnectionRetMessage(c), ConnectionRetBytes(c))
  {
    hide Written, Concat, Serialize, MessageOk, RepeatedRecords, FuncInfoMessages, FuncInfosBytes, EncodeRecords;
    FuncInfosWritten(c.funcInfo);
    var b := FuncInfosBytes(c.funcInfo);
    NoInfos();
    assert FieldWritten(CONNECTION_RET.fields[0], ConnectionRetMessage(c).fields[0], b);
    FieldsWritten(CONNECTION_RET, ConnectionRetMessage(c).fields, [b]);
    Concat1(b);
  }

  lemma NoInfos()
    ensures FuncInfosBytes([]) == []
  {
  }

  /**
    Every request, whatever is set in it, is written as these bytes: 8 and the call type, then 18, 26, 34 or 42, a
    length, and the message it announces, in this order.
   */
  lemma RequestWritten(q: Request)
    ensures Serialize(REQUEST, RequestMessage(q)) == RequestBytes(q)
    ensures |RequestBytes(q)| <= 0x7fff_ffef ==> MessageOk(REQUEST, RequestMessage(q))
  {
    hide FieldWritten, Concat, Enum, Nest, Map, EnumValue, MessageValue, Serialize, MessageOk;
    EnumField(1, q.callType);
    if q.connectionReq.Some? { ConnectionReqWritten(q.connectionReq.value); }
    MessageField(2, CONNECTION_REQ, ConnectionReqMessage, ConnectionReqBytes, q.connectionReq);
    if q.connectionRet.Some? { ConnectionRetWritten(q.connectionRet.value); }
    MessageField(3, CONNECTION_RET, ConnectionRetMessage, ConnectionRetBytes, q.connectionRet);
    if q.functionCall.Some? { FunctionCallWritten(q.functionCall.value); }
    MessageField(4, FUNCTION_CALL, FunctionCallMessage, FunctionCallBytes, q.functionCall);
    if q.functionRet.Some? { FunctionRetWritten(q.functionRet.value); }
    MessageField(5, FUNCTION_RET, FunctionRetMessage, FunctionRetBytes, q.functionRet);
    var parts := [Enum(8, q.callType), Nest(18, Map(ConnectionReqBytes, q.connectionReq)), Nest(26, Map(ConnectionRetBytes, q.connectionRet)),
                  Nest(34, Map(FunctionCallBytes, q.functionCall)), Nest(42, Map(FunctionRetBytes, q.functionRet))];
    Concat5(parts[0], parts[1], parts[2], parts[3], parts[4]);
    FieldsWritten(REQUEST, RequestMessage(q).fields, parts);
  }

  // ---------------------------------------------------------------- and back

  /**
    Parsing those bytes gives back the request: each of the tags leads to its own field, at every depth, and nothing
    is left over.
   */
  lemma RequestParsed(q: Request)
    requires |RequestBytes(q)| <= 0x7fff_ffef
    ensures Parse(REQUEST, RequestBytes(q), Empty(REQUEST)) == (RequestMessage(q), true)
  {
    hide Parse, Serialize, MessageOk, SchemaOk, RequestBytes;
    SchemasOk();
    RequestWritten(q);
    Restores(REQUEST, RequestMessage(q), Empty(REQUEST));
    assert Message(RequestMessage(q).fields, [] + []) == RequestMessage(q);
  }

  /** Different records are different messages to the generic code. */
  ghost predicate Injective<A(!new)>(f: A -> Message) {
    forall a, b | f(a) == f(b) :: a == b
  }

  lemma SameValue<A(!new)>(f: A -> Message, a: Option<A>, b: Option<A>)
    requires Injective(f) && MessageValue(f, a) == MessageValue(f, b)
    ensures a == b
  {
    if a.Some? && b.Some? {
      assert f(a.value) == f(b.value);
    }
  }

  lemma ParamsInjective()
    ensures Injective(AddIntParamsMessage) && Injective(AddDoubleParamsMessage)
    ensures Injective(AddStringParamsMessage) && Injective(PlayerMoveParamsMessage)
  {
  }

  lemma RetsInjective()
    ensures Injective(AddIntRetMessage) && Injective(AddDoubleRetMessage)
    ensures Injective(AddStringRetMessage) && Injective(PlayerMoveRetMessage)
  {
  }

  lemma FunctionCallInjective()
    ensures Injective(FunctionCallMessage)
  {
    ParamsInjective();
    hide AddIntParamsMessage, AddDoubleParamsMessage, AddStringParamsMessage, PlayerMoveParamsMessage, MessageValue;
    forall a, b | FunctionCallMessage(a) == FunctionCallMessage(b)
      ensures a == b
    {
      var m, n := FunctionCallMessage(a).fields, FunctionCallMessage(b).fields;
      assert m[0] == n[0] && m[1] == n[1] && m[2] == n[2] && m[3] == n[3] && m[4] == n[4];
      SameValue(AddIntParamsMessage, a.addInt, b.addInt);
      SameValue(AddDoubleParamsMessage, a.addDouble, b.addDouble);
      SameValue(AddStringParamsMessage, a.addString, b.addString);
      SameValue(PlayerMoveParamsMessage, a.playerMove, b.playerMove);
    }
  }

  lemma FunctionRetInjective()
    ensures Injective(FunctionRetMessage)
  {
    RetsInjective();
    hide AddIntRetMessage, AddDoubleRetMessage, AddStringRetMessage, PlayerMoveRetMessage, MessageValue;
    forall a, b | FunctionRetMessage(a) == FunctionRetMessage(b)
      ensures a == b
    {
      var m, n := FunctionRetMessage(a).fields, FunctionRetMessage(b).fields;
      assert m[0] == n[0] && m[1] == n[1] && m[2] == n[2] && m[3] == n[3] && m[4] == n[4];
      SameValue(AddIntRetMessage, a.addInt, b.addInt);
      SameValue(AddDoubleRetMessage, a.addDouble, b.addDouble);
      SameValue(AddStringRetMessage, a.addString, b.addString);
      SameValue(PlayerMoveRetMessage, a.playerMove, b.playerMove);
    }
  }

  lemma FuncInfoInjective()
    ensures Injective(FuncInfoMessage)
  {
  }

  lemma {:induction false} SameFuncInfos(a: seq<FuncInfo>, b: seq<FuncInfo>)
    requires FuncInfoMessages(a) == FuncInfoMessages(b)
    ensures a == b
  {
    FuncInfoInjective();
    hide FuncInfoMessage;
    if a != [] && b != [] {
      var m, n := FuncInfoMessages(a), FuncInfoMessages(b);
      assert m[0] == FuncInfoMessage(a[0]) && n[0] == FuncInfoMessage(b[0]);
      assert m[1..] == FuncInfoMessages(a[1..]) && n[1..] == FuncInfoMessages(b[1..]);
      SameFuncInfos(a[1..], b[1..]);
      assert a == [a[0]] + a[1..] && b == [b[0]] + b[1..];
    }
  }

  lemma ConnectionRetInjective()
    ensures Injective(ConnectionRetMessage)
  {
    hide FuncInfoMessages;
    forall a, b | ConnectionRetMessage(a) == ConnectionRetMessage(b)
      ensures a == b
    {
      assert ConnectionRetMessage(a).fields[0] == ConnectionRetMessage(b).fields[0];
      if a.funcInfo != [] && b.funcInfo != [] {
        SameFuncInfos(a.funcInfo, b.funcInfo);
      }
    }
  }

  lemma ConnectionReqInjective()
    ensures Injective(ConnectionReqMessage)
  {
    forall a, b | ConnectionReqMessage(a) == ConnectionReqMessage(b)
      ensures a == b
    {
      assert a == ConnectionReq && b == ConnectionReq;
    }
  }

  lemma RequestInjective()
    ensures Injective(RequestMessage)
  {
    ConnectionReqInjective();
    ConnectionRetInjective();
    FunctionCallInjective();
    FunctionRetInjective();
    hide ConnectionRetMessage, FunctionCallMessage, FunctionRetMessage, MessageValue;
    forall a, b | RequestMessage(a) == RequestMessage(b)
      ensures a == b
    {
      var m, n := RequestMessage(a).fields, RequestMessage(b).fields;
      assert m[0] == n[0] && m[1] == n[1] && m[2] == n[2] && m[3] == n[3] && m[4] == n[4];
      SameValue(ConnectionReqMessage, a.connectionReq, b.connectionReq);
      SameValue(ConnectionRetMessage, a.connectionRet, b.connectionRet);
      SameValue(FunctionCallMessage, a.functionCall, b.functionCall);
      SameValue(FunctionRetMessage, a.functionRet, b.functionRet);
    }
  }

  /** No two requests have the same bytes: what is set, at every depth, can be told from them. */
  lemma BytesTellRequests(q: Request, r: Request)
    requires |RequestBytes(q)| <= 0x7fff_ffef && RequestBytes(q) == RequestBytes(r)
    ensures q == r
  {
    hide Parse, RequestBytes, RequestMessage, REQUEST;
    RequestParsed(q);
    RequestParsed(r);
    RequestInjective();
  }

  // ---------------------------------------------------------------- the requests that are sent

  /** The four things a request is made for. */
  datatype Content = Asks | Offers(offer: ConnectionRet) | Calls(call: FunctionCall) | Answers(answer: FunctionRet)

  /** `MakeRequest`: a question for the functions on offer has nothing in it but its type. */
  function MakeRequest(content: Content): Request {
    match content
    case Asks => Request(Some(0), None, None, None, None)
    case Offers(offer) => Request(Some(1), None, Some(offer), None, None)
    case Calls(call) => Request(Some(2), None, None, Some(call), None)
    case Answers(answer) => Request(Some(3), None, None, None, Some(answer))
  }

  /** A made request on the wire, and what its bytes are parsed to. */
  lemma MadeBytes(content: Content)
    ensures var b := Serialize(REQUEST, RequestMessage(MakeRequest(content)));
      match content
      case Asks => b == [8, 0]
      case Offers(offer) => var body := ConnectionRetBytes(offer); b == [8, 1, 26] + Varint(|body|) + body
      case Calls(call) => var body := FunctionCallBytes(call); b == [8, 2, 34] + Varint(|body|) + body
      case Answers(answer) => var body := FunctionRetBytes(answer); b == [8, 3, 42] + Varint(|body|) + body
  {
    hide Serialize, ConnectionRetBytes, FunctionCallBytes, FunctionRetBytes, RequestMessage;
    RequestWritten(MakeRequest(content));
    match content
    case Asks => OnlyType(0);
    case Offers(offer) => TypeAndBody(1, 26, ConnectionRetBytes(offer));
    case Calls(call) => TypeAndBody(2, 34, FunctionCallBytes(call));
    case Answers(answer) => TypeAndBody(3, 42, FunctionRetBytes(answer));
  }

  lemma OnlyType(n: Byte)
    requires n < 4
    ensures Enum(8, Some(n)) + [] + [] + [] + [] == [8, n]
  {
    TagByte(n);
  }

  lemma TypeAndBody(n: CallType, tag: Byte, body: Bytes)
    ensures var b: Bytes := [8, n, tag]; var e, t := Enum(8, Some(n)), Nest(tag, Some(body));
      && e + [] + t + [] + [] == b + Varint(|body|) + body
      && e + [] + [] + t + [] == b + Varint(|body|) + body
      && e + [] + [] + [] + t == b + Varint(|body|) + body
  {
    hide Varint;
    TagByte(n);
    TypeThenBody(n, tag, Varint(|body|), body);
    NothingBetween(Enum(8, Some(n)), Nest(tag, Some(body)));
  }

  lemma TypeThenBody(n: Byte, tag: Byte, length: Bytes, body: Bytes)
    ensures ([8] + [n]) + ([tag] + length + body) == [8, n, tag] + length + body
  {
  }

  lemma NothingBetween(e: Bytes, t: Bytes)
    ensures e + [] + t + [] + [] == e + t
    ensures e + [] + [] + t + [] == e + t
    ensures e + [] + [] + [] + t == e + t
  {
  }

  /** A made request short enough to be sent is received with every field, behind both headers. */
  lemma MadeReceived(content: Content)
    requires |SerializeRequest(RequestMessage(MakeRequest(content)))| < 128
    ensures var m := RequestMessage(MakeRequest(content));
      Sendable(m) && ParseRequest(SerializeRequest(m)) == Message(m.fields, HeaderTrace(|RequestBytes(MakeRequest(content))|))
  {
    hide Serialize, Parse, MessageOk, RequestBytes, Header;
    var q := MakeRequest(content);
    var m := RequestMessage(q);
    RequestWritten(q);
    ReceivedRequest(m);
    assert HeaderTrace(|RequestBytes(q)|) + [] == HeaderTrace(|RequestBytes(q)|);
  }
}
