/**
  Framing of requests over the ring buffer: network/Net.cpp writes a header and a body, serialization/Parser.h
  has already put a header in front of the body, and the reader loops take the frames out again.
 */
module Frames {
  import opened Words
  import opened Wire
  import opened Messages
  import opened Wrappers
  import R = RingBuffer

  // ---------------------------------------------------------------- the message types

  const HEADER := Schema([Field(1, KUInt32)])

  const FUNC_INFO := Schema([Field(1, KString), Field(2, KString), Field(3, KString)])
  const CONNECTION_REQ := Schema([])
  const CONNECTION_RET := Schema([Field(1, KRepeated(FUNC_INFO))])

  const ADD_INT_PARAMS := Schema([Field(1, KInt32), Field(2, KInt32)])
  const ADD_DOUBLE_PARAMS := Schema([Field(1, KDouble), Field(2, KDouble)])
  const ADD_STRING_PARAMS := Schema([Field(1, KString), Field(2, KString)])
  const PLAYER_MOVE_PARAMS := Schema([
    Field(1, KDouble), Field(2, KDouble), Field(3, KDouble),
    Field(4, KDouble), Field(5, KDouble), Field(6, KDouble)])
  const FUNCTION_CALL := Schema([
    Field(1, KString), Field(2, KMessage(ADD_INT_PARAMS)), Field(3, KMessage(ADD_DOUBLE_PARAMS)),
    Field(4, KMessage(ADD_STRING_PARAMS)), Field(5, KMessage(PLAYER_MOVE_PARAMS))])

  const ADD_INT_RET := Schema([Field(1, KInt32)])
  const ADD_DOUBLE_RET := Schema([Field(1, KDouble)])
  const ADD_STRING_RET := Schema([Field(1, KString)])
  const PLAYER_MOVE_RET := Schema([
    Field(1, KDouble), Field(2, KDouble), Field(3, KDouble), Field(5, KDouble)])
  const FUNCTION_RET := Schema([
    Field(1, KString), Field(2, KMessage(ADD_INT_RET)), Field(3, KMessage(ADD_DOUBLE_RET)),
    Field(4, KMessage(ADD_STRING_RET)), Field(5, KMessage(PLAYER_MOVE_RET))])

  const REQUEST := Schema([
    Field(1, KEnum(4)), Field(2, KMessage(CONNECTION_REQ)), Field(3, KMessage(CONNECTION_RET)),
    Field(4, KMessage(FUNCTION_CALL)), Field(5, KMessage(FUNCTION_RET))])

  lemma SchemasOk()
    ensures SchemaOk(HEADER) && SchemaOk(REQUEST)
  {
    hide CONNECTION_REQ, CONNECTION_RET, FUNCTION_CALL, FUNCTION_RET;
    ConnectionsOk();
    CallOk();
    RetOk();
  }

  lemma ConnectionsOk()
    ensures SchemaOk(CONNECTION_REQ) && SchemaOk(CONNECTION_RET)
  {
    assert SchemaOk(FUNC_INFO);
  }

  lemma CallOk()
    ensures SchemaOk(FUNCTION_CALL)
  {
    hide ADD_INT_PARAMS, ADD_DOUBLE_PARAMS, ADD_STRING_PARAMS, PLAYER_MOVE_PARAMS;
    ParamsOk();
  }

  lemma ParamsOk()
    ensures SchemaOk(ADD_INT_PARAMS) && SchemaOk(ADD_DOUBLE_PARAMS)
    ensures SchemaOk(ADD_STRING_PARAMS) && SchemaOk(PLAYER_MOVE_PARAMS)
  {
  }

  lemma RetOk()
    ensures SchemaOk(FUNCTION_RET)
  {
    hide ADD_INT_RET, ADD_DOUBLE_RET, ADD_STRING_RET, PLAYER_MOVE_RET;
    RetParamsOk();
  }

  lemma RetParamsOk()
    ensures SchemaOk(ADD_INT_RET) && SchemaOk(ADD_DOUBLE_RET)
    ensures SchemaOk(ADD_STRING_RET) && SchemaOk(PLAYER_MOVE_RET)
  {
  }

  // ---------------------------------------------------------------- headers

  /** A MsgHeader as a string; `set_msg_size` cuts the size to 32 bits. */
  function Header(size: nat): Bytes {
    Serialize(HEADER, Message([Some(VInt(size % WORD32))], []))
  }

  /** `msg_size()` after `ParseFromString`, whose failure nobody asks about; unset is 0. */
  function MsgSize(b: Bytes): nat {
    var (m, _) := Parse(HEADER, b, Empty(HEADER));
    if |m.fields| == 1 && m.fields[0].Some? && m.fields[0].value.VInt? && m.fields[0].value.n >= 0 then m.fields[0].value.n
    else 0
  }

  lemma HeaderBytes(size: nat)
    requires size < WORD32
    ensures Header(size) == [8] + Varint(size)
    ensures Header(size) == EncodeRecords([Record(1, PVarint(size))])
  {
    hide EncodeRecords, Varint, EncodeRecord;
    var m := Message([Some(VInt(size))], []);
    var r := Record(1, PVarint(size));
    assert Records(HEADER, m, 1) == [];
    assert Records(HEADER, m, 0) + m.unknown == [r];
    SingleRecord(r);
    HeaderRecord(size);
  }

  lemma HeaderRecord(size: nat)
    ensures EncodeRecord(Record(1, PVarint(size))) == [8] + Varint(size)
  {
    assert Varint(8) == [8];
  }

  /** The two bytes the reader takes for the header are a header exactly for sizes below 128. */
  lemma TwoByteHeader(size: nat)
    requires size < WORD32
    ensures |Header(size)| >= 2
    ensures MsgSize(Header(size)[..2]) == size <==> size < 128
    ensures |Header(size)| == 2 <==> size < 128
  {
    hide Parse, Serialize;
    HeaderBytes(size);
    var two := Header(size)[..2];
    if size < 128 {
      assert two == Header(size);
      ParseHeader(size);
    } else {
      assert two == [8, size % 128 + 128];
      CutHeader(size % 128 + 128);
    }
  }

  lemma ParseHeader(size: nat)
    requires size < WORD32
    ensures MsgSize(Header(size)) == size
  {
    hide Parse, Serialize;
    var m := Message([Some(VInt(size))], []);
    SchemasOk();
    assert MessageOk(HEADER, m);
    Restores(HEADER, m, Empty(HEADER));
  }

  /** A size cut off in the middle is read on into the zeros behind it: what is left are its low seven bits. */
  lemma CutHeader(b: Byte)
    requires b >= 128
    ensures MsgSize([8, b]) == b - 128
  {
    hide Apply, Overlong, ReadRecord;
    var two: Bytes := [8, b];
    var r := Record(1, PVarint(b - 128));
    CutRecord(b, ZEROS);
    assert Overrun(HEADER, Empty(HEADER), two) == Apply(HEADER, Empty(HEADER), r).0;
    HeaderClause(b - 128);
  }

  lemma CutRecord(b: Byte, zeros: Bytes)
    requires b >= 128 && zeros != [] && zeros[0] == 0
    ensures ReadRecord([8, b]) == None
    ensures ReadRecord([8, b] + zeros) == Some((Record(1, PVarint(b - 128)), 3))
  {
    hide ReadVarint;
    var all: Bytes := [8] + ([b] + zeros);
    assert [8, b] + zeros == all && zeros == [0] + zeros[1..] && all[1..] == [b] + zeros;
    FirstByte(0, zeros[1..], 9);
    FirstByte(b, zeros, 10);
    FirstByte(8, [b] + zeros, 5);
    RecordPrefix([8, b], zeros);
  }

  lemma FirstByte(b: Byte, rest: Bytes, max: nat)
    requires max > 0
    ensures ReadVarint([b] + rest, max) ==
      if b < 128 then Some((b, 1))
      else match ReadVarint(rest, max - 1)
        case None => None
        case Some((v, used)) => Some((b - 128 + 128 * v, used + 1))
  {
    assert ([b] + rest)[1..] == rest;
  }

  lemma HeaderClause(size: nat)
    requires size < WORD32
    ensures Apply(HEADER, Empty(HEADER), Record(1, PVarint(size))) == (Message([Some(VInt(size))], []), true)
  {
    var m := Empty(HEADER);
    assert FieldIndex(HEADER, 1) == 0 && m.fields == [None];
    assert SetField(m, 0, VInt(size)).fields == [Some(VInt(size))];
  }

  // ---------------------------------------------------------------- requests

  /** `yi::Serialize`: the body behind a first header. */
  function SerializeRequest(req: Message): Bytes {
    var body := Serialize(REQUEST, req);
    Header(|body|) + body
  }

  /** `yi::Parse`, straight over header and body; what the parse reports is not looked at. */
  function ParseRequest(b: Bytes): Message {
    Parse(REQUEST, b, Empty(REQUEST)).0
  }

  /** What `_Write` sends: a second header in front of the serialized request. */
  function Package(req: Message): Bytes {
    var s := SerializeRequest(req);
    Header(|s|) + s
  }

  /** A request the setters can build, with its call type set, short enough for a two-byte header. */
  ghost predicate Sendable(req: Message) {
    MessageOk(REQUEST, req) && req.fields[0].Some? && |SerializeRequest(req)| < 128
  }

  /** The first header is read as a call type; one that is out of range is left behind among the unknown fields. */
  function HeaderTrace(size: nat): seq<Record> {
    if size < 4 then [] else [Record(1, PVarint(size))]
  }

  /**
    The double header does no harm: parsing a serialized request gives back every field of it, for the real
    call type comes after the header and the later one wins. Only the unknown fields may gain one record.
   */
  lemma ParsedRequest(req: Message)
    requires MessageOk(REQUEST, req) && req.fields[0].Some? && |Serialize(REQUEST, req)| < 0x8000_0000
    ensures Parse(REQUEST, SerializeRequest(req), Empty(REQUEST)) ==
      (Message(req.fields, HeaderTrace(|Serialize(REQUEST, req)|) + req.unknown), true)
  {
    var size := |Serialize(REQUEST, req)|;
    var h := Record(1, PVarint(size));
    assert Encodable(h);
    hide Parse, Serialize, Records, EncodeRecords, Encodable, Apply, ApplyAll, Stray, MessageOk, SchemaOk;
    var rs := Records(REQUEST, req, 0) + req.unknown;
    SchemasOk();
    HeaderBytes(size);
    RequestRecords(req);
    EncodeConcat([h], rs);
    ParseRecords(REQUEST, Empty(REQUEST), [h] + rs);
    ApplyConcat(REQUEST, Empty(REQUEST), [h], rs);
    var base := AfterHeader(size);
    ApplyHeader(size);
    ParseRecords(REQUEST, base, rs);
    assert Blank(REQUEST, req, base, 0) by { BlankAfterHeader(req, size); }
    Restores(REQUEST, req, base);
    assert base.unknown == HeaderTrace(size);
    assert SerializeRequest(req) == EncodeRecords([h] + rs);
  }

  lemma RequestRecords(req: Message)
    requires MessageOk(REQUEST, req)
    ensures Serialize(REQUEST, req) == EncodeRecords(Records(REQUEST, req, 0) + req.unknown)
    ensures forall k | 0 <= k < |Records(REQUEST, req, 0) + req.unknown| :: Encodable((Records(REQUEST, req, 0) + req.unknown)[k])
  {
    hide Records, EncodeRecords, Encodable, Stray;
    SchemasOk();
    RecordsEncodable(REQUEST, req, 0);
    var rs := Records(REQUEST, req, 0);
    forall k | 0 <= k < |rs + req.unknown|
      ensures Encodable((rs + req.unknown)[k])
    {
      if k >= |rs| {
        assert Encodable(req.unknown[k - |rs|]);
      }
    }
  }

  /** An empty request once the first header has been applied to it. */
  function AfterHeader(size: nat): Message {
    if size < 4 then SetField(Empty(REQUEST), 0, VInt(size)) else AddUnknown(Empty(REQUEST), Record(1, PVarint(size)))
  }

  lemma ApplyHeader(size: nat)
    requires size < 0x8000_0000
    ensures ApplyAll(REQUEST, Empty(REQUEST), [Record(1, PVarint(size))]) == (AfterHeader(size), true)
  {
    hide Parse;
    OneRecord(REQUEST, Empty(REQUEST), [Record(1, PVarint(size))]);
    assert FieldIndex(REQUEST, 1) == 0;
  }

  lemma BlankAfterHeader(req: Message, size: nat)
    requires MessageOk(REQUEST, req) && req.fields[0].Some?
    ensures Blank(REQUEST, req, AfterHeader(size), 0)
  {
    hide Serialize, Stray;
  }

  // ---------------------------------------------------------------- the reader

  /** What the reader makes of a request. */
  function Received(req: Message): Message {
    Message(req.fields, HeaderTrace(|Serialize(REQUEST, req)|) + req.unknown)
  }

  function Stream(reqs: seq<Message>): Bytes {
    if reqs == [] then [] else Package(reqs[0]) + Stream(reqs[1..])
  }

  /**
    The test of the reader after it took the two bytes of a header: it compares the free space of the
    buffer, not the bytes that are there, with the size of the frame.
   */
  ghost predicate Blocked(capacity: nat, reqs: seq<Message>, k: nat)
    requires k < |reqs|
  {
    capacity - |Stream(reqs[k..])| + 2 < |SerializeRequest(reqs[k])|
  }

  lemma BlockedTest(capacity: nat, reqs: seq<Message>, k: nat, remain: nat, size: nat)
    requires k < |reqs| && remain + |Stream(reqs[k..])| == capacity + 2 && size == |SerializeRequest(reqs[k])|
    ensures Blocked(capacity, reqs, k) <==> remain < size
  {
  }

  lemma EmptyStream(reqs: seq<Message>)
    ensures Stream(reqs) == [] <==> reqs == []
  {
    if reqs != [] {
      HeaderNotEmpty(|SerializeRequest(reqs[0])|);
    }
  }

  lemma HeaderNotEmpty(size: nat)
    ensures |Header(size)| >= 2
  {
    hide Serialize;
    assert Header(size) == Header(size % WORD32);
    TwoByteHeader(size % WORD32);
  }

  /** Next frame of a stream: header, body and rest. */
  lemma NextFrame(reqs: seq<Message>, k: nat)
    requires k < |reqs| && Sendable(reqs[k])
    ensures var body, b := SerializeRequest(reqs[k]), Stream(reqs[k..]);
      && |b| >= 2 + |body| && |body| < 128 && MsgSize(b[..2]) == |body|
      && b[2..][..|body|] == body && b[2..][|body|..] == Stream(reqs[k + 1..])
  {
    hide MsgSize, Header, SerializeRequest, MessageOk;
    var body, b := SerializeRequest(reqs[k]), Stream(reqs[k..]);
    TwoByteHeader(|body|);
    var h := Header(|body|);
    assert reqs[k..][1..] == reqs[k + 1..];
    assert b == h + body + Stream(reqs[k + 1..]);
    assert b[..2] == h[..2];
    assert b[2..] == body + Stream(reqs[k + 1..]);
  }

  /**
    `_DoWriteFunctionCall` and `_DoWriteFunctionRet`, over a buffer that holds whole frames: a prefix of the
    requests is dispatched, in order and with all their fields, and exactly the frames of the others stay.
    It stops at the first frame larger than the free space, or when all are done.
   */
  method DispatchRequests(ring: R.RingBuffer<Byte>, ghost reqs: seq<Message>) returns (dispatched: seq<Message>)
    requires ring.Valid() && ring.Contents() == Stream(reqs)
    requires forall i | 0 <= i < |reqs| :: Sendable(reqs[i])
    modifies ring`readPos, ring`taken
    ensures ring.Valid() && |dispatched| <= |reqs|
    ensures forall i | 0 <= i < |dispatched| :: dispatched[i] == Received(reqs[i])
    ensures ring.Contents() == Stream(reqs[|dispatched|..])
    ensures forall k | 0 <= k < |dispatched| :: !Blocked(ring.capacity, reqs, k)
    ensures |dispatched| < |reqs| ==> Blocked(ring.capacity, reqs, |dispatched|)
  {
    hide Sendable, SerializeRequest, MsgSize, Stream, Received, ParseRequest, Blocked;
    hide R.RingBuffer.Valid, R.RingBuffer.Size, R.RingBuffer.Remain, R.RingBuffer.IsEmpty;
    var buffer := new Byte[8 * 1024](_ => 0);
    dispatched := [];
    assert reqs[0..] == reqs;
    while !ring.IsEmpty()
      invariant ring.Valid() && |dispatched| <= |reqs| && ring.Contents() == Stream(reqs[|dispatched|..])
      invariant forall i | 0 <= i < |dispatched| :: dispatched[i] == Received(reqs[i])
      invariant forall k | 0 <= k < |dispatched| :: !Blocked(ring.capacity, reqs, k)
      decreases |reqs| - |dispatched|
    {
      ghost var k := |dispatched|;
      EmptyStream(reqs[k..]);
      assert ring.Remain() + |ring.Contents()| == ring.capacity;
      NextFrame(reqs, k);
      var size := ring.Readn(buffer, 2);
      var msgSize := MsgSize(buffer[..size]);
      BlockedTest(ring.capacity, reqs, k, ring.Remain(), msgSize);
      if ring.Remain() < msgSize {
        ring.Retrive(size);
        return;
      }
      var count := ring.Readn(buffer, msgSize);
      dispatched := dispatched + [ParseRequest(buffer[..msgSize])];
      ReceivedRequest(reqs[k]);
    }
    EmptyStream(reqs[|dispatched|..]);
  }

  lemma ReceivedRequest(req: Message)
    requires Sendable(req)
    ensures ParseRequest(SerializeRequest(req)) == Received(req)
  {
    hide Parse, Serialize, MessageOk, Header;
    ParsedRequest(req);
  }

  /** With room for one more full frame besides the buffered ones the reader never stops early. */
  lemma {:induction false} RoomForAll(capacity: nat, reqs: seq<Message>, k: nat)
    requires k < |reqs| && forall i | 0 <= i < |reqs| :: Sendable(reqs[i])
    requires |Stream(reqs)| + 125 <= capacity
    ensures !Blocked(capacity, reqs, k)
  {
    hide SerializeRequest, MessageOk, Package;
    SuffixShorter(reqs, k);
  }

  /**
    A buffer filled to the brim with whole frames is never read: the free space is nil, so the test sends the
    reader away before the first frame, although the frame is there; and no byte can be written any more.
   */
  lemma FullBufferStalls(capacity: nat, reqs: seq<Message>)
    requires reqs != [] && Sendable(reqs[0]) && |Stream(reqs)| == capacity
    ensures Blocked(capacity, reqs, 0)
  {
    hide Serialize, MessageOk, Package, Header;
    var req := reqs[0];
    HeaderNotEmpty(|Serialize(REQUEST, req)|);
    BodyNotEmpty(req);
    assert reqs[0..] == reqs;
  }

  lemma BodyNotEmpty(req: Message)
    requires MessageOk(REQUEST, req) && req.fields[0].Some?
    ensures Serialize(REQUEST, req) != []
  {
    hide EncodeRecord;
    assert ValueOk(KEnum(4), req.fields[0].value);
    assert |ValueRecords(REQUEST.fields[0], req.fields[0].value)| == 1;
  }

  /** A request that lists the functions on offer when there are none; its package takes eight bytes. */
  const NO_FUNCTIONS := Message([Some(VInt(1)), None, Some(VMessage(Message([None], []))), None, None], [])

  lemma NoFunctionsBody()
    ensures MessageOk(REQUEST, NO_FUNCTIONS) && Serialize(REQUEST, NO_FUNCTIONS) == [8, 1, 26, 0]
  {
    hide EncodeRecords, EncodeRecord, Records, Stray;
    var r1, r2 := Record(1, PVarint(1)), Record(3, PBytes([]));
    EmptyList();
    NoFunctionsRecords();
    TwoRecords(r1, r2);
    HeaderRecord(1);
    ListRecord();
    assert [8, 1] == [8] + Varint(1);
  }

  lemma EmptyList()
    ensures MessageOk(CONNECTION_RET, Message([None], [])) && Serialize(CONNECTION_RET, Message([None], [])) == []
  {
    assert Records(CONNECTION_RET, Message([None], []), 1) == [];
  }

  lemma NoFunctionsRecords()
    ensures Records(REQUEST, NO_FUNCTIONS, 0) + [] == [Record(1, PVarint(1)), Record(3, PBytes([]))]
  {
    hide Serialize;
    EmptyList();
    var m := NO_FUNCTIONS;
    assert Records(REQUEST, m, 3) == [] by {
      assert Records(REQUEST, m, 5) == [];
      assert Records(REQUEST, m, 4) == [];
    }
    assert Records(REQUEST, m, 2) == [Record(3, PBytes([]))];
    assert Records(REQUEST, m, 1) == [Record(3, PBytes([]))];
  }

  lemma TwoRecords(r1: Record, r2: Record)
    ensures EncodeRecords([r1, r2]) == EncodeRecord(r1) + EncodeRecord(r2)
  {
    hide EncodeRecord;
    assert [r1, r2][1..] == [r2];
    SingleRecord(r2);
  }

  lemma ListRecord()
    ensures EncodeRecord(Record(3, PBytes([]))) == [26, 0]
  {
    assert Varint(26) == [26] && Varint(0) == [0];
  }

  lemma NoFunctionsPackage()
    ensures Sendable(NO_FUNCTIONS) && |Package(NO_FUNCTIONS)| == 8 && Stream([NO_FUNCTIONS]) == Package(NO_FUNCTIONS)
  {
    hide Serialize, MessageOk;
    NoFunctionsBody();
    HeaderBytes(4);
    HeaderBytes(6);
    assert SerializeRequest(NO_FUNCTIONS) == [8, 4, 8, 1, 26, 0];
    assert [NO_FUNCTIONS][1..] == [];
    assert Stream([]) == [];
  }

  /**
    A run that ends in such a state: a ring buffer of eight bytes takes the whole package from src, and the reader
    that is called then dispatches nothing and leaves every byte where it is.
   */
  method FullBufferRun(src: array<Byte>) returns (ring: R.RingBuffer<Byte>, dispatched: seq<Message>)
    requires src[..] == Package(NO_FUNCTIONS)
    ensures ring.Valid() && ring.capacity == 8
    ensures Sendable(NO_FUNCTIONS)
    ensures ring.Contents() == Stream([NO_FUNCTIONS]) && |ring.Contents()| == ring.capacity
    ensures dispatched == []
  {
    hide Package, Stream, Sendable, Blocked, Received, Serialize, NO_FUNCTIONS;
    hide R.RingBuffer.Valid, R.RingBuffer.Size, R.RingBuffer.Remain, R.RingBuffer.IsEmpty;
    ring := new R.RingBuffer<Byte>(8);
    EightBytes(ring);
    NoFunctionsPackage();
    var written := ring.Writen(src, 8);
    assert src[..8] == src[..];
    FullBufferStalls(8, [NO_FUNCTIONS]);
    dispatched := DispatchRequests(ring, [NO_FUNCTIONS]);
    assert [NO_FUNCTIONS][0..] == [NO_FUNCTIONS];
  }

  lemma EightBytes(ring: R.RingBuffer<Byte>)
    requires ring.Valid() && 8 <= ring.capacity < 16
    ensures ring.capacity == 8
  {
    assert Pow2(3) == 8 && Pow2(4) == 16;
    if ring.bits < 3 {
      Pow2Monotone(ring.bits, 3);
    } else if ring.bits > 3 {
      Pow2Monotone(4, ring.bits);
    }
  }

  lemma {:induction false} SuffixShorter(reqs: seq<Message>, k: nat)
    requires k <= |reqs|
    ensures |Stream(reqs[k..])| <= |Stream(reqs)|
  {
    hide Package;
    if k == 0 {
      assert reqs[0..] == reqs;
    } else {
      SuffixShorter(reqs[1..], k - 1);
      assert reqs[1..][k - 1..] == reqs[k..];
    }
  }
}
