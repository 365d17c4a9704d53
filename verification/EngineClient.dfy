/** The framed request and reply client of tsf/Ohagey/OhageyEngineClient.cpp, over a pipe that may
    split or fail any transfer. */
module EngineClient {
  import opened Wrappers
  import opened MachineIntegers
  import opened WireFormat
  import opened WireIO
  import opened WireMessages
  import opened WireParsers
  import opened WireLaws

  const MAX_PAYLOAD := 8 * 1024 * 1024
  const HEADER_SIZE := 4

  // ---- Frames ----

  /** The payload length, little-endian. */
  function Header(length: uint32): (r: bytes)
    ensures |r| == HEADER_SIZE
  {
    [length % 0x100, length / 0x100 % 0x100, length / 0x1_0000 % 0x100, length / 0x100_0000]
  }

  function ReadHeader(h: bytes): uint32
    requires |h| == HEADER_SIZE
  {
    var b0: int, b1: int, b2: int, b3: int := h[0], h[1], h[2], h[3];
    b0 + b1 * 0x100 + b2 * 0x1_0000 + b3 * 0x100_0000
  }

  lemma HeaderReadsBack(length: uint32)
    ensures ReadHeader(Header(length)) == length
  {
    HeaderParts(length);
  }

  lemma HeaderParts(length: nat)
    ensures length == length % 0x100 + (length / 0x100 % 0x100) * 0x100 + (length / 0x1_0000 % 0x100) * 0x1_0000
                    + (length / 0x100_0000) * 0x100_0000
  {
    assert length / 0x1_0000 == length / 0x100 / 0x100;
    assert length / 0x100_0000 == length / 0x1_0000 / 0x100;
  }

  lemma HeaderIsUnique(h: bytes)
    requires |h| == HEADER_SIZE
    ensures ReadHeader(h) < TWO_32 && Header(ReadHeader(h)) == h
  {
    var b0: int, b1: int, b2: int, b3: int := h[0], h[1], h[2], h[3];
    var n := b0 + 0x100 * (b1 + 0x100 * (b2 + 0x100 * b3));
    assert ReadHeader(h) == n;
    assert n / 0x100 == b1 + 0x100 * (b2 + 0x100 * b3);
    assert n / 0x1_0000 == n / 0x100 / 0x100 == b2 + 0x100 * b3;
    assert n / 0x100_0000 == n / 0x1_0000 / 0x100 == b3;
  }

  /** Payloads whose length a header can carry. */
  predicate Framable(payload: bytes) {
    |payload| + HEADER_SIZE < TWO_32
  }

  function Frame(payload: bytes): bytes
    requires Framable(payload)
  {
    Header(|payload|) + payload
  }

  predicate AllFramable(payloads: seq<bytes>) {
    forall p :: p in payloads ==> Framable(p)
  }

  /** The bytes of whole frames, one after another. */
  function Frames(payloads: seq<bytes>): bytes
    requires AllFramable(payloads)
  {
    if payloads == [] then [] else Frame(payloads[0]) + Frames(payloads[1..])
  }

  lemma {:induction false} FramesAppend(payloads: seq<bytes>, p: bytes)
    requires AllFramable(payloads) && Framable(p)
    ensures AllFramable(payloads + [p])
    ensures Frames(payloads + [p]) == Frames(payloads) + Frame(p)
  {
    if payloads == [] {
      assert [] + [p] == [p] && [p][1..] == [];
      assert Frames([p]) == Frame(p) + Frames([]);
    } else {
      assert (payloads + [p])[1..] == payloads[1..] + [p];
      FramesAppend(payloads[1..], p);
      assert Frame(payloads[0]) + (Frames(payloads[1..]) + Frame(p))
         == (Frame(payloads[0]) + Frames(payloads[1..])) + Frame(p);
    }
  }

  lemma Sliced(h: bytes, p: bytes, rest: bytes, stream: bytes)
    requires stream == h + p + rest
    ensures stream[..|h|] == h && stream[|h|..|h| + |p|] == p && stream[|h| + |p|..] == rest
  {
  }

  lemma FirstFrame(payloads: seq<bytes>)
    requires AllFramable(payloads) && payloads != []
    ensures var stream, size := Frames(payloads), |payloads[0]|;
            && |stream| >= HEADER_SIZE + size
            && ReadHeader(stream[..HEADER_SIZE]) == size
            && stream[HEADER_SIZE..HEADER_SIZE + size] == payloads[0]
            && stream[HEADER_SIZE + size..] == Frames(payloads[1..])
  {
    hide Header, ReadHeader;
    var p := payloads[0];
    assert Framable(p);
    HeaderReadsBack(|p|);
    Sliced(Header(|p|), p, Frames(payloads[1..]), Frames(payloads));
  }

  /** Whole frames can be told apart: the bytes alone determine the payloads, so how many have
      gone by is a fact about the stream. */
  lemma {:induction false} FramesAreUnique(a: seq<bytes>, b: seq<bytes>)
    requires AllFramable(a) && AllFramable(b) && Frames(a) == Frames(b)
    ensures a == b
  {
    if a != [] { FirstFrame(a); }
    if b != [] { FirstFrame(b); }
    if a != [] && b != [] {
      FramesAreUnique(a[1..], b[1..]);
    }
  }

  // ---- Requests ----

  function ConvertBodyFields(reading: bytes, nBest: uint32, preceding: bytes): seq<Field> {
    TextFields(1, reading) + NumberFields(2, nBest)
    + if preceding == [] then [] else [Field(3, Body(EncodeAll(TextFields(1, preceding))))]
  }

  function CommitBodyFields(reading: bytes, text: bytes, updateLearning: bool): seq<Field> {
    TextFields(1, reading) + TextFields(2, text) + NumberFields(3, if updateLearning then 1 else 0)
  }

  function RequestFields(id: uint32, kind: uint32, body: seq<Field>): seq<Field> {
    NumberFields(REQUEST_ID, id) + [Field(kind, Body(EncodeAll(body)))]
  }

  /** What the engine finds in a request: its id unless that is 0, and the one kind asked for. */
  lemma RequestReadBack(id: uint32, kind: uint32, body: seq<Field>)
    requires kind != 0 && |EncodeAll(RequestFields(id, kind, body))| < TWO_64
    requires forall f :: f in body ==> f.number != 0 && (f.payload.Body? || f.payload.Number?)
    ensures var request := EncodeAll(RequestFields(id, kind, body));
            && Decode(request) == Message(RequestFields(id, kind, body), true)
            && Decode(EncodeAll(body)) == Message(body, true)
            && FirstId(request) == if id == 0 then None else Some(id)
  {
    hide EncodeAll, FirstId, Decode;
    var fs := RequestFields(id, kind, body);
    FieldsFit(fs);
    assert Field(kind, Body(EncodeAll(body))) in fs;
    FieldsFit(body);
    DecodeInvertsEncode(body);
    DecodeInvertsEncode(fs);
    IdOfFields(EncodeAll(fs));
    if id == 0 { assert fs[1..] == []; }
  }

  function RequestKind(call: Call): uint32 {
    match call
    case ConvertCall => 2
    case CommitCall => 3
    case RegisterWordCall => 4
    case PingCall => 5
  }

  predicate OnlyTextAndNumbers(fs: seq<Field>) {
    forall f :: f in fs ==> f.number != 0 && (f.payload.Body? || f.payload.Number?)
  }

  /** A body no longer than the request that carries it has no part longer than that. */
  lemma BodyFits(id: uint32, kind: uint32, body: seq<Field>)
    requires kind != 0 && OnlyTextAndNumbers(body)
    requires |EncodeAll(RequestFields(id, kind, body))| < TWO_64
    ensures |EncodeAll(body)| < TWO_64
    ensures forall f :: f in body && f.payload.Body? ==> |f.payload.body| < TWO_64
  {
    hide EncodeAll;
    FieldsFit(RequestFields(id, kind, body));
    assert Field(kind, Body(EncodeAll(body))) in RequestFields(id, kind, body);
    FieldsFit(body);
  }

  lemma ConvertBodyFits(id: uint32, reading: bytes, nBest: uint32, preceding: bytes)
    requires |EncodeAll(RequestFields(id, 2, ConvertBodyFields(reading, nBest, preceding)))| < TWO_64
    ensures OnlyTextAndNumbers(ConvertBodyFields(reading, nBest, preceding))
    ensures |reading| < TWO_64 && |preceding| < TWO_64 && |EncodeAll(TextFields(1, preceding))| < TWO_64
  {
    hide EncodeAll;
    var fs := ConvertBodyFields(reading, nBest, preceding);
    BodyFits(id, 2, fs);
    if reading != [] { assert Field(1, Body(reading)) in fs; }
    if preceding != [] {
      assert Field(3, Body(EncodeAll(TextFields(1, preceding)))) in fs;
      FieldsFit(TextFields(1, preceding));
      assert Field(1, Body(preceding)) in TextFields(1, preceding);
    } else {
      assert TextFields(1, preceding) == [];
      NothingWritten();
    }
  }

  lemma NothingWritten()
    ensures EncodeAll([]) == []
  {
  }

  lemma ConvertBodyBytes(reading: bytes, nBest: uint32, preceding: bytes)
    ensures EncodeAll(ConvertBodyFields(reading, nBest, preceding))
         == EncodeAll(TextFields(1, reading)) + EncodeAll(NumberFields(2, nBest))
            + if preceding == [] then [] else EncodeAll([Field(3, Body(EncodeAll(TextFields(1, preceding))))])
  {
    hide EncodeAll;
    NothingWritten();
    var last := if preceding == [] then [] else [Field(3, Body(EncodeAll(TextFields(1, preceding))))];
    EncodeAllConcat(TextFields(1, reading), NumberFields(2, nBest));
    EncodeAllConcat(TextFields(1, reading) + NumberFields(2, nBest), last);
  }

  lemma CommitBodyFits(id: uint32, reading: bytes, text: bytes, updateLearning: bool)
    requires |EncodeAll(RequestFields(id, 3, CommitBodyFields(reading, text, updateLearning)))| < TWO_64
    ensures OnlyTextAndNumbers(CommitBodyFields(reading, text, updateLearning))
    ensures |reading| < TWO_64 && |text| < TWO_64
  {
    hide EncodeAll;
    var fs := CommitBodyFields(reading, text, updateLearning);
    BodyFits(id, 3, fs);
    if reading != [] { assert Field(1, Body(reading)) in fs; }
    if text != [] { assert Field(2, Body(text)) in fs; }
  }

  lemma CommitBodyBytes(reading: bytes, text: bytes, updateLearning: bool)
    ensures EncodeAll(CommitBodyFields(reading, text, updateLearning))
         == EncodeAll(TextFields(1, reading)) + EncodeAll(TextFields(2, text))
            + EncodeAll(NumberFields(3, if updateLearning then 1 else 0))
  {
    hide EncodeAll;
    EncodeAllConcat(TextFields(1, reading), TextFields(2, text));
    EncodeAllConcat(TextFields(1, reading) + TextFields(2, text), NumberFields(3, if updateLearning then 1 else 0));
  }

  // ---- The pipe ----

  /** One open connection. What the operating system does with a transfer is not determined: it
      may take or give fewer bytes than asked, or fail. `sent` and `received` are the two byte
      streams as they have gone by, and `broken` is whether a transfer has failed or come to nothing. */
  class Pipe {
    ghost var sent: bytes
    ghost var received: bytes
    ghost var broken: bool

    constructor ()
      ensures sent == [] && received == [] && !broken
    {
      sent, received, broken := [], [], false;
    }

    method WriteFile(data: bytes) returns (ok: bool, written: nat)
      modifies this`sent, this`broken
      ensures written <= |data|
      ensures data[..written] <= data && sent == old(sent) + data[..written]
      ensures broken <==> old(broken) || !ok || (data != [] && written == 0)
    {
      ok := *;
      var taken: int := *;
      written := if 0 <= taken <= |data| then taken else |data|;
      sent := sent + data[..written];
      broken := broken || !ok || (data != [] && written == 0);
    }

    method ReadFile(size: nat) returns (ok: bool, data: bytes)
      modifies this`received, this`broken
      ensures |data| <= size
      ensures received == old(received) + data
      ensures broken <==> old(broken) || !ok || (size > 0 && data == [])
    {
      ok := *;
      data := *;
      if |data| > size {
        data := data[..size];
      }
      received := received + data;
      broken := broken || !ok || (size > 0 && data == []);
    }
  }

  // ---- The client ----

  /** An id is found in a request unless it is 0, which proto3 leaves out. */
  function SentId(id: uint32): Option<uint32> {
    if id == 0 then None else Some(id)
  }

  lemma NothingHasNoId()
    ensures FirstId([]) == None
  {
  }

  class EngineClient {
    var pipe: Pipe?
    var nextRequestId: uint32
    var lastStatus: Status

    // What has been exchanged over the current connection.
    ghost var requests: seq<bytes>
    ghost var replies: seq<bytes>
    ghost var ids: seq<uint32>

    /** While a connection is open it stands at a frame boundary in both directions, as many whole
        replies have come in as requests have gone out, and each reply is under the id of the
        request it answers. */
    ghost predicate Valid()
      reads this, pipe
    {
      pipe != null ==>
        && AllFramable(requests) && AllFramable(replies)
        && pipe.sent == Frames(requests) && pipe.received == Frames(replies) && !pipe.broken
        && |requests| == |replies| == |ids|
        && forall i :: 0 <= i < |ids| ==> FirstId(requests[i]) == SentId(ids[i]) && FirstId(replies[i]) == Some(ids[i])
    }

    constructor ()
      ensures Valid() && pipe == null && nextRequestId == 1 && lastStatus == OK_STATUS
    {
      pipe, nextRequestId, lastStatus := null, 1, OK_STATUS;
      requests, replies, ids := [], [], [];
    }

    /** Opens the pipe if it is not open; whether that works is up to the system. */
    method Connect() returns (ok: bool)
      requires Valid()
      modifies this`pipe, this`requests, this`replies, this`ids
      ensures Valid() && ok == (pipe != null)
      ensures old(pipe) != null ==> pipe == old(pipe) && requests == old(requests)
      ensures old(pipe) != null ==> replies == old(replies) && ids == old(ids)
      ensures old(pipe) == null && pipe != null ==> fresh(pipe) && requests == []
    {
      if pipe != null {
        return true;
      }
      ok := *;
      if ok {
        pipe := new Pipe();
        requests, replies, ids := [], [], [];
      }
    }

    method Disconnect()
      modifies this`pipe
      ensures pipe == null
    {
      pipe := null;
    }

    method WriteAll(data: bytes) returns (ok: bool)
      requires pipe != null
      modifies pipe`sent, pipe`broken
      ensures ok ==> pipe.sent == old(pipe.sent) + data && pipe.broken == old(pipe.broken)
      ensures !ok ==> pipe.broken
    {
      var offset := 0;
      while offset < |data|
        invariant 0 <= offset <= |data|
        invariant pipe.sent == old(pipe.sent) + data[..offset] && pipe.broken == old(pipe.broken)
      {
        var done, written := pipe.WriteFile(data[offset..]);
        assert data[..offset] + data[offset..][..written] == data[..offset + written];
        if !done || written == 0 {
          return false;
        }
        offset := offset + written;
      }
      assert data[..offset] == data;
      return true;
    }

    method ReadAll(size: nat) returns (ok: bool, data: bytes)
      requires pipe != null
      modifies pipe`received, pipe`broken
      ensures ok ==> |data| == size && pipe.received == old(pipe.received) + data && pipe.broken == old(pipe.broken)
      ensures !ok ==> pipe.broken
    {
      data := [];
      while |data| < size
        invariant |data| <= size
        invariant pipe.received == old(pipe.received) + data && pipe.broken == old(pipe.broken)
        decreases size - |data|
      {
        var done, chunk := pipe.ReadFile(size - |data|);
        if !done || |chunk| == 0 {
          return false, data;
        }
        data := data + chunk;
      }
      return true, data;
    }

    /** What a pipe that stood at a frame boundary has brought since: a whole reply, or a header that
        announces more than is accepted. */
    ghost predicate Came(received: bytes, before: seq<bytes>, reply: bytes)
      requires AllFramable(before)
    {
      || (Framable(reply) && received == Frames(before) + Frame(reply))
      || (reply == [] && exists header: bytes {:trigger ReadHeader(header)} ::
            |header| == 4 && ReadHeader(header) > 8 * 1024 * 1024 && received == Frames(before) + header)
    }

    /** A request goes out and its answer comes back, each in a frame. No way of failing leaves the
        connection open. `used` is the pipe it was tried on: as long as that does not break, the
        connection stays open exactly when the reply carries the request's id. */
    method Exchange(payload: bytes, requestId: uint32)
      returns (result: CallResult, reply: bytes, ghost used: Pipe?)
      requires Valid() && Framable(payload) && FirstId(payload) == SentId(requestId)
      modifies this`pipe, this`requests, this`replies, this`ids, pipe
      ensures Valid()
      ensures result == CallOk <==> pipe != null
      ensures result in {CallOk, NotConnected, WriteFailed, ReadFailed, BadResponse}
      ensures result == CallOk ==> FirstId(reply) == Some(requestId)
      ensures result == CallOk ==>
                && requests == (if old(pipe) == null then [] else old(requests)) + [payload]
                && replies == (if old(pipe) == null then [] else old(replies)) + [reply]
      ensures pipe != null ==> pipe == old(pipe) || fresh(pipe)
      ensures used != null && !used.broken ==>
                && (pipe != null <==> FirstId(reply) == Some(requestId))
                && (old(pipe) != null ==> AllFramable(old(replies)))
                && Came(used.received, if old(pipe) == null then [] else old(replies), reply)
      ensures used == null <==> result == NotConnected
    {
      hide Header, ReadHeader, Frames, FirstId, SentId;
      reply := [];
      used := null;
      var connected := Connect();
      if !connected {
        return NotConnected, reply, used;
      }
      used := pipe;
      NothingHasNoId();
      var written := WriteAll(Frame(payload));
      if !written {
        Disconnect();
        return WriteFailed, reply, used;
      }
      var read, header := ReadAll(HEADER_SIZE);
      if !read {
        Disconnect();
        return ReadFailed, reply, used;
      }
      var length := ReadHeader(header);
      if length > MAX_PAYLOAD {
        Disconnect();
        return BadResponse, reply, used;
      }
      read, reply := ReadAll(length);
      if !read {
        Disconnect();
        return ReadFailed, reply, used;
      }
      HeaderIsUnique(header);
      assert (Frames(replies) + header) + reply == Frames(replies) + (header + reply);
      var id := FindRequestId(reply);
      if id != Some(requestId) {
        Disconnect();
        return BadResponse, reply, used;
      }
      FramesAppend(requests, payload);
      FramesAppend(replies, reply);
      requests, replies, ids := requests + [payload], replies + [reply], ids + [requestId];
      return CallOk, reply, used;
    }

    /** The latest exchange on the open connection carried this request, and `out` is what its
        reply says, read over `initial`. */
    ghost predicate Answered(call: Call, id: uint32, fields: seq<Field>, initial: Reply, result: CallResult, out: Reply)
      reads this
    {
      && requests != [] && replies != []
      && requests[|requests| - 1] == EncodeAll(RequestFields(id, RequestKind(call), fields))
      && (result, out) == ReadReply(call, initial, replies[|replies| - 1])
    }

    /** A request around a body: the id, left out when it is 0, and the one kind asked for. */
    method Envelope(call: Call, id: uint32, body: bytes, ghost fields: seq<Field>) returns (request: bytes)
      requires body == EncodeAll(fields) && OnlyTextAndNumbers(fields)
      requires Framable(EncodeAll(RequestFields(id, RequestKind(call), fields)))
      ensures request == EncodeAll(RequestFields(id, RequestKind(call), fields))
      ensures FirstId(request) == SentId(id)
    {
      hide EncodeAll, FirstId, Decode;
      BodyFits(id, RequestKind(call), fields);
      RequestReadBack(id, RequestKind(call), fields);
      EncodeAllConcat(NumberFields(REQUEST_ID, id), [Field(RequestKind(call), Body(body))]);
      var buffer := new ByteBuffer();
      buffer.WriteUInt32(REQUEST_ID, id);
      buffer.WriteMessage(RequestKind(call), body);
      return buffer.contents;
    }

    /** The part every call shares: number the request, exchange it, read the reply. A reply that
        was exchanged but does not decode leaves the connection open. */
    method Ask(call: Call, body: bytes, ghost fields: seq<Field>, initial: Reply)
      returns (result: CallResult, out: Reply)
      requires Valid() && initial.status == lastStatus
      requires body == EncodeAll(fields) && OnlyTextAndNumbers(fields)
      requires Framable(EncodeAll(RequestFields(nextRequestId, RequestKind(call), fields)))
      modifies this, pipe
      ensures Valid() && (pipe == null || pipe == old(pipe) || fresh(pipe))
      ensures nextRequestId == (old(nextRequestId) + 1) % TWO_32
      ensures lastStatus == out.status
      ensures if pipe == null then result in {NotConnected, WriteFailed, ReadFailed, BadResponse} && out == initial
              else Answered(call, old(nextRequestId), fields, initial, result, out)
      ensures pipe != null && !initial.sawBody ==>
                (result == BadResponse <==> Unusable(call, initial, replies[|replies| - 1]))
    {
      hide EncodeAll, Frames, FirstId, Decode, ParseMessage, RequestFields, Unusable, ReadReply;
      var id := nextRequestId;
      nextRequestId := (id + 1) % TWO_32;
      var request := Envelope(call, id, body, fields);
      out := initial;
      var reply;
      ghost var used;
      result, reply, used := Exchange(request, id);
      if result != CallOk {
        return;
      }
      result, out := ReadResponse(call, initial, reply);
      lastStatus := out.status;
      if !initial.sawBody { BadResponseIffUnusable(call, initial, reply); }
    }

    method Convert(reading: bytes, nBest: uint32, preceding: bytes, initial: ConvertResult)
      returns (result: CallResult, out: ConvertResult)
      requires Valid()
      requires Framable(EncodeAll(RequestFields(nextRequestId, RequestKind(ConvertCall),
                                                 ConvertBodyFields(reading, nBest, preceding))))
      modifies this, pipe
      ensures Valid() && (pipe == null || pipe == old(pipe) || fresh(pipe))
      ensures pipe == null ==> result in {NotConnected, WriteFailed, ReadFailed, BadResponse} && out == initial
      ensures pipe == null ==> lastStatus == old(lastStatus)
      ensures pipe != null ==> exists reply: Reply ::
                && Answered(ConvertCall, old(nextRequestId), ConvertBodyFields(reading, nBest, preceding),
                            Reply(old(lastStatus), false, NO_RESULT, NO_PING), result, reply)
                && out == reply.convert && lastStatus == reply.status
      ensures pipe != null && replies != [] ==>
                (result == BadResponse <==>
                 Unusable(ConvertCall, Reply(old(lastStatus), false, NO_RESULT, NO_PING), replies[|replies| - 1]))
    {
      hide EncodeAll, Unusable, ReadReply;
      ConvertBodyFits(nextRequestId, reading, nBest, preceding);
      var body := new ByteBuffer();
      body.WriteString(1, reading);
      body.WriteUInt32(2, nBest);
      if preceding != [] {
        var context := new ByteBuffer();
        context.WriteString(1, preceding);
        assert context.contents == EncodeAll(TextFields(1, preceding));
        body.WriteMessage(3, context.contents);
      }
      ConvertBodyBytes(reading, nBest, preceding);
      assert body.contents == EncodeAll(ConvertBodyFields(reading, nBest, preceding));
      var answer;
      result, answer := Ask(ConvertCall, body.contents, ConvertBodyFields(reading, nBest, preceding),
                            Reply(lastStatus, false, NO_RESULT, NO_PING));
      out := if pipe == null then initial else answer.convert;
    }

    method Commit(reading: bytes, text: bytes, updateLearning: bool) returns (result: CallResult)
      requires Valid()
      requires Framable(EncodeAll(RequestFields(nextRequestId, RequestKind(CommitCall),
                                                 CommitBodyFields(reading, text, updateLearning))))
      modifies this, pipe
      ensures Valid() && (pipe == null || pipe == old(pipe) || fresh(pipe))
      ensures pipe == null ==> result in {NotConnected, WriteFailed, ReadFailed, BadResponse}
      ensures pipe == null ==> lastStatus == old(lastStatus)
      ensures pipe != null ==> exists reply: Reply ::
                && Answered(CommitCall, old(nextRequestId), CommitBodyFields(reading, text, updateLearning),
                            Reply(old(lastStatus), false, NO_RESULT, NO_PING), result, reply)
                && lastStatus == reply.status
      ensures pipe != null && replies != [] ==>
                (result == BadResponse <==>
                 Unusable(CommitCall, Reply(old(lastStatus), false, NO_RESULT, NO_PING), replies[|replies| - 1]))
    {
      hide EncodeAll, Unusable, ReadReply;
      CommitBodyFits(nextRequestId, reading, text, updateLearning);
      var body := new ByteBuffer();
      body.WriteString(1, reading);
      body.WriteString(2, text);
      body.WriteBool(3, updateLearning);
      CommitBodyBytes(reading, text, updateLearning);
      var answer;
      result, answer := Ask(CommitCall, body.contents, CommitBodyFields(reading, text, updateLearning),
                            Reply(lastStatus, false, NO_RESULT, NO_PING));
    }
  }

  /** However the two byte streams of an open connection are cut into whole frames, as many have
      come in as have gone out. */
  lemma CountsAgree(client: EngineClient, outgoing: seq<bytes>, incoming: seq<bytes>)
    requires client.Valid() && client.pipe != null
    requires AllFramable(outgoing) && AllFramable(incoming)
    requires client.pipe.sent == Frames(outgoing) && client.pipe.received == Frames(incoming)
    ensures |outgoing| == |incoming|
  {
    FramesAreUnique(outgoing, client.requests);
    FramesAreUnique(incoming, client.replies);
  }
}
