/** The parse loops of tsf/Ohagey/OhageyEngineClient.cpp, one for each message of a reply. */
module WireParsers {
  import opened Wrappers
  import opened MachineIntegers
  import opened WireFormat
  import opened WireIO
  import opened WireMessages

  /** How a parse goes on from `s`, by the tag and the payload at its front. */
  lemma FieldTurn<T>(step: (T, Field) -> Parse<T>, out: T, s: bytes)
    requires s != []
    ensures DecodeTag(s).Fail? ==> ParseMessage(step, out, s) == Parse(false, out)
    ensures DecodeTag(s).Got? ==>
              var tag, tail := DecodeTag(s).value, s[DecodeTag(s).size..];
              var payload := DecodePayload(tag.wire, tail);
              if payload.Fail? then ParseMessage(step, out, s) == Parse(false, out)
              else
                var r := step(out, Field(tag.number, payload.value));
                ParseMessage(step, out, s) == if r.ok then ParseMessage(step, r.out, tail[payload.size..]) else r
  {
    hide DecodeTag, DecodePayload;
    if DecodeTag(s).Got? {
      var tail := s[DecodeTag(s).size..];
      var payload := DecodePayload(DecodeTag(s).value.wire, tail);
      if payload.Got? {
        assert tail[payload.size..] == s[DecodeTag(s).size + payload.size..];
      }
    }
  }

  /** One turn of the loop below: whether to go on, and what has been built. */
  method SegmentField(reader: Reader, initial: Segment) returns (got: bool, out: Segment)
    requires reader.Valid() && reader.ok && reader.Rest() != []
    modifies reader
    ensures reader.Valid() && (got ==> reader.ok && reader.pos > old(reader.pos))
    ensures ParseMessage(SegmentStep, initial, old(reader.Rest()))
         == if got then ParseMessage(SegmentStep, out, reader.Rest()) else Parse(false, out)
  {
    hide DecodeField, DecodeTag, DecodePayload, Truncate, ParseMessage;
    out := initial;
    FieldTurn(SegmentStep, out, reader.Rest());
    var field, wire;
    got, field, wire := reader.ReadTag();
    if !got {
      return;
    }
    if field == 1 && wire == LENGTH_DELIMITED {
      var text;
      got, text := reader.ReadMessage();
      if got {
        out := out.(text := text);
      }
    } else if field == 2 && wire == LENGTH_DELIMITED {
      var text;
      got, text := reader.ReadMessage();
      if got {
        out := out.(reading := text);
      }
    } else {
      got := reader.SkipField(wire);
    }
  }

  method ParseSegment(data: bytes, initial: Segment) returns (ok: bool, out: Segment)
    ensures Parse(ok, out) == ParseMessage(SegmentStep, initial, data)
  {
    hide DecodeField;
    var reader := new Reader(data);
    out := initial;
    while !reader.AtEnd()
      invariant fresh(reader) && reader.Valid() && reader.ok && reader.data == data
      invariant ParseMessage(SegmentStep, initial, data) == ParseMessage(SegmentStep, out, reader.Rest())
      decreases |data| - reader.pos
    {
      var got;
      got, out := SegmentField(reader, out);
      if !got {
        return false, out;
      }
    }
    return reader.ok, out;
  }

  /** One turn of the loop below: whether to go on, and what has been built. */
  method CandidateField(reader: Reader, initial: Candidate) returns (got: bool, out: Candidate)
    requires reader.Valid() && reader.ok && reader.Rest() != []
    modifies reader
    ensures reader.Valid() && (got ==> reader.ok && reader.pos > old(reader.pos))
    ensures ParseMessage(CandidateStep, initial, old(reader.Rest()))
         == if got then ParseMessage(CandidateStep, out, reader.Rest()) else Parse(false, out)
  {
    hide DecodeField, DecodeTag, DecodePayload, Truncate, ParseMessage, SegmentStep;
    out := initial;
    FieldTurn(CandidateStep, out, reader.Rest());
    var field, wire;
    got, field, wire := reader.ReadTag();
    if !got {
      return;
    }
    if field == 1 && wire == LENGTH_DELIMITED {
      var text;
      got, text := reader.ReadMessage();
      if got {
        out := out.(text := text);
      }
    } else if field == 2 && wire == LENGTH_DELIMITED {
      var text;
      got, text := reader.ReadMessage();
      if got {
        out := out.(reading := text);
      }
    } else if field == 3 && wire == VARINT {
      var value;
      got, value := reader.ReadInt32();
      if got {
        out := out.(score := value);
      }
    } else if field == 4 && wire == LENGTH_DELIMITED {
      var body;
      got, body := reader.ReadMessage();
      if got {
        var item;
        got, item := ParseSegment(body, NO_SEGMENT);
        if got {
          out := out.(segments := out.segments + [item]);
        }
      }
    } else {
      got := reader.SkipField(wire);
    }
  }

  method ParseCandidate(data: bytes, initial: Candidate) returns (ok: bool, out: Candidate)
    ensures Parse(ok, out) == ParseMessage(CandidateStep, initial, data)
  {
    hide DecodeField;
    var reader := new Reader(data);
    out := initial;
    while !reader.AtEnd()
      invariant fresh(reader) && reader.Valid() && reader.ok && reader.data == data
      invariant ParseMessage(CandidateStep, initial, data) == ParseMessage(CandidateStep, out, reader.Rest())
      decreases |data| - reader.pos
    {
      var got;
      got, out := CandidateField(reader, out);
      if !got {
        return false, out;
      }
    }
    return reader.ok, out;
  }

  /** One turn of the loop below: whether to go on, and what has been built. */
  method ConvertField(reader: Reader, initial: ConvertResult) returns (got: bool, out: ConvertResult)
    requires reader.Valid() && reader.ok && reader.Rest() != []
    modifies reader
    ensures reader.Valid() && (got ==> reader.ok && reader.pos > old(reader.pos))
    ensures ParseMessage(ConvertStep, initial, old(reader.Rest()))
         == if got then ParseMessage(ConvertStep, out, reader.Rest()) else Parse(false, out)
  {
    hide DecodeField, DecodeTag, DecodePayload, Truncate, ParseMessage, CandidateStep;
    out := initial;
    FieldTurn(ConvertStep, out, reader.Rest());
    var field, wire;
    got, field, wire := reader.ReadTag();
    if !got {
      return;
    }
    if field == 1 && wire == LENGTH_DELIMITED {
      var body;
      got, body := reader.ReadMessage();
      if got {
        var item;
        got, item := ParseCandidate(body, NO_CANDIDATE);
        if got {
          out := out.(candidates := out.candidates + [item]);
        }
      }
    } else if field == 2 && wire == VARINT {
      var value;
      got, value := reader.ReadBool();
      if got {
        out := out.(zenzaiUsed := value);
      }
    } else {
      got := reader.SkipField(wire);
    }
  }

  method ParseConvert(data: bytes, initial: ConvertResult) returns (ok: bool, out: ConvertResult)
    ensures Parse(ok, out) == ParseMessage(ConvertStep, initial, data)
  {
    hide DecodeField;
    var reader := new Reader(data);
    out := initial;
    while !reader.AtEnd()
      invariant fresh(reader) && reader.Valid() && reader.ok && reader.data == data
      invariant ParseMessage(ConvertStep, initial, data) == ParseMessage(ConvertStep, out, reader.Rest())
      decreases |data| - reader.pos
    {
      var got;
      got, out := ConvertField(reader, out);
      if !got {
        return false, out;
      }
    }
    return reader.ok, out;
  }

  /** One turn of the loop below: whether to go on, and what has been built. */
  method StatusField(reader: Reader, initial: Status) returns (got: bool, out: Status)
    requires reader.Valid() && reader.ok && reader.Rest() != []
    modifies reader
    ensures reader.Valid() && (got ==> reader.ok && reader.pos > old(reader.pos))
    ensures ParseMessage(StatusStep, initial, old(reader.Rest()))
         == if got then ParseMessage(StatusStep, out, reader.Rest()) else Parse(false, out)
  {
    hide DecodeField, DecodeTag, DecodePayload, Truncate, ParseMessage;
    out := initial;
    FieldTurn(StatusStep, out, reader.Rest());
    var field, wire;
    got, field, wire := reader.ReadTag();
    if !got {
      return;
    }
    if field == 1 && wire == VARINT {
      var value;
      got, value := reader.ReadInt32();
      if got {
        out := out.(code := value);
      }
    } else if field == 2 && wire == LENGTH_DELIMITED {
      var text;
      got, text := reader.ReadMessage();
      if got {
        out := out.(message := text);
      }
    } else {
      got := reader.SkipField(wire);
    }
  }

  method ParseStatus(data: bytes, initial: Status) returns (ok: bool, out: Status)
    ensures Parse(ok, out) == ParseMessage(StatusStep, initial, data)
  {
    hide DecodeField;
    var reader := new Reader(data);
    out := initial;
    while !reader.AtEnd()
      invariant fresh(reader) && reader.Valid() && reader.ok && reader.data == data
      invariant ParseMessage(StatusStep, initial, data) == ParseMessage(StatusStep, out, reader.Rest())
      decreases |data| - reader.pos
    {
      var got;
      got, out := StatusField(reader, out);
      if !got {
        return false, out;
      }
    }
    return reader.ok, out;
  }

  /** One turn of the loop below: whether to go on, and what has been built. */
  method PingField(reader: Reader, initial: PingResult) returns (got: bool, out: PingResult)
    requires reader.Valid() && reader.ok && reader.Rest() != []
    modifies reader
    ensures reader.Valid() && (got ==> reader.ok && reader.pos > old(reader.pos))
    ensures ParseMessage(PingStep, initial, old(reader.Rest()))
         == if got then ParseMessage(PingStep, out, reader.Rest()) else Parse(false, out)
  {
    hide DecodeField, DecodeTag, DecodePayload, Truncate, ParseMessage;
    out := initial;
    FieldTurn(PingStep, out, reader.Rest());
    var field, wire;
    got, field, wire := reader.ReadTag();
    if !got {
      return;
    }
    if field == 1 && wire == LENGTH_DELIMITED {
      var text;
      got, text := reader.ReadMessage();
      if got {
        out := out.(engineVersion := text);
      }
    } else if field == 2 && wire == VARINT {
      var value;
      got, value := reader.ReadBool();
      if got {
        out := out.(modelLoaded := value);
      }
    } else if field == 3 && wire == VARINT {
      var value;
      got, value := reader.ReadInt32();
      if got {
        out := out.(backend := value);
      }
    } else {
      got := reader.SkipField(wire);
    }
  }

  method ParsePing(data: bytes, initial: PingResult) returns (ok: bool, out: PingResult)
    ensures Parse(ok, out) == ParseMessage(PingStep, initial, data)
  {
    hide DecodeField;
    var reader := new Reader(data);
    out := initial;
    while !reader.AtEnd()
      invariant fresh(reader) && reader.Valid() && reader.ok && reader.data == data
      invariant ParseMessage(PingStep, initial, data) == ParseMessage(PingStep, out, reader.Rest())
      decreases |data| - reader.pos
    {
      var got;
      got, out := PingField(reader, out);
      if !got {
        return false, out;
      }
    }
    return reader.ok, out;
  }

  /** Hands the body of the expected kind to its parser. */
  method ParseBody(call: Call, data: bytes, initial: Reply) returns (ok: bool, out: Reply)
    ensures Parse(ok, out) == BodyStep(call, initial, data)
  {
    ok, out := true, initial;
    match call {
      case ConvertCall =>
        var convert;
        ok, convert := ParseConvert(data, initial.convert);
        out := out.(convert := convert);
      case PingCall =>
        var ping;
        ok, ping := ParsePing(data, initial.ping);
        out := out.(ping := ping);
      case CommitCall =>
      case RegisterWordCall =>
    }
    if ok {
      out := out.(sawBody := true);
    }
  }

  /** One turn of the walk below. */
  method ReplyField(call: Call, reader: Reader, initial: Reply) returns (got: bool, out: Reply)
    requires reader.Valid() && reader.ok && reader.Rest() != []
    modifies reader
    ensures reader.Valid() && (got ==> reader.ok && reader.pos > old(reader.pos))
    ensures ParseMessage(ReplyStepOf(call), initial, old(reader.Rest()))
         == if got then ParseMessage(ReplyStepOf(call), out, reader.Rest()) else Parse(false, out)
  {
    hide DecodeField, DecodeTag, DecodePayload, ParseMessage, StatusStep, BodyStep;
    out := initial;
    FieldTurn(ReplyStepOf(call), out, reader.Rest());
    var field, wire;
    got, field, wire := reader.ReadTag();
    if !got {
      return;
    }
    var body;
    if field == STATUS && wire == LENGTH_DELIMITED {
      got, body := reader.ReadMessage();
      if got {
        var status;
        got, status := ParseStatus(body, OK_STATUS);
        out := out.(status := status);
      }
    } else if field == BodyField(call) && wire == LENGTH_DELIMITED {
      got, body := reader.ReadMessage();
      if got {
        got, out := ParseBody(call, body, out);
      }
    } else {
      got := reader.SkipField(wire);
    }
  }

  /** Walks a reply, taking in its status and the body this call expects. */
  method ReadResponse(call: Call, previous: Reply, reply: bytes) returns (result: CallResult, out: Reply)
    ensures (result, out) == ReadReply(call, previous, reply)
  {
    hide DecodeField;
    var reader := new Reader(reply);
    out := previous;
    while !reader.AtEnd()
      invariant fresh(reader) && reader.Valid() && reader.ok && reader.data == reply
      invariant ParseMessage(ReplyStepOf(call), previous, reply) == ParseMessage(ReplyStepOf(call), out, reader.Rest())
      decreases |reply| - reader.pos
    {
      var got;
      got, out := ReplyField(call, reader, out);
      if !got {
        return BadResponse, out;
      }
    }
    if !reader.ok {
      return BadResponse, out;
    }
    if out.status.code != 0 {
      return Refused, out;
    }
    if !out.sawBody {
      return BadResponse, out;
    }
    return CallOk, out;
  }

  lemma IdTurn(s: bytes)
    requires s != []
    ensures DecodeTag(s).Fail? ==> FirstId(s).None?
    ensures DecodeTag(s).Got? ==>
              var tag, tail := DecodeTag(s).value, s[DecodeTag(s).size..];
              var payload := DecodePayload(tag.wire, tail);
              if payload.Fail? then FirstId(s).None?
              else if tag.number == REQUEST_ID && payload.value.Number? then
                FirstId(s) == Some(payload.value.n % TWO_32)
              else FirstId(s) == FirstId(tail[payload.size..])
  {
    hide DecodeTag, DecodePayload;
    if DecodeTag(s).Got? {
      var tail := s[DecodeTag(s).size..];
      var payload := DecodePayload(DecodeTag(s).value.wire, tail);
      if payload.Got? {
        assert tail[payload.size..] == s[DecodeTag(s).size + payload.size..];
      }
    }
  }

  /** Looks for the request id before anyone sees the reply. */
  method FindRequestId(reply: bytes) returns (id: Option<uint32>)
    ensures id == FirstId(reply)
  {
    hide DecodeField, DecodeTag, DecodePayload;
    var reader := new Reader(reply);
    while !reader.AtEnd()
      invariant fresh(reader) && reader.Valid() && reader.ok && reader.data == reply
      invariant FirstId(reply) == FirstId(reader.Rest())
      decreases |reply| - reader.pos
    {
      IdTurn(reader.Rest());
      var got, field, wire := reader.ReadTag();
      if !got {
        return None;
      }
      if field == REQUEST_ID && wire == VARINT {
        var value;
        got, value := reader.ReadUInt32();
        return if got then Some(value) else None;
      }
      got := reader.SkipField(wire);
      if !got {
        return None;
      }
    }
    return None;
  }
}
