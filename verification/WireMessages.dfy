/** The messages of ohagey.proto that the client reads: what each field does to the message being
    built, and the parsers of tsf/Ohagey/OhageyEngineClient.cpp proved against that. */
module WireMessages {
  import opened Wrappers
  import opened MachineIntegers
  import opened WireFormat
  import opened WireIO

  datatype Segment = Segment(text: bytes, reading: bytes)

  datatype Candidate = Candidate(text: bytes, reading: bytes, score: int32, segments: seq<Segment>)

  datatype ConvertResult = ConvertResult(candidates: seq<Candidate>, zenzaiUsed: bool)

  datatype PingResult = PingResult(engineVersion: bytes, modelLoaded: bool, backend: int32)

  /** The code and text the engine answered with; code 0 is success. */
  datatype Status = Status(code: int32, message: bytes)

  const NO_SEGMENT := Segment([], [])
  const NO_CANDIDATE := Candidate([], [], 0, [])
  const NO_RESULT := ConvertResult([], false)
  const NO_PING := PingResult([], false, 0)
  const OK_STATUS := Status(0, [])

  // ---- Folding fields into a message ----

  /** Whether a parser accepted its input, and what it has built either way. */
  datatype Parse<T> = Parse(ok: bool, out: T)

  /** Each well-formed field in turn does what `step` says; the first that is malformed, or that
      `step` refuses, ends the parse. */
  function ParseMessage<T>(step: (T, Field) -> Parse<T>, out: T, s: bytes): Parse<T>
    decreases |s|
  {
    if s == [] then Parse(true, out)
    else
      match DecodeField(s)
      case Fail => Parse(false, out)
      case Got(f, n) =>
        var r := step(out, f);
        if r.ok then ParseMessage(step, r.out, s[n..]) else r
  }

  function SegmentStep(out: Segment, f: Field): Parse<Segment> {
    if f.number == 1 && f.payload.Body? then Parse(true, out.(text := f.payload.body))
    else if f.number == 2 && f.payload.Body? then Parse(true, out.(reading := f.payload.body))
    else Parse(true, out)
  }

  function CandidateStep(out: Candidate, f: Field): Parse<Candidate> {
    if f.number == 1 && f.payload.Body? then Parse(true, out.(text := f.payload.body))
    else if f.number == 2 && f.payload.Body? then Parse(true, out.(reading := f.payload.body))
    else if f.number == 3 && f.payload.Number? then Parse(true, out.(score := Truncate(f.payload.n)))
    else if f.number == 4 && f.payload.Body? then
      var r := ParseMessage(SegmentStep, NO_SEGMENT, f.payload.body);
      if r.ok then Parse(true, out.(segments := out.segments + [r.out])) else Parse(false, out)
    else Parse(true, out)
  }

  function ConvertStep(out: ConvertResult, f: Field): Parse<ConvertResult> {
    if f.number == 1 && f.payload.Body? then
      var r := ParseMessage(CandidateStep, NO_CANDIDATE, f.payload.body);
      if r.ok then Parse(true, out.(candidates := out.candidates + [r.out])) else Parse(false, out)
    else if f.number == 2 && f.payload.Number? then Parse(true, out.(zenzaiUsed := f.payload.n != 0))
    else Parse(true, out)
  }

  function StatusStep(out: Status, f: Field): Parse<Status> {
    if f.number == 1 && f.payload.Number? then Parse(true, out.(code := Truncate(f.payload.n)))
    else if f.number == 2 && f.payload.Body? then Parse(true, out.(message := f.payload.body))
    else Parse(true, out)
  }

  function PingStep(out: PingResult, f: Field): Parse<PingResult> {
    if f.number == 1 && f.payload.Body? then Parse(true, out.(engineVersion := f.payload.body))
    else if f.number == 2 && f.payload.Number? then Parse(true, out.(modelLoaded := f.payload.n != 0))
    else if f.number == 3 && f.payload.Number? then Parse(true, out.(backend := Truncate(f.payload.n)))
    else Parse(true, out)
  }

  // ---- The reply envelope ----

  const REQUEST_ID := 1
  const STATUS := 2

  datatype Call = ConvertCall | CommitCall | RegisterWordCall | PingCall

  function BodyField(call: Call): uint32 {
    match call
    case ConvertCall => 3
    case CommitCall => 4
    case RegisterWordCall => 5
    case PingCall => 6
  }

  /** What reading a reply fills in. The status is the client's own field and starts as the
      previous call left it. */
  datatype Reply = Reply(status: Status, sawBody: bool, convert: ConvertResult, ping: PingResult)

  function BodyStep(call: Call, out: Reply, body: bytes): Parse<Reply> {
    match call
    case ConvertCall =>
      var r := ParseMessage(ConvertStep, out.convert, body);
      Parse(r.ok, out.(convert := r.out, sawBody := out.sawBody || r.ok))
    case PingCall =>
      var r := ParseMessage(PingStep, out.ping, body);
      Parse(r.ok, out.(ping := r.out, sawBody := out.sawBody || r.ok))
    case CommitCall => Parse(true, out.(sawBody := true))
    case RegisterWordCall => Parse(true, out.(sawBody := true))
  }

  function ReplyStep(call: Call, out: Reply, f: Field): Parse<Reply> {
    if f.number == STATUS && f.payload.Body? then
      var r := ParseMessage(StatusStep, OK_STATUS, f.payload.body);
      Parse(r.ok, out.(status := r.out))
    else if f.number == BodyField(call) && f.payload.Body? then
      BodyStep(call, out, f.payload.body)
    else Parse(true, out)
  }

  function ReplyStepOf(call: Call): (Reply, Field) -> Parse<Reply> {
    (out, f) => ReplyStep(call, out, f)
  }

  datatype CallResult = CallOk | NotConnected | WriteFailed | ReadFailed | BadResponse | Refused

  /** Success is decided by the status code, not by which body arrived. */
  function Outcome(r: Parse<Reply>): CallResult {
    if !r.ok then BadResponse
    else if r.out.status.code != 0 then Refused
    else if !r.out.sawBody then BadResponse
    else CallOk
  }

  function ReadReply(call: Call, previous: Reply, reply: bytes): (CallResult, Reply) {
    var r := ParseMessage(ReplyStepOf(call), previous, reply);
    (Outcome(r), r.out)
  }

  /** The first request id of a reply, as the client looks for it; a reply broken before that
      point has none. */
  function FirstId(reply: bytes): Option<uint32>
    decreases |reply|
  {
    if reply == [] then None
    else
      match DecodeField(reply)
      case Fail => None
      case Got(f, n) =>
        if f.number == REQUEST_ID && f.payload.Number? then Some(f.payload.n % TWO_32)
        else FirstId(reply[n..])
  }
}
