/** What the codec promises over whole messages: what is written is read back, and fields a newer
    engine adds are read past. */
module WireLaws {
  import opened Wrappers
  import opened MachineIntegers
  import opened WireFormat
  import opened WireIO
  import opened WireMessages

  // ---- Parsing is a fold over the fields ----

  function Fold<T>(step: (T, Field) -> Parse<T>, out: T, fs: seq<Field>): Parse<T> {
    if fs == [] then Parse(true, out)
    else
      var r := step(out, fs[0]);
      if r.ok then Fold(step, r.out, fs[1..]) else r
  }

  lemma {:induction false} ParseIsFold<T>(step: (T, Field) -> Parse<T>, out: T, s: bytes)
    ensures var m := Decode(s);
            var r := Fold(step, out, m.fields);
            ParseMessage(step, out, s) == Parse(r.ok && m.complete, r.out)
    decreases |s|
  {
    hide DecodeField;
    if s != [] && DecodeField(s).Got? {
      var f, n := DecodeField(s).value, DecodeField(s).size;
      DecodeStep(s);
      var m := Decode(s);
      assert m.fields[0] == f && m.fields[1..] == Decode(s[n..]).fields;
      var r := step(out, f);
      if r.ok { ParseIsFold(step, r.out, s[n..]); }
    }
  }

  lemma ParseWritten<T>(step: (T, Field) -> Parse<T>, out: T, fs: seq<Field>)
    requires AllWritable(fs)
    ensures ParseMessage(step, out, EncodeAll(fs)) == Fold(step, out, fs)
  {
    DecodeInvertsEncode(fs);
    ParseIsFold(step, out, EncodeAll(fs));
  }

  lemma {:induction false} FoldConcat<T>(step: (T, Field) -> Parse<T>, out: T, a: seq<Field>, b: seq<Field>)
    ensures var r := Fold(step, out, a);
            Fold(step, out, a + b) == if r.ok then Fold(step, r.out, b) else r
  {
    if a == [] {
      assert a + b == b;
    } else {
      assert (a + b)[1..] == a[1..] + b;
      var r := step(out, a[0]);
      if r.ok { FoldConcat(step, r.out, a[1..], b); }
    }
  }

  lemma {:induction false} EncodeAllConcat(a: seq<Field>, b: seq<Field>)
    ensures EncodeAll(a + b) == EncodeAll(a) + EncodeAll(b)
  {
    if a == [] {
      assert a + b == b;
    } else {
      assert (a + b)[1..] == a[1..] + b;
      EncodeAllConcat(a[1..], b);
    }
  }

  lemma {:induction false} FieldFits(fs: seq<Field>, f: Field)
    requires f in fs
    ensures |Encode(f)| <= |EncodeAll(fs)|
  {
    if f != fs[0] { FieldFits(fs[1..], f); }
  }

  // ---- Writing a reply ----

  function SegmentFields(s: Segment): seq<Field> {
    TextFields(1, s.text) + TextFields(2, s.reading)
  }

  function NestedFields(number: uint32, bodies: seq<bytes>): (fs: seq<Field>)
    ensures |fs| == |bodies|
    ensures forall i :: 0 <= i < |fs| ==> fs[i] == Field(number, Body(bodies[i]))
  {
    seq(|bodies|, i requires 0 <= i < |bodies| => Field(number, Body(bodies[i])))
  }

  function SegmentBytes(s: Segment): bytes {
    EncodeAll(SegmentFields(s))
  }

  function SegmentBodies(segments: seq<Segment>): (r: seq<bytes>)
    ensures |r| == |segments|
    ensures forall i :: 0 <= i < |r| ==> r[i] == SegmentBytes(segments[i])
  {
    seq(|segments|, i requires 0 <= i < |segments| => SegmentBytes(segments[i]))
  }

  function CandidateFields(c: Candidate): seq<Field> {
    TextFields(1, c.text) + TextFields(2, c.reading) + NumberFields(3, SignExtend(c.score))
    + NestedFields(4, SegmentBodies(c.segments))
  }

  function CandidateBytes(c: Candidate): bytes {
    EncodeAll(CandidateFields(c))
  }

  function CandidateBodies(candidates: seq<Candidate>): (r: seq<bytes>)
    ensures |r| == |candidates|
    ensures forall i :: 0 <= i < |r| ==> r[i] == CandidateBytes(candidates[i])
  {
    seq(|candidates|, i requires 0 <= i < |candidates| => CandidateBytes(candidates[i]))
  }

  function ResultFields(r: ConvertResult): seq<Field> {
    NestedFields(1, CandidateBodies(r.candidates)) + NumberFields(2, if r.zenzaiUsed then 1 else 0)
  }

  function ResultBytes(r: ConvertResult): bytes {
    EncodeAll(ResultFields(r))
  }

  /** No field is longer than the message it is in, so one bound on the whole is enough. */
  lemma FieldsFit(fs: seq<Field>)
    requires |EncodeAll(fs)| < TWO_64 && forall f :: f in fs ==> f.number != 0 && (f.payload.Body? || f.payload.Number?)
    ensures AllWritable(fs)
    ensures forall f :: f in fs && f.payload.Body? ==> |f.payload.body| <= |EncodeAll(fs)|
  {
    forall f | f in fs
      ensures Writable(f) && (f.payload.Body? ==> |f.payload.body| <= |EncodeAll(fs)|)
    {
      FieldFits(fs, f);
    }
  }

  lemma SegmentReadBack(s: Segment)
    requires |SegmentBytes(s)| < TWO_64
    ensures ParseMessage(SegmentStep, NO_SEGMENT, SegmentBytes(s)) == Parse(true, s)
  {
    var fs := SegmentFields(s);
    FieldsFit(fs);
    ParseWritten(SegmentStep, NO_SEGMENT, fs);
    FoldConcat(SegmentStep, NO_SEGMENT, TextFields(1, s.text), TextFields(2, s.reading));
    FoldText(SegmentStep, NO_SEGMENT, 1, s.text);
    FoldText(SegmentStep, NO_SEGMENT.(text := s.text), 2, s.reading);
  }

  lemma FoldText<T>(step: (T, Field) -> Parse<T>, out: T, number: uint32, text: bytes)
    ensures Fold(step, out, TextFields(number, text))
         == if text == [] then Parse(true, out) else step(out, Field(number, Body(text)))
  {
    if text != [] {
      assert TextFields(number, text)[1..] == [];
    }
  }

  lemma FoldNumber<T>(step: (T, Field) -> Parse<T>, out: T, number: uint32, v: uint64)
    ensures Fold(step, out, NumberFields(number, v))
         == if v == 0 then Parse(true, out) else step(out, Field(number, Number(v)))
  {
    if v != 0 {
      assert NumberFields(number, v)[1..] == [];
    }
  }

  lemma {:induction false} FoldSegments(out: Candidate, segments: seq<Segment>)
    requires forall s :: s in segments ==> |SegmentBytes(s)| < TWO_64
    ensures Fold(CandidateStep, out, NestedFields(4, SegmentBodies(segments)))
         == Parse(true, out.(segments := out.segments + segments))
    decreases |segments|
  {
    hide ParseMessage, SegmentBytes, SegmentStep;
    var fs := NestedFields(4, SegmentBodies(segments));
    if segments == [] {
      assert out.segments + segments == out.segments;
    } else {
      SegmentReadBack(segments[0]);
      assert fs[1..] == NestedFields(4, SegmentBodies(segments[1..]));
      var next := out.(segments := out.segments + [segments[0]]);
      FoldSegments(next, segments[1..]);
      assert (out.segments + [segments[0]]) + segments[1..] == out.segments + segments;
    }
  }

  lemma CandidateFits(c: Candidate)
    requires |CandidateBytes(c)| < TWO_64
    ensures AllWritable(CandidateFields(c))
    ensures forall s :: s in c.segments ==> |SegmentBytes(s)| < TWO_64
  {
    var fs := CandidateFields(c);
    FieldsFit(fs);
    var nested := NestedFields(4, SegmentBodies(c.segments));
    forall s | s in c.segments
      ensures |SegmentBytes(s)| < TWO_64
    {
      var i :| 0 <= i < |c.segments| && c.segments[i] == s;
      assert nested[i] in nested;
      assert nested[i] in fs;
    }
  }

  lemma CandidateReadBack(c: Candidate)
    requires |CandidateBytes(c)| < TWO_64
    ensures ParseMessage(CandidateStep, NO_CANDIDATE, CandidateBytes(c)) == Parse(true, c)
  {
    var text, reading, score := TextFields(1, c.text), TextFields(2, c.reading), NumberFields(3, SignExtend(c.score));
    var nested := NestedFields(4, SegmentBodies(c.segments));
    CandidateFits(c);
    ParseWritten(CandidateStep, NO_CANDIDATE, CandidateFields(c));
    var c1 := NO_CANDIDATE.(text := c.text);
    var c2 := c1.(reading := c.reading);
    var c3 := c2.(score := c.score);
    FoldText(CandidateStep, NO_CANDIDATE, 1, c.text);
    FoldText(CandidateStep, c1, 2, c.reading);
    TruncateInvertsSignExtend(c.score);
    FoldNumber(CandidateStep, c2, 3, SignExtend(c.score));
    FoldConcat(CandidateStep, NO_CANDIDATE, text, reading);
    FoldConcat(CandidateStep, NO_CANDIDATE, text + reading, score);
    FoldConcat(CandidateStep, NO_CANDIDATE, text + reading + score, nested);
    FoldSegments(c3, c.segments);
    assert [] + c.segments == c.segments;
  }

  lemma {:induction false} FoldCandidates(out: ConvertResult, candidates: seq<Candidate>)
    requires forall c :: c in candidates ==> |CandidateBytes(c)| < TWO_64
    ensures Fold(ConvertStep, out, NestedFields(1, CandidateBodies(candidates)))
         == Parse(true, out.(candidates := out.candidates + candidates))
    decreases |candidates|
  {
    hide ParseMessage, CandidateBytes, CandidateStep;
    var fs := NestedFields(1, CandidateBodies(candidates));
    if candidates == [] {
      assert out.candidates + candidates == out.candidates;
    } else {
      CandidateReadBack(candidates[0]);
      assert fs[1..] == NestedFields(1, CandidateBodies(candidates[1..]));
      var next := out.(candidates := out.candidates + [candidates[0]]);
      FoldCandidates(next, candidates[1..]);
      assert (out.candidates + [candidates[0]]) + candidates[1..] == out.candidates + candidates;
    }
  }

  lemma ResultFits(r: ConvertResult)
    requires |ResultBytes(r)| < TWO_64
    ensures AllWritable(ResultFields(r))
    ensures forall c :: c in r.candidates ==> |CandidateBytes(c)| < TWO_64
  {
    var fs := ResultFields(r);
    FieldsFit(fs);
    var nested := NestedFields(1, CandidateBodies(r.candidates));
    forall c | c in r.candidates
      ensures |CandidateBytes(c)| < TWO_64
    {
      var i :| 0 <= i < |r.candidates| && r.candidates[i] == c;
      assert nested[i] in nested;
      assert nested[i] in fs;
    }
  }

  /** Any list of candidates, with any scores and any segments, is read back as written. */
  lemma ResultReadBack(r: ConvertResult)
    requires |ResultBytes(r)| < TWO_64
    ensures ParseMessage(ConvertStep, NO_RESULT, ResultBytes(r)) == Parse(true, r)
  {
    hide ParseMessage, CandidateBodies;
    var nested, flag := NestedFields(1, CandidateBodies(r.candidates)), if r.zenzaiUsed then 1 else 0;
    ResultFits(r);
    ParseWritten(ConvertStep, NO_RESULT, ResultFields(r));
    FoldConcat(ConvertStep, NO_RESULT, nested, NumberFields(2, flag));
    FoldCandidates(NO_RESULT, r.candidates);
    assert [] + r.candidates == r.candidates;
    FoldNumber(ConvertStep, NO_RESULT.(candidates := r.candidates), 2, flag);
  }

  function StatusBytes(s: Status): bytes {
    EncodeAll(NumberFields(1, SignExtend(s.code)) + TextFields(2, s.message))
  }

  lemma StatusReadBack(s: Status)
    requires |StatusBytes(s)| < TWO_64
    ensures ParseMessage(StatusStep, OK_STATUS, StatusBytes(s)) == Parse(true, s)
  {
    hide ParseMessage;
    var code, message := NumberFields(1, SignExtend(s.code)), TextFields(2, s.message);
    FieldsFit(code + message);
    ParseWritten(StatusStep, OK_STATUS, code + message);
    FoldConcat(StatusStep, OK_STATUS, code, message);
    TruncateInvertsSignExtend(s.code);
    FoldNumber(StatusStep, OK_STATUS, 1, SignExtend(s.code));
    FoldText(StatusStep, OK_STATUS.(code := s.code), 2, s.message);
  }

  // ---- A whole reply ----

  function ConvertReplyFields(id: uint32, status: Status, result: ConvertResult): seq<Field> {
    NumberFields(REQUEST_ID, id) + [Field(STATUS, Body(StatusBytes(status))), Field(3, Body(ResultBytes(result)))]
  }

  function FirstIdIn(fs: seq<Field>): Option<uint32> {
    if fs == [] then None
    else if fs[0].number == REQUEST_ID && fs[0].payload.Number? then Some(fs[0].payload.n % TWO_32)
    else FirstIdIn(fs[1..])
  }

  lemma {:induction false} IdOfFields(s: bytes)
    ensures FirstId(s) == FirstIdIn(Decode(s).fields)
    decreases |s|
  {
    hide DecodeField;
    if s != [] && DecodeField(s).Got? {
      var n := DecodeField(s).size;
      DecodeStep(s);
      assert Decode(s).fields[1..] == Decode(s[n..]).fields;
      IdOfFields(s[n..]);
    }
  }

  lemma FoldOne<T>(step: (T, Field) -> Parse<T>, out: T, f: Field)
    ensures Fold(step, out, [f]) == step(out, f)
  {
    assert [f][1..] == [];
    var r := step(out, f);
    assert r.ok ==> Fold(step, r.out, []) == Parse(true, r.out);
  }

  lemma FoldTwo<T>(step: (T, Field) -> Parse<T>, out: T, f: Field, g: Field)
    ensures var r := step(out, f);
            Fold(step, out, [f, g]) == if r.ok then step(r.out, g) else r
  {
    assert [f, g][1..] == [g];
    var r := step(out, f);
    if r.ok { FoldOne(step, r.out, g); }
  }

  lemma ConvertReplyFits(id: uint32, status: Status, result: ConvertResult)
    requires |EncodeAll(ConvertReplyFields(id, status, result))| < TWO_64
    ensures AllWritable(ConvertReplyFields(id, status, result))
    ensures |StatusBytes(status)| < TWO_64 && |ResultBytes(result)| < TWO_64
  {
    hide StatusBytes, ResultBytes, EncodeAll;
    var fs := ConvertReplyFields(id, status, result);
    FieldsFit(fs);
    assert Field(STATUS, Body(StatusBytes(status))) in fs;
    assert Field(3, Body(ResultBytes(result))) in fs;
  }

  lemma ConvertReplyParse(id: uint32, status: Status, result: ConvertResult, previous: Reply)
    requires |EncodeAll(ConvertReplyFields(id, status, result))| < TWO_64 && previous.convert == NO_RESULT
    ensures ParseMessage(ReplyStepOf(ConvertCall), previous, EncodeAll(ConvertReplyFields(id, status, result)))
         == Parse(true, previous.(status := status, sawBody := true, convert := result))
  {
    hide ParseMessage, StatusBytes, ResultBytes, EncodeAll, Fold;
    var step, head := ReplyStepOf(ConvertCall), NumberFields(REQUEST_ID, id);
    var s, b := Field(STATUS, Body(StatusBytes(status))), Field(3, Body(ResultBytes(result)));
    ConvertReplyFits(id, status, result);
    ParseWritten(step, previous, ConvertReplyFields(id, status, result));
    FoldConcat(step, previous, head, [s, b]);
    FoldNumber(step, previous, REQUEST_ID, id);
    FoldTwo(step, previous, s, b);
    StatusReadBack(status);
    ResultReadBack(result);
  }

  lemma IdIsFirst(id: uint32, s: Field, b: Field)
    requires s.payload.Body? && b.payload.Body?
    ensures FirstIdIn(NumberFields(REQUEST_ID, id) + [s, b]) == if id == 0 then None else Some(id)
  {
    var fs := NumberFields(REQUEST_ID, id) + [s, b];
    if id == 0 {
      assert fs == [s, b] && fs[1..] == [b] && fs[1..][1..] == [];
      assert FirstIdIn([b]) == None;
    } else {
      assert fs[0] == Field(REQUEST_ID, Number(id));
    }
  }

  lemma ConvertReplyId(id: uint32, status: Status, result: ConvertResult)
    requires |EncodeAll(ConvertReplyFields(id, status, result))| < TWO_64
    ensures FirstId(EncodeAll(ConvertReplyFields(id, status, result))) == if id == 0 then None else Some(id)
  {
    hide StatusBytes, ResultBytes, EncodeAll, FirstId, FirstIdIn, Decode, NumberFields;
    ConvertReplyFits(id, status, result);
    DecodeInvertsEncode(ConvertReplyFields(id, status, result));
    IdOfFields(EncodeAll(ConvertReplyFields(id, status, result)));
    IdIsFirst(id, Field(STATUS, Body(StatusBytes(status))), Field(3, Body(ResultBytes(result))));
  }

  /** A reply carrying its status is judged by that status alone, whatever the previous call
      left behind; its result arrives whole; and its id is found unless it is 0. */
  lemma ConvertReplyReadBack(id: uint32, status: Status, result: ConvertResult, previous: Reply)
    requires |EncodeAll(ConvertReplyFields(id, status, result))| < TWO_64
    requires previous.convert == NO_RESULT
    ensures var reply := EncodeAll(ConvertReplyFields(id, status, result));
            && ReadReply(ConvertCall, previous, reply)
            == (if status.code != 0 then Refused else CallOk,
                previous.(status := status, sawBody := true, convert := result))
            && FirstId(reply) == if id == 0 then None else Some(id)
  {
    hide EncodeAll, ConvertReplyFields, ParseMessage, FirstId;
    ConvertReplyParse(id, status, result, previous);
    ConvertReplyId(id, status, result);
  }

  // ---- A reply without a status ----

  predicate CarriesStatus(fs: seq<Field>) {
    exists f :: f in fs && f.number == STATUS && f.payload.Body?
  }

  /** A reply with no status message leaves the status as the previous call set it. */
  lemma {:induction false} NoStatusKeepsOld(call: Call, out: Reply, fs: seq<Field>)
    requires !CarriesStatus(fs)
    ensures Fold(ReplyStepOf(call), out, fs).out.status == out.status
    decreases |fs|
  {
    hide ParseMessage;
    if fs != [] {
      assert fs[0] in fs;
      assert forall f :: f in fs[1..] ==> f in fs;
      var r := ReplyStep(call, out, fs[0]);
      if r.ok { NoStatusKeepsOld(call, r.out, fs[1..]); }
    }
  }

  /** What the previous status was makes no difference to what the rest of a reply does. */
  ghost predicate SameButStatus(a: Parse<Reply>, b: Parse<Reply>) {
    a.ok == b.ok && a.out.(status := OK_STATUS) == b.out.(status := OK_STATUS)
  }

  lemma {:induction false} StatusDoesNotSteer(call: Call, a: Reply, b: Reply, fs: seq<Field>)
    requires a.(status := OK_STATUS) == b.(status := OK_STATUS)
    ensures SameButStatus(Fold(ReplyStepOf(call), a, fs), Fold(ReplyStepOf(call), b, fs))
    ensures CarriesStatus(fs) && Fold(ReplyStepOf(call), a, fs).ok
        ==> Fold(ReplyStepOf(call), a, fs) == Fold(ReplyStepOf(call), b, fs)
    decreases |fs|
  {
    hide ParseMessage;
    if fs != [] {
      var r, q := ReplyStep(call, a, fs[0]), ReplyStep(call, b, fs[0]);
      assert SameButStatus(r, q);
      if r.ok {
        StatusDoesNotSteer(call, r.out, q.out, fs[1..]);
        if fs[0].number == STATUS && fs[0].payload.Body? {
          assert r == q;
        } else {
          assert CarriesStatus(fs) ==> CarriesStatus(fs[1..]);
        }
      }
    }
  }

  ghost predicate IgnoresOldStatus(call: Call, previous: Reply, reply: bytes) {
    forall was: Status ::
      ReadReply(call, previous.(status := was), reply) == ReadReply(call, previous.(status := OK_STATUS), reply)
  }

  /** For a reply that parses, the outcome is the reply's own exactly when it carries a status:
      without one, a success is reported as refused whenever the call before it was refused. */
  lemma OutcomeIsOwnIffStatus(call: Call, previous: Reply, reply: bytes)
    requires ParseMessage(ReplyStepOf(call), previous, reply).ok
    ensures CarriesStatus(Decode(reply).fields) <==> IgnoresOldStatus(call, previous, reply)
  {
    hide ParseMessage, Fold, CarriesStatus, ReplyStepOf;
    var fs := Decode(reply).fields;
    var step := ReplyStepOf(call);
    ParseIsFold(step, previous, reply);
    var fine := previous.(status := OK_STATUS);
    StatusDoesNotSteer(call, previous, fine, fs);
    ParseIsFold(step, fine, reply);
    if CarriesStatus(fs) {
      forall was: Status
        ensures ReadReply(call, previous.(status := was), reply) == ReadReply(call, fine, reply)
      {
        StatusDoesNotSteer(call, fine, previous.(status := was), fs);
        ParseIsFold(step, previous.(status := was), reply);
      }
    } else {
      var refused := Status(1, []);
      var stale := previous.(status := refused);
      NoStatusKeepsOld(call, fine, fs);
      NoStatusKeepsOld(call, stale, fs);
      ParseIsFold(step, stale, reply);
      assert ReadReply(call, previous.(status := refused), reply) != ReadReply(call, fine, reply);
    }
  }

  // ---- A reply that cannot be used ----

  predicate CarriesBody(call: Call, fs: seq<Field>) {
    exists f :: f in fs && f.number == BodyField(call) && f.payload.Body?
  }

  /** Over what parses, a body has been seen exactly when one of the call's is there. */
  lemma {:induction false} BodyIsSeen(call: Call, out: Reply, fs: seq<Field>)
    ensures var r := Fold(ReplyStepOf(call), out, fs);
            r.ok ==> (r.out.sawBody <==> out.sawBody || CarriesBody(call, fs))
    decreases |fs|
  {
    hide ParseMessage;
    if fs != [] {
      var r := ReplyStep(call, out, fs[0]);
      assert CarriesBody(call, fs) <==>
             (fs[0].number == BodyField(call) && fs[0].payload.Body?) || CarriesBody(call, fs[1..]) by {
        assert forall f :: f in fs <==> f == fs[0] || f in fs[1..];
      }
      if r.ok { BodyIsSeen(call, r.out, fs[1..]); }
    }
  }

  /** A reply that does not parse, or that under a status of 0, its own or else the one left by the
      call before, carries nothing for this call. */
  ghost predicate Unusable(call: Call, previous: Reply, reply: bytes) {
    var p, fs := ParseMessage(ReplyStepOf(call), previous, reply), Decode(reply).fields;
    !p.ok || (!CarriesBody(call, fs)
              && (if CarriesStatus(fs) then p.out.status.code else previous.status.code) == 0)
  }

  lemma BadResponseIffUnusable(call: Call, previous: Reply, reply: bytes)
    requires !previous.sawBody
    ensures ReadReply(call, previous, reply).0 == BadResponse <==> Unusable(call, previous, reply)
  {
    hide ParseMessage, Fold, CarriesStatus, CarriesBody;
    var fs := Decode(reply).fields;
    ParseIsFold(ReplyStepOf(call), previous, reply);
    BodyIsSeen(call, previous, fs);
    if !CarriesStatus(fs) { NoStatusKeepsOld(call, previous, fs); }
  }

  /** The failing case: a reply with the caller's own id and nothing else is matched to its request,
      which keeps the connection open, and is then a bad response. */
  lemma BareIdIsMatchedAndBad(call: Call, id: uint32, previous: Reply)
    requires id != 0 && previous.status.code == 0 && !previous.sawBody
    ensures var reply := EncodeAll([Field(REQUEST_ID, Number(id))]);
            FirstId(reply) == Some(id) && ReadReply(call, previous, reply).0 == BadResponse
  {
    hide EncodeAll, Decode, ParseMessage, FirstId;
    var f := Field(REQUEST_ID, Number(id));
    DecodeInvertsEncode([f]);
    IdOfFields(EncodeAll([f]));
    BadResponseIffUnusable(call, previous, EncodeAll([f]));
  }

  // ---- The request numbered 0 ----

  /** Ids are counted modulo 2^32. The reply to the one numbered 0 leaves the id out, and so is
      matched to no request, not even its own; every other reply is matched to its own alone. */
  lemma ReplyMatchesUnlessZero(id: uint32, status: Status, result: ConvertResult, asked: uint32)
    requires |EncodeAll(ConvertReplyFields(id, status, result))| < TWO_64
    ensures FirstId(EncodeAll(ConvertReplyFields(id, status, result))) == Some(asked) <==> id == asked && id != 0
  {
    hide EncodeAll, ConvertReplyFields, FirstId;
    ConvertReplyId(id, status, result);
  }

  // ---- Fields a newer engine adds ----

  /** `grown` is `fs` with fields nobody reads put in anywhere, and with any nested message
      replaced by one that has itself grown. */
  ghost predicate Grown(known: Field -> bool, deeper: (Field, Field) -> bool, fs: seq<Field>, grown: seq<Field>)
    decreases |grown|
  {
    if grown == [] then fs == []
    else
      || (!known(grown[0]) && Grown(known, deeper, fs, grown[1..]))
      || (fs != [] && (fs[0] == grown[0] || deeper(fs[0], grown[0])) && Grown(known, deeper, fs[1..], grown[1..]))
  }

  ghost predicate GrownBytes(known: Field -> bool, deeper: (Field, Field) -> bool, s: bytes, t: bytes) {
    Decode(s).complete == Decode(t).complete && Grown(known, deeper, Decode(s).fields, Decode(t).fields)
  }

  lemma {:induction false} GrownFoldsAlike<T>(
    step: (T, Field) -> Parse<T>, known: Field -> bool, deeper: (Field, Field) -> bool,
    out: T, fs: seq<Field>, grown: seq<Field>)
    requires forall x, f :: !known(f) ==> step(x, f) == Parse(true, x)
    requires forall x, f, g :: deeper(f, g) ==> step(x, f) == step(x, g)
    requires Grown(known, deeper, fs, grown)
    ensures Fold(step, out, grown) == Fold(step, out, fs)
    decreases |grown|
  {
    if grown != [] {
      if !known(grown[0]) && Grown(known, deeper, fs, grown[1..]) {
        GrownFoldsAlike(step, known, deeper, out, fs, grown[1..]);
      } else {
        var r := step(out, grown[0]);
        assert step(out, fs[0]) == r;
        if r.ok { GrownFoldsAlike(step, known, deeper, r.out, fs[1..], grown[1..]); }
      }
    }
  }

  lemma GrownParsesAlike<T>(
    step: (T, Field) -> Parse<T>, known: Field -> bool, deeper: (Field, Field) -> bool, out: T, s: bytes, t: bytes)
    requires forall x, f :: !known(f) ==> step(x, f) == Parse(true, x)
    requires forall x, f, g :: deeper(f, g) ==> step(x, f) == step(x, g)
    requires GrownBytes(known, deeper, s, t)
    ensures ParseMessage(step, out, t) == ParseMessage(step, out, s)
  {
    hide ParseMessage, Grown;
    ParseIsFold(step, out, s);
    ParseIsFold(step, out, t);
    GrownFoldsAlike(step, known, deeper, out, Decode(s).fields, Decode(t).fields);
  }

  lemma {:induction false} GrownIdAlike(known: Field -> bool, deeper: (Field, Field) -> bool,
                                    fs: seq<Field>, grown: seq<Field>)
    requires forall f: Field :: f.number == REQUEST_ID && f.payload.Number? ==> known(f)
    requires forall f, g :: deeper(f, g) ==> f.payload.Body? && g.payload.Body?
    requires Grown(known, deeper, fs, grown)
    ensures FirstIdIn(grown) == FirstIdIn(fs)
    decreases |grown|
  {
    if grown != [] {
      if !known(grown[0]) && Grown(known, deeper, fs, grown[1..]) {
        GrownIdAlike(known, deeper, fs, grown[1..]);
      } else {
        GrownIdAlike(known, deeper, fs[1..], grown[1..]);
      }
    }
  }

  // The fields each parser takes in, and the nested messages they carry.

  predicate SegmentKnows(f: Field) {
    f.number in {1, 2} && f.payload.Body?
  }

  predicate StatusKnows(f: Field) {
    (f.number == 1 && f.payload.Number?) || (f.number == 2 && f.payload.Body?)
  }

  predicate PingKnows(f: Field) {
    (f.number == 1 && f.payload.Body?) || (f.number in {2, 3} && f.payload.Number?)
  }

  predicate CandidateKnows(f: Field) {
    (f.number in {1, 2, 4} && f.payload.Body?) || (f.number == 3 && f.payload.Number?)
  }

  predicate ConvertKnows(f: Field) {
    (f.number == 1 && f.payload.Body?) || (f.number == 2 && f.payload.Number?)
  }

  predicate ReplyKnows(call: Call, f: Field) {
    (f.number == REQUEST_ID && f.payload.Number?) || (f.number in {STATUS, BodyField(call)} && f.payload.Body?)
  }

  predicate SameNested(number: uint32, f: Field, g: Field) {
    f.number == number && g.number == number && f.payload.Body? && g.payload.Body?
  }

  predicate NothingNested(f: Field, g: Field) {
    false
  }

  ghost predicate SegmentGrown(s: bytes, t: bytes) {
    GrownBytes(SegmentKnows, NothingNested, s, t)
  }

  ghost predicate InCandidate(f: Field, g: Field) {
    SameNested(4, f, g) && SegmentGrown(f.payload.body, g.payload.body)
  }

  ghost predicate CandidateGrown(s: bytes, t: bytes) {
    GrownBytes(CandidateKnows, InCandidate, s, t)
  }

  ghost predicate InConvert(f: Field, g: Field) {
    SameNested(1, f, g) && CandidateGrown(f.payload.body, g.payload.body)
  }

  ghost predicate ConvertGrown(s: bytes, t: bytes) {
    GrownBytes(ConvertKnows, InConvert, s, t)
  }

  ghost predicate StatusGrown(s: bytes, t: bytes) {
    GrownBytes(StatusKnows, NothingNested, s, t)
  }

  ghost predicate PingGrown(s: bytes, t: bytes) {
    GrownBytes(PingKnows, NothingNested, s, t)
  }

  ghost predicate InReply(call: Call, f: Field, g: Field) {
    || (SameNested(STATUS, f, g) && StatusGrown(f.payload.body, g.payload.body))
    || (SameNested(BodyField(call), f, g)
        && match call
           case ConvertCall => ConvertGrown(f.payload.body, g.payload.body)
           case PingCall => PingGrown(f.payload.body, g.payload.body)
           case CommitCall => true
           case RegisterWordCall => true)
  }

  ghost predicate ReplyGrown(call: Call, s: bytes, t: bytes) {
    GrownBytes(f => ReplyKnows(call, f), (f, g) => InReply(call, f, g), s, t)
  }

  lemma SegmentParsesAlike(out: Segment, s: bytes, t: bytes)
    requires SegmentGrown(s, t)
    ensures ParseMessage(SegmentStep, out, t) == ParseMessage(SegmentStep, out, s)
  {
    hide ParseMessage, GrownBytes;
    GrownParsesAlike(SegmentStep, SegmentKnows, NothingNested, out, s, t);
  }

  lemma CandidateParsesAlike(out: Candidate, s: bytes, t: bytes)
    requires CandidateGrown(s, t)
    ensures ParseMessage(CandidateStep, out, t) == ParseMessage(CandidateStep, out, s)
  {
    hide ParseMessage, GrownBytes, SegmentGrown;
    forall x, f, g | InCandidate(f, g) ensures CandidateStep(x, f) == CandidateStep(x, g) {
      SegmentParsesAlike(NO_SEGMENT, f.payload.body, g.payload.body);
    }
    GrownParsesAlike(CandidateStep, CandidateKnows, InCandidate, out, s, t);
  }

  lemma ConvertParsesAlike(out: ConvertResult, s: bytes, t: bytes)
    requires ConvertGrown(s, t)
    ensures ParseMessage(ConvertStep, out, t) == ParseMessage(ConvertStep, out, s)
  {
    hide ParseMessage, GrownBytes, CandidateGrown;
    forall x, f, g | InConvert(f, g) ensures ConvertStep(x, f) == ConvertStep(x, g) {
      CandidateParsesAlike(NO_CANDIDATE, f.payload.body, g.payload.body);
    }
    GrownParsesAlike(ConvertStep, ConvertKnows, InConvert, out, s, t);
  }

  lemma StatusParsesAlike(out: Status, s: bytes, t: bytes)
    requires StatusGrown(s, t)
    ensures ParseMessage(StatusStep, out, t) == ParseMessage(StatusStep, out, s)
  {
    hide ParseMessage, GrownBytes;
    GrownParsesAlike(StatusStep, StatusKnows, NothingNested, out, s, t);
  }

  lemma PingParsesAlike(out: PingResult, s: bytes, t: bytes)
    requires PingGrown(s, t)
    ensures ParseMessage(PingStep, out, t) == ParseMessage(PingStep, out, s)
  {
    hide ParseMessage, GrownBytes;
    GrownParsesAlike(PingStep, PingKnows, NothingNested, out, s, t);
  }

  lemma ReplyStepsAlike(call: Call, x: Reply, f: Field, g: Field)
    requires InReply(call, f, g)
    ensures ReplyStep(call, x, f) == ReplyStep(call, x, g)
  {
    hide ParseMessage, StatusGrown, ConvertGrown, PingGrown;
    var s, t := f.payload.body, g.payload.body;
    if f.number == STATUS {
      StatusParsesAlike(OK_STATUS, s, t);
    } else if call == ConvertCall {
      ConvertParsesAlike(x.convert, s, t);
    } else if call == PingCall {
      PingParsesAlike(x.ping, s, t);
    }
  }

  /** Adding fields a build does not know, at any field boundary of any message of a reply, changes
      neither what the reply is taken to say nor which request it is matched to. */
  lemma NewerReplyReadsAlike(call: Call, previous: Reply, s: bytes, t: bytes)
    requires ReplyGrown(call, s, t)
    ensures ReadReply(call, previous, t) == ReadReply(call, previous, s)
    ensures FirstId(t) == FirstId(s)
  {
    hide ParseMessage, FirstId, ReplyGrown;
    NewerReplyParses(call, previous, s, t);
    NewerReplyId(call, s, t);
  }

  lemma NewerReplyParses(call: Call, previous: Reply, s: bytes, t: bytes)
    requires ReplyGrown(call, s, t)
    ensures ParseMessage(ReplyStepOf(call), previous, t) == ParseMessage(ReplyStepOf(call), previous, s)
  {
    hide ParseMessage, GrownBytes, InReply;
    var known, deeper := (f: Field) => ReplyKnows(call, f), (f: Field, g: Field) => InReply(call, f, g);
    forall x, f, g | deeper(f, g) ensures ReplyStepOf(call)(x, f) == ReplyStepOf(call)(x, g) {
      ReplyStepsAlike(call, x, f, g);
    }
    GrownParsesAlike(ReplyStepOf(call), known, deeper, previous, s, t);
  }

  lemma NewerReplyId(call: Call, s: bytes, t: bytes)
    requires ReplyGrown(call, s, t)
    ensures FirstId(t) == FirstId(s)
  {
    hide Grown, StatusGrown, ConvertGrown, PingGrown;
    var known, deeper := (f: Field) => ReplyKnows(call, f), (f: Field, g: Field) => InReply(call, f, g);
    IdOfFields(s);
    IdOfFields(t);
    GrownIdAlike(known, deeper, Decode(s).fields, Decode(t).fields);
  }

  // ---- Growing a message on the wire ----

  lemma {:induction false} GrownSame(known: Field -> bool, deeper: (Field, Field) -> bool, fs: seq<Field>)
    ensures Grown(known, deeper, fs, fs)
  {
    if fs != [] { GrownSame(known, deeper, fs[1..]); }
  }

  lemma {:induction false} GrownConcat(
    known: Field -> bool, deeper: (Field, Field) -> bool,
    a: seq<Field>, a': seq<Field>, b: seq<Field>, b': seq<Field>)
    requires Grown(known, deeper, a, a') && Grown(known, deeper, b, b')
    ensures Grown(known, deeper, a + b, a' + b')
    decreases |a'|
  {
    if a' == [] {
      assert a + b == b && a' + b' == b';
    } else {
      assert (a' + b')[1..] == a'[1..] + b';
      if !known(a'[0]) && Grown(known, deeper, a, a'[1..]) {
        GrownConcat(known, deeper, a, a'[1..], b, b');
      } else {
        assert (a + b)[1..] == a[1..] + b;
        GrownConcat(known, deeper, a[1..], a'[1..], b, b');
      }
    }
  }

  lemma {:induction false} GrownUnknown(known: Field -> bool, deeper: (Field, Field) -> bool, fs: seq<Field>)
    requires forall f :: f in fs ==> !known(f)
    ensures Grown(known, deeper, [], fs)
  {
    if fs != [] { GrownUnknown(known, deeper, fs[1..]); }
  }

  /** Bytes of unknown fields put in at a field boundary; what follows may even be malformed. */
  lemma InsertedUnknown(known: Field -> bool, deeper: (Field, Field) -> bool, a: bytes, inserted: bytes, b: bytes)
    requires Decode(a).complete && Decode(inserted).complete
    requires forall f :: f in Decode(inserted).fields ==> !known(f)
    ensures GrownBytes(known, deeper, a + b, a + inserted + b)
  {
    hide Decode, Grown;
    var fa, fi, fb := Decode(a).fields, Decode(inserted).fields, Decode(b).fields;
    DecodeConcat(a, b);
    DecodeConcat(a, inserted);
    DecodeConcat(a + inserted, b);
    GrownSame(known, deeper, fa);
    GrownSame(known, deeper, fb);
    GrownUnknown(known, deeper, fi);
    GrownConcat(known, deeper, fa, fa, [], fi);
    GrownConcat(known, deeper, fa + [], fa + fi, fb, fb);
    assert fa + [] == fa;
  }

  /** A nested message that has itself grown, with its length prefix rewritten. */
  lemma GrownInside(known: Field -> bool, deeper: (Field, Field) -> bool, a: bytes, f: Field, g: Field, b: bytes)
    requires Decode(a).complete && Writable(f) && Writable(g) && deeper(f, g)
    ensures GrownBytes(known, deeper, a + Encode(f) + b, a + Encode(g) + b)
  {
    hide Decode, Encode, Grown;
    var fa, fb := Decode(a).fields, Decode(b).fields;
    OneField(f);
    OneField(g);
    DecodeConcat(a, Encode(f));
    DecodeConcat(a, Encode(g));
    DecodeConcat(a + Encode(f), b);
    DecodeConcat(a + Encode(g), b);
    GrownSame(known, deeper, fa);
    GrownSame(known, deeper, fb);
    GrownOne(known, deeper, f, g);
    GrownConcat(known, deeper, fa, fa, [f], [g]);
    GrownConcat(known, deeper, fa + [f], fa + [g], fb, fb);
  }

  lemma GrownOne(known: Field -> bool, deeper: (Field, Field) -> bool, f: Field, g: Field)
    requires deeper(f, g)
    ensures Grown(known, deeper, [f], [g])
  {
    assert [f][1..] == [] && [g][1..] == [];
    assert Grown(known, deeper, [], []);
  }

  lemma OneField(f: Field)
    requires Writable(f)
    ensures Decode(Encode(f)) == Message([f], true)
  {
    DecodeInvertsEncode([f]);
    assert EncodeAll([f]) == Encode(f) + EncodeAll([f][1..]);
    assert [f][1..] == [] && Encode(f) + [] == Encode(f);
  }
}
