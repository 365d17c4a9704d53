/** The bytes and the numbers on the wire, written out: what a varint and a field look like, and which
    field of each message of ohagey.proto is which. */
module WireSchema {
  import opened Wrappers
  import opened MachineIntegers
  import opened WireFormat
  import opened WireIO
  import opened WireMessages
  import opened WireLaws
  import opened EngineClient

  // ---- Bytes ----

  /** The digits of a varint to the base 128, the least first, each but the last with its top bit set,
      and no more of them than it takes. */
  lemma {:induction false} VarintDigits(v: nat, i: nat)
    requires i < |Varint(v)|
    ensures Varint(v)[i] == v / Pow128(i) % 128 + if i + 1 < |Varint(v)| then 128 else 0
    ensures i + 1 == |Varint(v)| ==> v < Pow128(|Varint(v)|) && (i > 0 ==> Pow128(i) <= v)
    decreases v
  {
    if v < 128 {
      assert Pow128(1) == 128 * Pow128(0);
    } else if i > 0 {
      VarintDigits(v / 128, i - 1);
      QuotientTwice(v, Pow128(i - 1));
      assert Varint(v)[i] == Varint(v / 128)[i - 1] && |Varint(v)| == |Varint(v / 128)| + 1;
      if i + 1 == |Varint(v)| { Scaled(v, i); }
    }
  }

  lemma QuotientTwice(v: nat, p: nat)
    requires p >= 1
    ensures v / 128 / p == v / (128 * p)
  {
    var q := v / 128 / p;
    var a, b := v % 128, v / 128 % p;
    assert v / 128 == q * p + b;
    assert v == 128 * (q * p + b) + a;
    assert v == q * (128 * p) + (128 * b + a);
    assert 0 <= 128 * b + a < 128 * p;
    Quotient(v, 128 * p, q, 128 * b + a);
  }

  lemma Quotient(v: nat, d: nat, q: nat, r: nat)
    requires d >= 1 && v == q * d + r && r < d
    ensures v / d == q
  {
    var k := v / d;
    assert v == k * d + v % d;
    Monotone(k + 1, q, d);
    Monotone(q + 1, k, d);
  }

  lemma Monotone(a: nat, b: nat, d: nat)
    ensures a <= b ==> a * d <= b * d
  {
  }

  lemma Scaled(v: nat, i: nat)
    requires v >= 128 && i >= 1 && v / 128 < Pow128(i) && (i > 1 ==> Pow128(i - 1) <= v / 128)
    ensures v < Pow128(i + 1) && Pow128(i) <= v
  {
    assert Pow128(i + 1) == 128 * Pow128(i) && Pow128(i) == 128 * Pow128(i - 1);
    assert i == 1 ==> Pow128(0) == 1;
  }

  /** The digits of a varint, added up from the other end. */
  function Weighted(digits: bytes): nat {
    if digits == [] then 0
    else Weighted(digits[..|digits| - 1]) + digits[|digits| - 1] % 128 * Pow128(|digits| - 1)
  }

  lemma {:induction false} WeightedFirst(digits: bytes)
    requires digits != []
    ensures Weighted(digits) == digits[0] % 128 + 128 * Weighted(digits[1..])
    decreases |digits|
  {
    var init, rest := digits[..|digits| - 1], digits[1..];
    if |digits| == 1 {
      assert init == [] && rest == [];
      assert Pow128(0) == 1;
    } else {
      WeightedFirst(init);
      assert init[1..] == rest[..|rest| - 1];
      var d, p := digits[|digits| - 1] % 128, Pow128(|rest| - 1);
      assert Pow128(|digits| - 1) == 128 * p;
      assert d * (128 * p) == 128 * (d * p);
    }
  }

  /** Any varint, the shortest for its value or not, is read as the sum of its digits: those up to the
      first byte below 128, ten at most. */
  lemma {:induction false} GroupsAddUp(s: bytes, left: nat)
    requires Groups(s, left).Got?
    ensures var r := Groups(s, left);
            && r.value == Weighted(s[..r.size]) && s[r.size - 1] < 128
            && forall i :: 0 <= i < r.size - 1 ==> s[i] >= 128
  {
    var r := Groups(s, left);
    WeightedFirst(s[..r.size]);
    if s[0] >= 128 {
      GroupsAddUp(s[1..], left - 1);
      assert s[..r.size][1..] == s[1..][..r.size - 1];
    } else {
      assert s[..1][1..] == [];
    }
  }

  lemma VarintsAddUp(s: bytes)
    requires DecodeVarint(s).Got?
    ensures var r := DecodeVarint(s);
            && 1 <= r.size <= 10 && r.size <= |s|
            && r.value == Weighted(s[..r.size]) % 0x1_0000_0000_0000_0000
            && s[r.size - 1] < 128 && forall i :: 0 <= i < r.size - 1 ==> s[i] >= 128
  {
    hide Groups;
    GroupsAddUp(s, MAX_VARINT);
  }

  /** A tag of field 0, or of the wire types 6 and 7, is refused, and a field of the wire types 3 and 4 is
      too. */
  lemma TagsRefused(tag: uint64, rest: bytes)
    ensures DecodeTag(Varint(tag) + rest) ==
            if tag / 8 % 0x1_0000_0000 == 0 || tag % 8 > 5 then Fail
            else Got(Tag(tag / 8 % 0x1_0000_0000, tag % 8), |Varint(tag)|)
    ensures tag % 8 in {3, 4, 6, 7} ==> DecodeField(Varint(tag) + rest).Fail?
  {
    hide Varint, DecodeVarint;
    VarintRoundTrip(tag, rest);
  }

  /** An int32 read from 64 bits has the same low 32 bits. */
  lemma LowBitsKept(v: uint64)
    ensures (v - Truncate(v)) % 0x1_0000_0000 == 0
  {
  }

  /** The first id of a reply decides, and only its low 32 bits. */
  lemma FirstIdDecides(a: uint64, b: uint64)
    ensures FirstId(EncodeAll([Field(1, Number(a)), Field(1, Number(b))])) == Some(a % 0x1_0000_0000)
  {
    hide EncodeAll, FirstId, Decode;
    var fs := [Field(1, Number(a)), Field(1, Number(b))];
    DecodeInvertsEncode(fs);
    IdOfFields(EncodeAll(fs));
  }

  /** A field is its number and wire type in one varint, and then a varint, eight bytes, bytes behind
      their length, or four bytes. */
  lemma FieldBytes(n: uint32, v: uint64, b: bytes)
    ensures Encode(Field(n, Number(v))) == Varint(8 * n) + Varint(v)
    ensures Encode(Field(n, Eight(b))) == Varint(8 * n + 1) + b
    ensures Encode(Field(n, Body(b))) == Varint(8 * n + 2) + (Varint(|b|) + b)
    ensures Encode(Field(n, Four(b))) == Varint(8 * n + 5) + b
  {
  }

  /** The examples of the Protocol Buffers encoding: 150 as field 1, "testing" as field 2, and -2 as an
      int32. */
  lemma EncodingExamples()
    ensures Encode(Field(1, Number(150))) == [0x08, 0x96, 0x01]
    ensures var testing := [0x74, 0x65, 0x73, 0x74, 0x69, 0x6E, 0x67];
            Encode(Field(2, Body(testing))) == [0x12, 0x07] + testing
    ensures SignExtend(-2) == 0xFFFF_FFFF_FFFF_FFFE
  {
    assert Varint(150) == [0x96, 0x01];
  }

  /** The frame header holds the length, the least byte first. */
  lemma HeaderIsLittleEndian(length: uint32)
    ensures var h := Header(length);
            |h| == 4 && length == h[0] as int + h[1] as int * 256 + h[2] as int * 65536 + h[3] as int * 16777216
  {
    HeaderParts(length);
  }

  // ---- Messages of a reply ----

  lemma FoldThree<T>(step: (T, Field) -> Parse<T>, out: T, f: Field, g: Field, h: Field)
    requires step(out, f).ok && step(step(out, f).out, g).ok
    ensures Fold(step, out, [f, g, h]) == step(step(step(out, f).out, g).out, h)
  {
    assert [f, g, h][1..] == [g, h];
    FoldTwo(step, step(out, f).out, g, h);
  }

  /** A segment has its text in field 1 and its reading in field 2. */
  lemma SegmentByNumber(text: bytes, reading: bytes)
    requires |text| < TWO_64 && |reading| < TWO_64
    ensures ParseMessage(SegmentStep, NO_SEGMENT, EncodeAll([Field(1, Body(text)), Field(2, Body(reading))]))
         == Parse(true, Segment(text, reading))
  {
    hide EncodeAll, ParseMessage;
    var f, g := Field(1, Body(text)), Field(2, Body(reading));
    ParseWritten(SegmentStep, NO_SEGMENT, [f, g]);
    FoldTwo(SegmentStep, NO_SEGMENT, f, g);
  }

  /** A candidate has its text in field 1, its reading in field 2, its score in field 3, a negative one
      with 2^64 added, and a segment in each field 4. */
  lemma CandidateByNumber(text: bytes, reading: bytes, score: int32, segment: bytes, s: Segment)
    requires |text| < TWO_64 && |reading| < TWO_64 && |segment| < TWO_64
    requires ParseMessage(SegmentStep, NO_SEGMENT, segment) == Parse(true, s)
    ensures var sent := if score >= 0 then score else score + 0x1_0000_0000_0000_0000;
            var fs := [Field(1, Body(text)), Field(2, Body(reading)), Field(3, Number(sent)), Field(4, Body(segment))];
            ParseMessage(CandidateStep, NO_CANDIDATE, EncodeAll(fs))
            == Parse(true, Candidate(text, reading, score, [s]))
  {
    hide EncodeAll, ParseMessage;
    var sent := if score >= 0 then score else score + 0x1_0000_0000_0000_0000;
    var f, g, h, k := Field(1, Body(text)), Field(2, Body(reading)), Field(3, Number(sent)), Field(4, Body(segment));
    TruncateInvertsSignExtend(score);
    ParseWritten(CandidateStep, NO_CANDIDATE, [f, g, h, k]);
    assert [f, g, h, k][1..] == [g, h, k];
    FoldThree(CandidateStep, Candidate(text, [], 0, []), g, h, k);
    assert [] + [s] == [s];
  }

  /** A conversion has a candidate in each field 1 and the Zenzai flag in field 2. */
  lemma ConvertByNumber(a: bytes, b: bytes, ca: Candidate, cb: Candidate, flag: uint64)
    requires |a| < TWO_64 && |b| < TWO_64
    requires ParseMessage(CandidateStep, NO_CANDIDATE, a) == Parse(true, ca)
    requires ParseMessage(CandidateStep, NO_CANDIDATE, b) == Parse(true, cb)
    ensures ParseMessage(ConvertStep, NO_RESULT,
                         EncodeAll([Field(1, Body(a)), Field(1, Body(b)), Field(2, Number(flag))]))
         == Parse(true, ConvertResult([ca, cb], flag != 0))
  {
    hide EncodeAll, ParseMessage;
    var f, g, h := Field(1, Body(a)), Field(1, Body(b)), Field(2, Number(flag));
    ParseWritten(ConvertStep, NO_RESULT, [f, g, h]);
    assert [] + [ca] + [cb] == [ca, cb];
    FoldThree(ConvertStep, NO_RESULT, f, g, h);
  }

  /** A status has its code in field 1 and its message in field 2. */
  lemma StatusByNumber(code: uint64, message: bytes)
    requires |message| < TWO_64 && code < 0x8000_0000
    ensures ParseMessage(StatusStep, OK_STATUS, EncodeAll([Field(1, Number(code)), Field(2, Body(message))]))
         == Parse(true, Status(code, message))
  {
    hide EncodeAll, ParseMessage;
    var f, g := Field(1, Number(code)), Field(2, Body(message));
    ParseWritten(StatusStep, OK_STATUS, [f, g]);
    FoldTwo(StatusStep, OK_STATUS, f, g);
  }

  /** A ping has the engine's version in field 1, whether its model is loaded in field 2 and its backend
      in field 3. */
  lemma PingByNumber(version: bytes, loaded: uint64, backend: uint64)
    requires |version| < TWO_64 && backend < 0x8000_0000
    ensures ParseMessage(PingStep, NO_PING,
                         EncodeAll([Field(1, Body(version)), Field(2, Number(loaded)), Field(3, Number(backend))]))
         == Parse(true, PingResult(version, loaded != 0, backend))
  {
    hide EncodeAll, ParseMessage;
    var f, g, h := Field(1, Body(version)), Field(2, Number(loaded)), Field(3, Number(backend));
    ParseWritten(PingStep, NO_PING, [f, g, h]);
    FoldThree(PingStep, NO_PING, f, g, h);
  }

  // ---- The envelopes ----

  /** The field of a reply that answers each call. */
  predicate AnsweredIn(call: Call, n: uint32) {
    (call.ConvertCall? && n == 3) || (call.CommitCall? && n == 4) || (call.RegisterWordCall? && n == 5)
    || (call.PingCall? && n == 6)
  }

  /** The reply carries a body that the answered call can read. */
  ghost predicate Readable(n: uint32, body: bytes, previous: Reply) {
    && (n == 3 ==> ParseMessage(ConvertStep, previous.convert, body).ok)
    && (n == 6 ==> ParseMessage(PingStep, previous.ping, body).ok)
  }

  function ReplyByNumber(id: uint32, code: uint64, message: bytes, n: uint32, body: bytes): seq<Field> {
    (if id == 0 then [] else [Field(1, Number(id))])
    + [Field(2, Body(EncodeAll([Field(1, Number(code)), Field(2, Body(message))]))), Field(n, Body(body))]
  }

  /** A reply with the id in field 1, the status in field 2 and a body in field 3, 4, 5 or 6 answers a
      conversion, a commit, a registered word or a ping, and no other call; it is a success exactly when
      the code is 0. */
  lemma ReplyIsByNumber(call: Call, id: uint32, code: uint64, message: bytes, n: uint32, body: bytes, previous: Reply)
    requires n in {3, 4, 5, 6} && Readable(n, body, previous) && !previous.sawBody && code < 0x8000_0000
    requires |EncodeAll(ReplyByNumber(id, code, message, n, body))| < TWO_64
    ensures var reply := EncodeAll(ReplyByNumber(id, code, message, n, body));
            && ReadReply(call, previous, reply).0
               == (if code != 0 then Refused else if AnsweredIn(call, n) then CallOk else BadResponse)
            && ReadReply(call, previous, reply).1.status == Status(code, message)
            && FirstId(reply) == if id == 0 then None else Some(id)
  {
    hide EncodeAll, ParseMessage, FirstId, ReplyStep, ReplyByNumber;
    ReplyFits(id, code, message, n, body);
    ReplyFold(call, id, code, message, n, body, previous);
    ParseWritten(ReplyStepOf(call), previous, ReplyByNumber(id, code, message, n, body));
    ReplyId(id, code, message, n, body);
  }

  lemma ReplyFits(id: uint32, code: uint64, message: bytes, n: uint32, body: bytes)
    requires n in {3, 4, 5, 6} && |EncodeAll(ReplyByNumber(id, code, message, n, body))| < TWO_64
    ensures AllWritable(ReplyByNumber(id, code, message, n, body)) && |message| < TWO_64
  {
    hide EncodeAll;
    var fs := ReplyByNumber(id, code, message, n, body);
    FieldsFit(fs);
    assert Field(2, Body(EncodeAll([Field(1, Number(code)), Field(2, Body(message))]))) in fs;
    StatusFits(code, message);
  }

  lemma ReplyFold(call: Call, id: uint32, code: uint64, message: bytes, n: uint32, body: bytes, previous: Reply)
    requires n in {3, 4, 5, 6} && Readable(n, body, previous) && code < 0x8000_0000 && |message| < TWO_64
    ensures var r := Fold(ReplyStepOf(call), previous, ReplyByNumber(id, code, message, n, body));
            && r.ok && r.out.status == Status(code, message)
            && (r.out.sawBody <==> previous.sawBody || AnsweredIn(call, n))
  {
    hide EncodeAll, ParseMessage;
    var s, b := Field(2, Body(EncodeAll([Field(1, Number(code)), Field(2, Body(message))]))), Field(n, Body(body));
    StatusByNumber(code, message);
    var head := if id == 0 then [] else [Field(1, Number(id))];
    FoldConcat(ReplyStepOf(call), previous, head, [s, b]);
    if id != 0 { FoldOne(ReplyStepOf(call), previous, Field(1, Number(id))); }
    FoldTwo(ReplyStepOf(call), previous, s, b);
  }

  lemma ReplyId(id: uint32, code: uint64, message: bytes, n: uint32, body: bytes)
    requires AllWritable(ReplyByNumber(id, code, message, n, body))
    ensures FirstId(EncodeAll(ReplyByNumber(id, code, message, n, body))) == if id == 0 then None else Some(id)
  {
    hide EncodeAll, FirstId, Decode;
    var fs := ReplyByNumber(id, code, message, n, body);
    DecodeInvertsEncode(fs);
    IdOfFields(EncodeAll(fs));
    if id == 0 {
      var s, b := fs[0], fs[1];
      assert fs == [s, b] && fs[1..] == [b] && fs[1..][1..] == [];
      assert FirstIdIn([b]) == None;
    } else {
      assert fs[0] == Field(1, Number(id));
    }
  }

  lemma StatusFits(code: uint64, message: bytes)
    requires |EncodeAll([Field(1, Number(code)), Field(2, Body(message))])| < TWO_64
    ensures |message| < TWO_64
  {
    hide EncodeAll;
    var fs := [Field(1, Number(code)), Field(2, Body(message))];
    FieldsFit(fs);
    assert fs[1] in fs;
  }

  /** A conversion request has its id in field 1 and in field 2 the reading, how many candidates are
      wanted and the text before, in fields 1, 2 and 3, the text once more in a field 1. What is 0 or
      empty is left out. */
  lemma ConvertRequestByNumber(id: uint32, reading: bytes, nBest: uint32, preceding: bytes)
    requires id != 0 && reading != [] && nBest != 0 && preceding != []
    ensures RequestFields(id, RequestKind(ConvertCall), ConvertBodyFields(reading, nBest, preceding)) ==
            [Field(1, Number(id)),
             Field(2, Body(EncodeAll([Field(1, Body(reading)), Field(2, Number(nBest)),
                                      Field(3, Body(EncodeAll([Field(1, Body(preceding))])))])))]
    ensures RequestFields(0, RequestKind(ConvertCall), ConvertBodyFields([], 0, [])) == [Field(2, Body([]))]
  {
    hide EncodeAll;
    NothingWritten();
    assert ConvertBodyFields(reading, nBest, preceding) ==
           [Field(1, Body(reading)), Field(2, Number(nBest)), Field(3, Body(EncodeAll([Field(1, Body(preceding))])))];
    assert ConvertBodyFields([], 0, []) == [];
  }

  /** A commit has its id in field 1 and in field 3 the reading, the text and whether to learn, in fields
      1, 2 and 3. */
  lemma CommitRequestByNumber(id: uint32, reading: bytes, text: bytes, learn: bool)
    requires id != 0 && reading != [] && text != []
    ensures RequestFields(id, RequestKind(CommitCall), CommitBodyFields(reading, text, learn)) ==
            [Field(1, Number(id)),
             Field(3, Body(EncodeAll([Field(1, Body(reading)), Field(2, Body(text))]
                                     + if learn then [Field(3, Number(1))] else [])))]
  {
    hide EncodeAll;
    assert CommitBodyFields(reading, text, learn) ==
           [Field(1, Body(reading)), Field(2, Body(text))] + if learn then [Field(3, Number(1))] else [];
  }
}
