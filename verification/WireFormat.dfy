/** The Protocol Buffers wire format that tsf/Ohagey/OhageyWire.cpp reads and writes, as functions
    on byte sequences: Protocol Buffers Encoding, sections "Base 128 Varints", "Signed Integers"
    and "Length-Delimited Records". */
module WireFormat {
  import opened MachineIntegers

  type bytes = seq<byte>

  /** The outcome of reading at the front of a byte sequence: how much was read, and what. */
  datatype Read<T> = Fail | Got(value: T, size: nat)

  // ---- Varints ----

  function Varint(v: nat): (r: bytes)
    ensures r != []
  {
    if v < 0x80 then [v] else [v % 0x80 + 0x80] + Varint(v / 0x80)
  }

  /** The longest varint a 64-bit value needs. */
  const MAX_VARINT := 10

  /** The groups of one varint, least significant first, summed without any bound. */
  function Groups(s: bytes, left: nat): (r: Read<nat>)
    ensures r.Got? ==> 1 <= r.size <= |s| && r.size <= left
  {
    if left == 0 || s == [] then Fail
    else if s[0] < 0x80 then Got(s[0], 1)
    else
      match Groups(s[1..], left - 1)
      case Fail => Fail
      case Got(v, n) => Got(s[0] - 0x80 + 0x80 * v, n + 1)
  }

  /** The tenth group is shifted past the top of a uint64, which keeps only its lowest bit. */
  function DecodeVarint(s: bytes): (r: Read<uint64>)
    ensures r.Got? ==> 1 <= r.size <= |s| && r.size <= MAX_VARINT
  {
    match Groups(s, MAX_VARINT)
    case Fail => Fail
    case Got(v, n) => Got(v % TWO_64, n)
  }

  function Pow128(k: nat): (r: nat)
    ensures r >= 1
  {
    if k == 0 then 1 else 0x80 * Pow128(k - 1)
  }

  lemma {:induction false} GroupsInvert(v: nat, rest: bytes, left: nat)
    requires left >= 1 && v < Pow128(left)
    ensures Groups(Varint(v) + rest, left) == Got(v, |Varint(v)|)
    ensures |Varint(v)| <= left
  {
    if v >= 0x80 {
      assert Pow128(0) == 1;
      assert v < 0x80 * Pow128(left - 1);
      GroupsInvert(v / 0x80, rest, left - 1);
      assert (Varint(v) + rest)[1..] == Varint(v / 0x80) + rest;
    } else {
      assert (Varint(v) + rest)[0] == v;
    }
  }

  lemma TenGroups()
    ensures Pow128(9) == 0x8000_0000_0000_0000
    ensures Pow128(10) == 0x80 * 0x8000_0000_0000_0000
  {
    assert Pow128(3) == 0x20_0000;
    assert Pow128(6) == 0x400_0000_0000;
    assert Pow128(9) == 0x8000_0000_0000_0000;
  }

  /** Reading inverts writing for every 64-bit value, in at most ten bytes, whatever follows. */
  lemma VarintRoundTrip(v: uint64, rest: bytes)
    ensures DecodeVarint(Varint(v) + rest) == Got(v, |Varint(v)|)
    ensures |Varint(v)| <= MAX_VARINT
  {
    TenGroups();
    GroupsInvert(v, rest, MAX_VARINT);
  }

  /** What has been read does not change when more bytes follow. */
  lemma {:induction false} GroupsExtend(s: bytes, left: nat, rest: bytes)
    requires Groups(s, left).Got?
    ensures Groups(s + rest, left) == Groups(s, left)
  {
    assert (s + rest)[0] == s[0];
    if s[0] >= 0x80 {
      GroupsExtend(s[1..], left - 1, rest);
      assert (s + rest)[1..] == s[1..] + rest;
    }
  }

  lemma VarintExtend(s: bytes, rest: bytes)
    requires DecodeVarint(s).Got?
    ensures DecodeVarint(s + rest) == DecodeVarint(s)
  {
    GroupsExtend(s, MAX_VARINT, rest);
  }

  // ---- Fields ----

  const VARINT := 0
  const FIXED64 := 1
  const LENGTH_DELIMITED := 2
  const FIXED32 := 5

  /** What a field starts with: numbers count from 1, and the last two of the eight wire types are
      unassigned. */
  datatype Tag = Tag(number: uint32, wire: nat)

  function DecodeTag(s: bytes): (r: Read<Tag>)
    ensures r.Got? ==> 1 <= r.size <= |s| && r.value.number != 0 && r.value.wire <= 5
  {
    match DecodeVarint(s)
    case Fail => Fail
    case Got(tag, n) =>
      var number, wire := (tag / 8) % TWO_32, tag % 8;
      if number == 0 || wire > 5 then Fail else Got(Tag(number, wire), n)
  }

  datatype Payload =
    | Number(n: uint64)
    | Eight(raw: bytes)
    | Body(body: bytes)
    | Four(raw: bytes)

  datatype Field = Field(number: uint32, payload: Payload)

  function WireOf(p: Payload): nat {
    match p
    case Number(_) => VARINT
    case Eight(_) => FIXED64
    case Body(_) => LENGTH_DELIMITED
    case Four(_) => FIXED32
  }

  function DecodeBody(s: bytes): (r: Read<bytes>)
    ensures r.Got? ==> 1 <= r.size <= |s|
  {
    match DecodeVarint(s)
    case Fail => Fail
    case Got(length, n) => if length > |s| - n then Fail else Got(s[n..n + length], n + length)
  }

  /** The payload a tag announces. Groups (3 and 4) are refused. */
  function DecodePayload(wire: nat, s: bytes): (r: Read<Payload>)
    ensures r.Got? ==> 1 <= r.size <= |s| && WireOf(r.value) == wire
  {
    if wire == VARINT then
      match DecodeVarint(s) case Fail => Fail case Got(v, n) => Got(Number(v), n)
    else if wire == FIXED64 then
      if |s| < 8 then Fail else Got(Eight(s[..8]), 8)
    else if wire == LENGTH_DELIMITED then
      match DecodeBody(s) case Fail => Fail case Got(b, n) => Got(Body(b), n)
    else if wire == FIXED32 then
      if |s| < 4 then Fail else Got(Four(s[..4]), 4)
    else Fail
  }

  function DecodeField(s: bytes): (r: Read<Field>)
    ensures r.Got? ==> 2 <= r.size <= |s|
  {
    match DecodeTag(s)
    case Fail => Fail
    case Got(tag, n) =>
      match DecodePayload(tag.wire, s[n..])
      case Fail => Fail
      case Got(p, m) => Got(Field(tag.number, p), n + m)
  }

  /** The fields of a message up to the first malformed one, and whether there was none. */
  datatype Message = Message(fields: seq<Field>, complete: bool)

  function Decode(s: bytes): Message
    decreases |s|
  {
    if s == [] then Message([], true)
    else
      match DecodeField(s)
      case Fail => Message([], false)
      case Got(f, n) =>
        var rest := Decode(s[n..]);
        Message([f] + rest.fields, rest.complete)
  }

  // ---- Writing ----

  function EncodeTag(number: nat, wire: nat): bytes {
    Varint(number * 8 + wire)
  }

  function EncodePayload(p: Payload): bytes {
    match p
    case Number(v) => Varint(v)
    case Eight(raw) => raw
    case Body(b) => Varint(|b|) + b
    case Four(raw) => raw
  }

  function Encode(f: Field): bytes {
    EncodeTag(f.number, WireOf(f.payload)) + EncodePayload(f.payload)
  }

  function EncodeAll(fs: seq<Field>): bytes {
    if fs == [] then [] else Encode(fs[0]) + EncodeAll(fs[1..])
  }

  /** A field some writer could have produced. */
  predicate Writable(f: Field) {
    && f.number != 0
    && match f.payload
       case Number(_) => true
       case Eight(raw) => |raw| == 8
       case Body(b) => |b| < TWO_64
       case Four(raw) => |raw| == 4
  }

  predicate AllWritable(fs: seq<Field>) {
    forall f :: f in fs ==> Writable(f)
  }

  lemma TagRoundTrip(number: uint32, wire: nat, rest: bytes)
    requires number != 0 && wire <= 5
    ensures DecodeTag(EncodeTag(number, wire) + rest) == Got(Tag(number, wire), |EncodeTag(number, wire)|)
  {
    hide Varint, DecodeVarint;
    VarintRoundTrip(number * 8 + wire, rest);
  }

  lemma PayloadRoundTrip(f: Field, rest: bytes)
    requires Writable(f)
    ensures DecodePayload(WireOf(f.payload), EncodePayload(f.payload) + rest)
         == Got(f.payload, |EncodePayload(f.payload)|)
  {
    var s := EncodePayload(f.payload) + rest;
    match f.payload
    case Number(v) => VarintRoundTrip(v, rest);
    case Eight(raw) => assert s[..8] == raw;
    case Four(raw) => assert s[..4] == raw;
    case Body(b) =>
      var size := Varint(|b|);
      VarintRoundTrip(|b|, b + rest);
      assert s == size + (b + rest);
      assert s[|size|..|size| + |b|] == b;
  }

  lemma FieldRoundTrip(f: Field, rest: bytes)
    requires Writable(f)
    ensures DecodeField(Encode(f) + rest) == Got(f, |Encode(f)|)
  {
    var tag, body := EncodeTag(f.number, WireOf(f.payload)), EncodePayload(f.payload);
    assert Encode(f) + rest == tag + (body + rest);
    TagRoundTrip(f.number, WireOf(f.payload), body + rest);
    assert (tag + (body + rest))[|tag|..] == body + rest;
    PayloadRoundTrip(f, rest);
  }

  /** Fields written one after another are read back as those fields. */
  lemma {:induction false} DecodeInvertsEncode(fs: seq<Field>)
    requires AllWritable(fs)
    ensures Decode(EncodeAll(fs)) == Message(fs, true)
  {
    if fs != [] {
      var s := EncodeAll(fs);
      FieldRoundTrip(fs[0], EncodeAll(fs[1..]));
      assert s[|Encode(fs[0])|..] == EncodeAll(fs[1..]);
      DecodeInvertsEncode(fs[1..]);
    }
  }

  lemma PayloadExtend(wire: nat, s: bytes, rest: bytes)
    requires DecodePayload(wire, s).Got?
    ensures DecodePayload(wire, s + rest) == DecodePayload(wire, s)
  {
    if wire == VARINT {
      VarintExtend(s, rest);
    } else if wire == LENGTH_DELIMITED {
      VarintExtend(s, rest);
      var n := DecodeVarint(s).size;
      var length := DecodeVarint(s).value;
      assert (s + rest)[n..n + length] == s[n..n + length];
    } else if wire == FIXED64 {
      assert (s + rest)[..8] == s[..8];
    } else {
      assert (s + rest)[..4] == s[..4];
    }
  }

  lemma FieldExtend(s: bytes, rest: bytes)
    requires DecodeField(s).Got?
    ensures DecodeField(s + rest) == DecodeField(s)
  {
    VarintExtend(s, rest);
    var tag := DecodeTag(s);
    assert (s + rest)[tag.size..] == s[tag.size..] + rest;
    PayloadExtend(tag.value.wire, s[tag.size..], rest);
  }

  lemma DecodeStep(s: bytes)
    requires DecodeField(s).Got?
    ensures var f, rest := DecodeField(s), Decode(s[DecodeField(s).size..]);
            Decode(s) == Message([f.value] + rest.fields, rest.complete)
  {
  }

  lemma CompleteStep(s: bytes)
    requires s != [] && Decode(s).complete
    ensures DecodeField(s).Got? && Decode(s[DecodeField(s).size..]).complete
  {
  }

  /** `joined` reads as the fields of `first` followed by those of `second`. */
  ghost predicate ReadsAs(joined: bytes, first: Message, second: Message) {
    Decode(joined) == Message(first.fields + second.fields, second.complete)
  }

  lemma ReadsAsStep(f: Field, s: bytes, n: nat, rest: Message, second: Message)
    requires DecodeField(s) == Got(f, n) && ReadsAs(s[n..], rest, second)
    ensures ReadsAs(s, Message([f] + rest.fields, rest.complete), second)
  {
    DecodeStep(s);
    assert [f] + (rest.fields + second.fields) == ([f] + rest.fields) + second.fields;
  }

  /** Reading is a homomorphism at field boundaries. */
  lemma {:induction false} DecodeConcat(a: bytes, b: bytes)
    requires Decode(a).complete
    ensures ReadsAs(a + b, Decode(a), Decode(b))
    decreases |a|
  {
    if a == [] {
      assert a + b == b;
      assert [] + Decode(b).fields == Decode(b).fields;
    } else {
      CompleteStep(a);
      DecodeStep(a);
      FieldExtend(a, b);
      var f, n := DecodeField(a).value, DecodeField(a).size;
      assert (a + b)[n..] == a[n..] + b;
      DecodeConcat(a[n..], b);
      ReadsAsStep(f, a + b, n, Decode(a[n..]), Decode(b));
    }
  }
}
