/** A conversion result written with the Write functions, message by message from the inside out. */
module WireSerializer {
  import opened MachineIntegers
  import opened WireFormat
  import opened WireIO
  import opened WireMessages
  import opened WireLaws

  lemma SegmentFits(s: Segment)
    requires |SegmentBytes(s)| < TWO_64
    ensures |s.text| < TWO_64 && |s.reading| < TWO_64
  {
    var fs := SegmentFields(s);
    FieldsFit(fs);
    TextFits(fs, 1, s.text);
    TextFits(fs, 2, s.reading);
  }

  method WriteSegment(s: Segment) returns (body: bytes)
    requires |SegmentBytes(s)| < TWO_64
    ensures body == SegmentBytes(s)
  {
    hide EncodeAll, TextFields;
    SegmentFits(s);
    EncodeAllConcat(TextFields(1, s.text), TextFields(2, s.reading));
    var buffer := new ByteBuffer();
    buffer.WriteString(1, s.text);
    buffer.WriteString(2, s.reading);
    return buffer.contents;
  }

  lemma TextFits(fs: seq<Field>, number: uint32, text: bytes)
    requires AllWritable(fs) && forall f :: f in TextFields(number, text) ==> f in fs
    ensures |text| < TWO_64
  {
    if text != [] { assert Field(number, Body(text)) in TextFields(number, text); }
  }

  method WriteCandidate(c: Candidate) returns (body: bytes)
    requires |CandidateBytes(c)| < TWO_64
    ensures body == CandidateBytes(c)
  {
    hide SegmentBytes, EncodeAll, TextFields, NumberFields, AllWritable;
    ghost var head := TextFields(1, c.text) + TextFields(2, c.reading) + NumberFields(3, SignExtend(c.score));
    CandidateFits(c);
    TextFits(CandidateFields(c), 1, c.text);
    TextFits(CandidateFields(c), 2, c.reading);
    EncodeAllConcat(TextFields(1, c.text), TextFields(2, c.reading));
    EncodeAllConcat(TextFields(1, c.text) + TextFields(2, c.reading), NumberFields(3, SignExtend(c.score)));
    var buffer := new ByteBuffer();
    buffer.WriteString(1, c.text);
    buffer.WriteString(2, c.reading);
    buffer.WriteInt32(3, c.score);
    NestedNone(head, 4);
    assert SegmentBodies(c.segments[..0]) == [];
    for i := 0 to |c.segments|
      invariant fresh(buffer)
      invariant buffer.contents == EncodeAll(head + NestedFields(4, SegmentBodies(c.segments[..i])))
    {
      var segment := WriteSegment(c.segments[i]);
      NestedStep(head, 4, SegmentBodies(c.segments[..i]), segment);
      assert SegmentBodies(c.segments[..i + 1]) == SegmentBodies(c.segments[..i]) + [segment];
      buffer.WriteMessage(4, segment);
    }
    assert c.segments[..|c.segments|] == c.segments;
    return buffer.contents;
  }

  lemma NestedNone(head: seq<Field>, number: uint32)
    ensures EncodeAll(head + NestedFields(number, [])) == EncodeAll(head)
  {
    assert head + NestedFields(number, []) == head;
  }

  lemma NestedStep(head: seq<Field>, number: uint32, bodies: seq<bytes>, body: bytes)
    ensures EncodeAll(head + NestedFields(number, bodies + [body]))
         == EncodeAll(head + NestedFields(number, bodies)) + EncodeAll([Field(number, Body(body))])
  {
    var last := [Field(number, Body(body))];
    assert NestedFields(number, bodies + [body]) == NestedFields(number, bodies) + last;
    assert head + (NestedFields(number, bodies) + last) == (head + NestedFields(number, bodies)) + last;
    EncodeAllConcat(head + NestedFields(number, bodies), last);
  }

  lemma NothingEncoded()
    ensures EncodeAll([]) == []
  {
  }

  method WriteResult(r: ConvertResult) returns (body: bytes)
    requires |ResultBytes(r)| < TWO_64
    ensures body == ResultBytes(r)
  {
    hide CandidateBytes, EncodeAll, NumberFields;
    ResultFits(r);
    var flag := if r.zenzaiUsed then 1 else 0;
    EncodeAllConcat(NestedFields(1, CandidateBodies(r.candidates)), NumberFields(2, flag));
    var buffer := new ByteBuffer();
    NestedNone([], 1);
    NothingEncoded();
    assert CandidateBodies(r.candidates[..0]) == [];
    for i := 0 to |r.candidates|
      invariant fresh(buffer)
      invariant buffer.contents == EncodeAll([] + NestedFields(1, CandidateBodies(r.candidates[..i])))
    {
      var candidate := WriteCandidate(r.candidates[i]);
      NestedStep([], 1, CandidateBodies(r.candidates[..i]), candidate);
      assert CandidateBodies(r.candidates[..i + 1]) == CandidateBodies(r.candidates[..i]) + [candidate];
      buffer.WriteMessage(1, candidate);
    }
    assert r.candidates[..|r.candidates|] == r.candidates;
    assert [] + NestedFields(1, CandidateBodies(r.candidates)) == NestedFields(1, CandidateBodies(r.candidates));
    buffer.WriteBool(2, r.zenzaiUsed);
    return buffer.contents;
  }
}
