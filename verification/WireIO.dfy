/** The writers and the reader of tsf/Ohagey/OhageyWire.cpp: a byte vector that grows, and a
    cursor that latches its first failure. Text is carried as the UTF-8 bytes that go on the wire. */
module WireIO {
  import opened MachineIntegers
  import opened WireFormat

  /** proto3 sign-extends an int32 to 64 bits. */
  function SignExtend(v: int32): uint64 {
    if v >= 0 then v else v + TWO_64
  }

  /** Keeping the low 32 bits, read as signed. */
  function Truncate(v: uint64): int32 {
    var low := v % TWO_32;
    if low < 0x8000_0000 then low else low - TWO_32
  }

  lemma TruncateInvertsSignExtend(v: int32)
    ensures Truncate(SignExtend(v)) == v
  {
  }

  // A field at its default value is not written; a nested message always is.

  function NumberFields(number: uint32, v: uint64): seq<Field> {
    if v == 0 then [] else [Field(number, Number(v))]
  }

  function TextFields(number: uint32, text: bytes): seq<Field> {
    if text == [] then [] else [Field(number, Body(text))]
  }

  class ByteBuffer {
    var contents: bytes

    constructor ()
      ensures contents == []
    {
      contents := [];
    }

    method WriteVarint(value: uint64)
      modifies this
      ensures contents == old(contents) + Varint(value)
    {
      var v: uint64 := value;
      ghost var written: bytes := [];
      while v >= 0x80
        invariant contents == old(contents) + written
        invariant written + Varint(v) == Varint(value)
      {
        ghost var next := v % 0x80 + 0x80;
        assert written + Varint(v) == (written + [next]) + Varint(v / 0x80);
        contents := contents + [v % 0x80 + 0x80];
        written := written + [next];
        v := v / 0x80;
      }
      contents := contents + [v];
    }

    method WriteTag(field: uint32, wire: nat)
      requires wire <= 5
      modifies this
      ensures contents == old(contents) + EncodeTag(field, wire)
    {
      WriteVarint(field * 8 + wire);
    }

    method WriteUInt32(field: uint32, value: uint32)
      modifies this
      ensures contents == old(contents) + EncodeAll(NumberFields(field, value))
    {
      if value != 0 {
        WriteTag(field, VARINT);
        WriteVarint(value);
      }
    }

    method WriteInt32(field: uint32, value: int32)
      modifies this
      ensures contents == old(contents) + EncodeAll(NumberFields(field, SignExtend(value)))
    {
      if value != 0 {
        WriteTag(field, VARINT);
        WriteVarint(SignExtend(value));
      }
    }

    method WriteBool(field: uint32, value: bool)
      modifies this
      ensures contents == old(contents) + EncodeAll(NumberFields(field, if value then 1 else 0))
    {
      if value {
        WriteTag(field, VARINT);
        WriteVarint(1);
      }
    }

    method WriteString(field: uint32, text: bytes)
      requires |text| < TWO_64
      modifies this
      ensures contents == old(contents) + EncodeAll(TextFields(field, text))
    {
      if text != [] {
        WriteMessage(field, text);
      }
    }

    method WriteMessage(field: uint32, body: bytes)
      requires |body| < TWO_64
      modifies this
      ensures contents == old(contents) + EncodeAll([Field(field, Body(body))])
    {
      WriteTag(field, LENGTH_DELIMITED);
      WriteVarint(|body|);
      contents := contents + body;
    }
  }

  // ---- Reading ----

  /** What one loop turn of the varint reader knows: the groups already taken, and the rest. */
  ghost predicate GroupsFrom(s: bytes, k: nat, taken: nat)
    requires k <= |s| && k <= MAX_VARINT
  {
    match Groups(s[k..], MAX_VARINT - k)
    case Fail => Groups(s, MAX_VARINT) == Fail
    case Got(v, n) => Groups(s, MAX_VARINT) == Got(taken + v * Pow128(k), n + k)
  }

  lemma Distribute(p: nat, group: nat, v: nat)
    ensures (group + 0x80 * v) * p == group * p + v * (0x80 * p)
  {
    assert (group + 0x80 * v) * p == group * p + (0x80 * v) * p;
  }

  lemma NextGroup(s: bytes, k: nat, taken: nat)
    requires k < |s| && k < MAX_VARINT && s[k] >= 0x80 && GroupsFrom(s, k, taken)
    ensures GroupsFrom(s, k + 1, taken + (s[k] - 0x80) * Pow128(k))
  {
    assert s[k..][1..] == s[k + 1..];
    var next := Groups(s[k + 1..], MAX_VARINT - k - 1);
    if next.Got? {
      Distribute(Pow128(k), s[k] - 0x80, next.value);
    }
  }

  lemma {:induction false} Pow128Grows(j: nat, k: nat)
    requires j <= k
    ensures Pow128(j) <= Pow128(k)
  {
    if j < k { Pow128Grows(j, k - 1); }
  }

  lemma GroupBound(p: nat, group: nat)
    requires group < 0x80
    ensures 0 <= group * p && group * p + p <= 0x80 * p
  {
    assert (group + 1) * p <= 0x80 * p;
  }

  /** Below the tenth group nothing is shifted out, and adding is what the bitwise or of disjoint
      bits computes. */
  lemma LowGroup(k: nat, taken: nat, group: nat)
    requires k < 9 && taken < Pow128(k) && group < 0x80
    ensures 0 <= group * Pow128(k) < TWO_64
    ensures taken + group * Pow128(k) < Pow128(k + 1) <= 0x8000_0000_0000_0000
  {
    TenGroups();
    GroupBound(Pow128(k), group);
    Pow128Grows(k + 1, 9);
  }

  /** The tenth group keeps its lowest bit. */
  lemma TopGroup(taken: nat, group: nat)
    requires taken < 0x8000_0000_0000_0000
    ensures (taken + group * 0x8000_0000_0000_0000) % TWO_64
         == taken + (group % 2) * 0x8000_0000_0000_0000
    ensures (group * 0x8000_0000_0000_0000) % TWO_64 == (group % 2) * 0x8000_0000_0000_0000
  {
    assert group == 2 * (group / 2) + group % 2;
  }

  lemma GroupFits(k: nat, taken: nat, group: nat)
    requires k < MAX_VARINT && taken < Pow128(k) && group < 0x80
    ensures k < 9 ==> taken + (group * Pow128(k)) % TWO_64 == taken + group * Pow128(k) < Pow128(k + 1)
    ensures taken + (group * Pow128(k)) % TWO_64 == (taken + group * Pow128(k)) % TWO_64
  {
    TenGroups();
    if k < 9 {
      LowGroup(k, taken, group);
    } else {
      TopGroup(taken, group);
    }
  }

  lemma LastByte(s: bytes, left: nat)
    requires s != [] && left > 0
    ensures s[0] < 0x80 ==> Groups(s, left) == Got(s[0], 1)
    ensures s[0] >= 0x80 && left == 1 ==> Groups(s, left) == Fail
  {
  }

  lemma LastGroup(s: bytes, k: nat, taken: nat)
    requires k < |s| && k < MAX_VARINT && GroupsFrom(s, k, taken)
    ensures s[k] < 0x80 ==> Groups(s, MAX_VARINT) == Got(taken + s[k] * Pow128(k), k + 1)
    ensures s[k] >= 0x80 && k == 9 ==> Groups(s, MAX_VARINT) == Fail
  {
    LastByte(s[k..], MAX_VARINT - k);
  }

  /** What a byte adds to the value at position `k`. */
  function Shifted(b: byte, scale: nat): nat {
    (b % 0x80) * scale % TWO_64
  }

  lemma LowByte(b: byte, scale: nat)
    ensures b < 0x80 ==> Shifted(b, scale) == b * scale % TWO_64
    ensures b >= 0x80 ==> Shifted(b, scale) == (b - 0x80) * scale % TWO_64
  {
    if b < 0x80 { assert b % 0x80 == b; } else { assert b % 0x80 == b - 0x80; }
  }

  lemma GroupsStart(s: bytes)
    ensures GroupsFrom(s, 0, 0)
  {
    assert s[0..] == s;
  }

  lemma VarintEnds(s: bytes, k: nat, value: nat)
    requires k < |s| && k < MAX_VARINT && value < Pow128(k) && GroupsFrom(s, k, value) && s[k] < 0x80
    ensures DecodeVarint(s) == Got(value + Shifted(s[k], Pow128(k)), k + 1)
  {
    hide Pow128, Groups, GroupsFrom, Shifted;
    LowByte(s[k], Pow128(k));
    GroupFits(k, value, s[k]);
    LastGroup(s, k, value);
  }

  lemma VarintGoesOn(s: bytes, k: nat, value: nat)
    requires k < |s| && k < MAX_VARINT && value < Pow128(k) && GroupsFrom(s, k, value) && s[k] >= 0x80
    ensures value + Shifted(s[k], Pow128(k)) < TWO_64
    ensures k < 9 ==> value + Shifted(s[k], Pow128(k)) < Pow128(k + 1)
    ensures k < 9 ==> GroupsFrom(s, k + 1, value + Shifted(s[k], Pow128(k)))
    ensures k == 9 ==> DecodeVarint(s) == Fail
  {
    hide Pow128, Groups, GroupsFrom, Shifted;
    LowByte(s[k], Pow128(k));
    GroupFits(k, value, s[k] - 0x80);
    LastGroup(s, k, value);
    if k < 9 { NextGroup(s, k, value); }
  }

  /** One turn of the varint loop: the byte at `k` ends the varint, extends it, or overruns it. */
  lemma VarintTurn(s: bytes, k: nat, value: nat)
    requires k < |s| && k < MAX_VARINT && value < Pow128(k) && GroupsFrom(s, k, value)
    ensures var next := value + Shifted(s[k], Pow128(k));
            && next < TWO_64
            && (s[k] < 0x80 ==> DecodeVarint(s) == Got(next, k + 1))
            && (s[k] >= 0x80 && k < 9 ==> next < Pow128(k + 1) && GroupsFrom(s, k + 1, next))
            && (s[k] >= 0x80 && k == 9 ==> DecodeVarint(s) == Fail)
  {
    hide Pow128, Groups, GroupsFrom, Shifted, DecodeVarint;
    if s[k] < 0x80 { VarintEnds(s, k, value); } else { VarintGoesOn(s, k, value); }
  }

  lemma VarintCut(s: bytes, k: nat, value: nat)
    requires k == |s| && k <= MAX_VARINT && GroupsFrom(s, k, value)
    ensures DecodeVarint(s) == Fail
  {
    assert s[k..] == [];
  }

  class Reader {
    const data: bytes
    var pos: nat
    var ok: bool

    ghost predicate Valid()
      reads this
    {
      pos <= |data|
    }

    /** What is still to be read. */
    ghost function Rest(): bytes
      reads this
      requires Valid()
    {
      data[pos..]
    }

    constructor (data: bytes)
      ensures Valid() && ok && Rest() == data && this.data == data && pos == 0
    {
      this.data, pos, ok := data, 0, true;
    }

    predicate AtEnd()
      reads this
    {
      pos >= |data|
    }

    /** Whether `count` bytes are left; if not, the reader has failed for good. */
    method Require(count: nat) returns (got: bool)
      requires Valid()
      modifies this`ok
      ensures got == (old(ok) && count <= |Rest()|)
      ensures ok == got
    {
      if !ok {
        return false;
      }
      if |data| - pos < count {
        ok := false;
        return false;
      }
      return true;
    }

    method ReadVarint() returns (got: bool, value: uint64)
      requires Valid()
      modifies this`pos, this`ok
      ensures Valid() && pos >= old(pos) && Rest() == old(Rest())[pos - old(pos)..]
      ensures got == ok == (old(ok) && DecodeVarint(old(Rest())).Got?)
      ensures got ==> DecodeVarint(old(Rest())) == Got(value, pos - old(pos))
    {
      hide Shifted, GroupsFrom, DecodeVarint;
      value := 0;
      if !ok {
        return false, 0;
      }
      ghost var s := Rest();
      ghost var start := pos;
      var k, scale := 0, 1;
      GroupsStart(s);
      while k < MAX_VARINT
        invariant Valid() && ok
        invariant k <= MAX_VARINT && k <= |s| && pos == start + k
        invariant scale == Pow128(k)
        invariant if k < MAX_VARINT then value < Pow128(k) && GroupsFrom(s, k, value) else DecodeVarint(s) == Fail
      {
        var more := Require(1);
        if !more {
          VarintCut(s, k, value);
          return false, 0;
        }
        var b := data[pos];
        assert b == s[k];
        pos := pos + 1;
        VarintTurn(s, k, value);
        value := value + Shifted(b, scale);
        if b < 0x80 {
          return true, value;
        }
        scale := 0x80 * scale;
        k := k + 1;
      }
      ok := false;
      return false, 0;
    }

    method ReadTag() returns (got: bool, field: uint32, wire: nat)
      requires Valid()
      modifies this`pos, this`ok
      ensures Valid() && pos >= old(pos) && Rest() == old(Rest())[pos - old(pos)..]
      ensures got == ok == (old(ok) && DecodeTag(old(Rest())).Got?)
      ensures got ==> DecodeTag(old(Rest())) == Got(Tag(field, wire), pos - old(pos))
    {
      var tag;
      got, tag := ReadVarint();
      if !got {
        return false, 0, 0;
      }
      field, wire := (tag / 8) % TWO_32, tag % 8;
      if field == 0 || wire > 5 {
        ok := false;
        return false, 0, 0;
      }
    }

    method ReadInt32() returns (got: bool, value: int32)
      requires Valid()
      modifies this`pos, this`ok
      ensures Valid() && pos >= old(pos) && Rest() == old(Rest())[pos - old(pos)..]
      ensures got == ok == (old(ok) && DecodePayload(VARINT, old(Rest())).Got?)
      ensures got ==> DecodePayload(VARINT, old(Rest())).size == pos - old(pos)
                      && value == Truncate(DecodePayload(VARINT, old(Rest())).value.n)
    {
      var raw;
      got, raw := ReadVarint();
      value := Truncate(raw);
    }

    method ReadUInt32() returns (got: bool, value: uint32)
      requires Valid()
      modifies this`pos, this`ok
      ensures Valid() && pos >= old(pos) && Rest() == old(Rest())[pos - old(pos)..]
      ensures got == ok == (old(ok) && DecodePayload(VARINT, old(Rest())).Got?)
      ensures got ==> DecodePayload(VARINT, old(Rest())).size == pos - old(pos)
                      && value == DecodePayload(VARINT, old(Rest())).value.n % TWO_32
    {
      var raw;
      got, raw := ReadVarint();
      value := raw % TWO_32;
    }

    method ReadBool() returns (got: bool, value: bool)
      requires Valid()
      modifies this`pos, this`ok
      ensures Valid() && pos >= old(pos) && Rest() == old(Rest())[pos - old(pos)..]
      ensures got == ok == (old(ok) && DecodePayload(VARINT, old(Rest())).Got?)
      ensures got ==> DecodePayload(VARINT, old(Rest())).size == pos - old(pos)
                      && value == (DecodePayload(VARINT, old(Rest())).value.n != 0)
    {
      var raw;
      got, raw := ReadVarint();
      value := raw != 0;
    }

    /** A string or a nested message: a length, then that many bytes. */
    method ReadMessage() returns (got: bool, body: bytes)
      requires Valid()
      modifies this`pos, this`ok
      ensures Valid() && pos >= old(pos) && Rest() == old(Rest())[pos - old(pos)..]
      ensures got == ok == (old(ok) && DecodePayload(LENGTH_DELIMITED, old(Rest())).Got?)
      ensures got ==> DecodePayload(LENGTH_DELIMITED, old(Rest())) == Got(Body(body), pos - old(pos))
    {
      var length;
      got, length := ReadVarint();
      if !got {
        return false, [];
      }
      if length > |data| - pos {
        ok := false;
        return false, [];
      }
      assert data[pos..pos + length] == old(Rest())[pos - old(pos)..pos - old(pos) + length];
      body := data[pos..pos + length];
      pos := pos + length;
    }

    /** Steps over a field without looking at what it holds. */
    method SkipField(wire: nat) returns (got: bool)
      requires Valid()
      modifies this`pos, this`ok
      ensures Valid() && pos >= old(pos) && Rest() == old(Rest())[pos - old(pos)..]
      ensures got == ok == (old(ok) && DecodePayload(wire, old(Rest())).Got?)
      ensures got ==> DecodePayload(wire, old(Rest())).size == pos - old(pos)
    {
      if wire == VARINT {
        var ignored;
        got, ignored := ReadVarint();
      } else if wire == FIXED64 {
        got := Require(8);
        if got {
          pos := pos + 8;
        }
      } else if wire == LENGTH_DELIMITED {
        var ignored;
        got, ignored := ReadMessage();
      } else if wire == FIXED32 {
        got := Require(4);
        if got {
          pos := pos + 4;
        }
      } else {
        ok := false;
        got := false;
      }
    }
  }
}
