/** The deserializer itself: a loop over the fields that advances a cursor and recurses into nested structs. */
module Deserializers {
  import opened GoTypes
  import opened SourceBuffers
  import opened Serde

  datatype Error = EmptyBuffer | InvalidType | TypeMismatch

  method NextInteger(width: Width, buffer: SourceBuffer) returns (u: Option<nat>)
    requires buffer.Valid()
    modifies buffer
    ensures buffer.Valid()
    ensures var rest := old(buffer.OffBytes());
      if |rest| < width then u == None && buffer.off == |buffer.s|
      else u == Some(BigEndian(rest[..width])) && buffer.off == old(buffer.off) + width
  {
    ghost var rest := buffer.OffBytes();
    if width == 1 {
      var data, eof := buffer.NextByte();
      assert !eof ==> rest[..1] == [rest[0]];
      u := if eof then None else Some(data);
    } else {
      var data, eof := buffer.NextUint(width);
      assert !eof ==> rest[..width] == buffer.s[old(buffer.off)..buffer.off];
      u := if eof then None else Some(data);
    }
  }

  lemma SliceOfSuffix(s: Bytes, off: nat, i: nat, j: nat)
    requires i <= j && off + j <= |s|
    ensures s[off..][i..j] == s[off + i..off + j]
  {
  }

  method NextPayload(buffer: SourceBuffer) returns (payload: Option<Bytes>)
    requires buffer.Valid()
    modifies buffer
    ensures buffer.Valid()
    ensures match ReadVar(old(buffer.OffBytes()))
      case Done(value, used) => payload == Some(value) && buffer.off == old(buffer.off) + used
      case Failed(used) => payload == None && buffer.off == old(buffer.off) + used
  {
    ghost var rest := buffer.OffBytes();
    var data, eof := buffer.NextVarBytes();
    if |rest| >= 4 {
      SliceOfSuffix(buffer.s, old(buffer.off), 0, 4);
      if !eof { SliceOfSuffix(buffer.s, old(buffer.off), 4, 4 + BigEndian(rest[..4])); }
    }
    payload := if eof then None else Some(data);
  }

  /** getNextValueFromBuffer for everything but nested structs. */
  method NextPrimitive(schema: Schema, buffer: SourceBuffer) returns (v: Option<Value>)
    requires buffer.Valid() && !schema.Struct?
    modifies buffer
    ensures buffer.Valid()
    ensures match ReadPrimitive(schema, old(buffer.OffBytes()))
      case Done(value, used) => v == Some(value) && buffer.off == old(buffer.off) + used
      case Failed(used) => v == None && buffer.off == old(buffer.off) + used
  {
    match schema {
      case Int(width, signed) =>
        var u := NextInteger(width, buffer);
        v := if u.None? then None else Some(IntV(Converted(u.value, width, signed)));
      case Bool =>
        var b, eof := buffer.NextBool();
        v := if eof then None else Some(BoolV(b));
      case String =>
        var payload := NextPayload(buffer);
        v := if payload.None? then None else Some(StringV(payload.value));
      case BigInt =>
        var payload := NextPayload(buffer);
        v := if payload.None? then None else Some(BigV(BigEndian(payload.value)));
      case Unsupported =>
        v := None;
    }
  }

  /** One turn of the field loop: what is decoded so far moves the next field over. */
  lemma TakeField(fields: seq<Schema>, i: nat, b: Bytes, off: nat, done: seq<Value>)
    requires i < |fields| && off <= |b|
    ensures Prepend(done, ReadFields(fields[i..], b, off)) ==
      match ReadField(fields[i], b, off)
      case Failed(used) => Failed(used)
      case Done(v, off') => Prepend(done + [v], ReadFields(fields[i + 1..], b, off'))
  {
    assert fields[i..][1..] == fields[i + 1..];
    match ReadField(fields[i], b, off) {
      case Failed(_) =>
      case Done(v, off') =>
        match ReadFields(fields[i + 1..], b, off') {
          case Failed(_) =>
          case Done(rest, _) => assert done + ([v] + rest) == done + [v] + rest;
        }
    }
  }

  /** One turn of the loop: a nested struct is read from a slice of its own, which is then skipped. */
  method SetField(schema: Schema, buffer: SourceBuffer) returns (v: Option<Value>, used: nat)
    requires buffer.Valid()
    modifies buffer
    ensures buffer.Valid()
    ensures match ReadField(schema, buffer.s, old(buffer.off))
      case Done(value, end) => v == Some(value) && used == end == buffer.off
      case Failed(end) => v == None && used == end
    decreases schema, 2
  {
    if schema.Struct? {
      var nested, nestedUsed := CreateStruct(schema, buffer.OffBytes());
      if nested.Err? {
        return None, nestedUsed;
      }
      var _ := buffer.Skip(nestedUsed);
      return Some(nested.value), buffer.off;
    }
    v := NextPrimitive(schema, buffer);
    used := buffer.off;
  }

  /** setFields: the loop over the fields of one struct. */
  method SetFields(fields: seq<Schema>, buffer: SourceBuffer) returns (vs: Option<seq<Value>>, used: nat)
    requires buffer.Valid()
    modifies buffer
    ensures buffer.Valid()
    ensures match ReadFields(fields, buffer.s, old(buffer.off))
      case Done(values, end) => vs == Some(values) && used == end == buffer.off
      case Failed(end) => vs == None && used == end
    decreases fields, 0
  {
    var done: seq<Value> := [];
    var i := 0;
    assert fields[0..] == fields && forall vs: seq<Value> :: [] + vs == vs;
    while i < |fields|
      invariant 0 <= i <= |fields| && buffer.Valid()
      invariant ReadFields(fields, buffer.s, old(buffer.off)) ==
                Prepend(done, ReadFields(fields[i..], buffer.s, buffer.off))
    {
      TakeField(fields, i, buffer.s, buffer.off, done);
      var v, end := SetField(fields[i], buffer);
      if v.None? {
        return None, end;
      }
      done := done + [v.value];
      i := i + 1;
    }
    assert done + [] == done;
    return Some(done), buffer.off;
  }

  /** CreateStruct: a fresh buffer, and the bytes used whether or not it succeeds. */
  method CreateStruct(schema: Schema, buff: Bytes) returns (r: Result<Value, Error>, used: nat)
    requires |buff| < TWO_63
    ensures !schema.Struct? ==> r == Err(InvalidType) && used == 0
    ensures schema.Struct? ==>
      match ReadFields(schema.fields, buff, 0)
      case Done(values, end) => r == Ok(StructV(values)) && used == end
      case Failed(end) => r == Err(EmptyBuffer) && used == end
    decreases schema, 1
  {
    if !schema.Struct? {
      return Err(InvalidType), 0;
    }
    var buffer := new SourceBuffer(buff);
    var vs;
    vs, used := SetFields(schema.fields, buffer);
    r := if vs.Some? then Ok(StructV(vs.value)) else Err(EmptyBuffer);
  }

  /** A bare string or big integer gets its length, as a uint32, put in front; trailing bytes are ignored. */
  function PrimitiveInput(schema: Schema, buff: Bytes): Bytes {
    if schema.String? || schema.BigInt? then FixedBytes(|buff|, 4) + buff else buff
  }

  /** What is read back of a length and the bytes themselves: those within the length modulo 2^32. */
  lemma BareInput(buff: Bytes)
    ensures var n := |buff| % 0x1_0000_0000; ReadVar(FixedBytes(|buff|, 4) + buff) == Done(buff[..n], 4 + n)
  {
    FourBytesWrap(|buff|);
    ReadVarAt(FixedBytes(|buff|, 4), buff, |buff| % 0x1_0000_0000);
  }

  lemma ReadVarAt(length: Bytes, buff: Bytes, n: nat)
    requires |length| == 4 && BigEndian(length) == n <= |buff|
    ensures ReadVar(length + buff) == Done(buff[..n], 4 + n)
  {
    var b := length + buff;
    assert b[..4] == length && b[4..4 + n] == buff[..n];
  }

  /**
   A bare string or big integer is made of the given bytes, all of them where there are fewer than 2^32; a bare integer
   or bool is read from the first bytes as they stand.
   */
  method CreatePrimitiveDataType(schema: Schema, buff: Bytes) returns (r: Result<Value, Error>)
    requires |buff| + 4 < TWO_63
    ensures schema.Struct? ==> r == Err(TypeMismatch)
    ensures !schema.Struct? ==>
      match ReadPrimitive(schema, PrimitiveInput(schema, buff))
      case Done(v, _) => r == Ok(v)
      case Failed(_) => r == Err(EmptyBuffer)
    ensures match schema
      case String => r == Ok(StringV(buff[..|buff| % 0x1_0000_0000]))
      case BigInt => r == Ok(BigV(BigEndian(buff[..|buff| % 0x1_0000_0000])))
      case Bool => r == if |buff| == 0 || buff[0] > 1 then Err(EmptyBuffer) else Ok(BoolV(buff[0] == 1))
      case Int(width, signed) =>
        if |buff| < width then r == Err(EmptyBuffer)
        else
          var u := BigEndian(buff[..width]);
          r == Ok(IntV(if signed && 2 * u >= Pow256(width) then u - Pow256(width) else u))
      case Struct(_) => r == Err(TypeMismatch)
      case Unsupported => r == Err(EmptyBuffer)
  {
    if schema.Struct? {
      return Err(TypeMismatch);
    }
    if schema.String? || schema.BigInt? { BareInput(buff); }
    var buffer := new SourceBuffer(PrimitiveInput(schema, buff));
    assert buffer.OffBytes() == PrimitiveInput(schema, buff);
    var v := NextPrimitive(schema, buffer);
    r := if v.None? then Err(EmptyBuffer) else Ok(v.value);
  }

  /** A bare string is read back whole exactly when its length fits the uint32 put in front of it. */
  lemma BareStringIsWhole(buff: Bytes)
    ensures ReadPrimitive(String, PrimitiveInput(String, buff)) == Done(StringV(buff), |buff| + 4) <==>
            |buff| < 0x1_0000_0000
  {
    var b := PrimitiveInput(String, buff);
    PowValues();
    if |buff| < 0x1_0000_0000 {
      VarRoundTrip(buff, []);
      assert b == VarBytes(buff) + [];
    } else {
      BigEndianBound(b[..4]);
    }
  }
}
