/**
 The wire format of the deserializer: schemas in place of Go's reflected types, the decoder as a function of the
 bytes, and the reference encoder it is measured against.
 */
module Serde {
  import opened GoTypes
  import opened SourceBuffers

  type Width = w: int | w == 1 || w == 2 || w == 4 || w == 8 witness 1

  datatype Schema =
    | Int(width: Width, signed: bool)
    | Bool
    | String
    | BigInt
    | Struct(fields: seq<Schema>)
    | Unsupported

  datatype Value =
    | IntV(i: int)
    | BoolV(b: bool)
    | StringV(bytes: Bytes)
    | BigV(n: nat)
    | StructV(fields: seq<Value>)

  /** Success with the bytes used, or the "empty buffer" error with the position it reports. */
  datatype Decoded<+T> = Done(value: T, used: nat) | Failed(used: nat)

  /** The two's complement conversion of an unsigned value of the given width. */
  function Converted(u: nat, width: Width, signed: bool): int {
    if signed && 2 * u >= Pow256(width) then u - Pow256(width) else u
  }

  // ---------- decoding, as a function ----------

  /** Four bytes of length and that many bytes of payload. */
  function ReadVar(b: Bytes): Decoded<Bytes> {
    if |b| < 4 || 4 + BigEndian(b[..4]) > |b| then Failed(|b|)
    else Done(b[4..4 + BigEndian(b[..4])], 4 + BigEndian(b[..4]))
  }

  function ReadPrimitive(schema: Schema, b: Bytes): (r: Decoded<Value>)
    requires !schema.Struct?
    ensures r.used <= |b|
  {
    match schema
    case Int(width, signed) =>
      if |b| < width then Failed(|b|) else Done(IntV(Converted(BigEndian(b[..width]), width, signed)), width)
    case Bool =>
      if |b| == 0 then Failed(0) else if b[0] > 1 then Failed(1) else Done(BoolV(b[0] == 1), 1)
    case String =>
      (match ReadVar(b)
       case Done(payload, used) => Done(StringV(payload), used)
       case Failed(used) => Failed(used))
    case BigInt =>
      (match ReadVar(b)
       case Done(payload, used) => Done(BigV(BigEndian(payload)), used)
       case Failed(used) => Failed(used))
    case Unsupported => Failed(0)
  }

  /** One field: a nested struct reads a slice of its own, and its error position is relative to that slice. */
  function ReadField(schema: Schema, b: Bytes, off: nat): (r: Decoded<Value>)
    requires off <= |b|
    ensures r.used <= |b| && (r.Done? ==> off <= r.used)
    decreases schema
  {
    if schema.Struct? then
      match ReadFields(schema.fields, b[off..], 0)
      case Done(vs, used) => Done(StructV(vs), off + used)
      case Failed(used) => Failed(used)
    else
      match ReadPrimitive(schema, b[off..])
      case Done(v, used) => Done(v, off + used)
      case Failed(used) => Failed(off + used)
  }

  function ReadFields(fields: seq<Schema>, b: Bytes, off: nat): (r: Decoded<seq<Value>>)
    requires off <= |b|
    ensures r.used <= |b| && (r.Done? ==> off <= r.used)
    decreases fields
  {
    if fields == [] then Done([], off)
    else
      match ReadField(fields[0], b, off)
      case Failed(used) => Failed(used)
      case Done(v, off') => Prepend([v], ReadFields(fields[1..], b, off'))
  }

  function Prepend(vs: seq<Value>, r: Decoded<seq<Value>>): Decoded<seq<Value>> {
    match r
    case Done(rest, used) => Done(vs + rest, used)
    case Failed(used) => Failed(used)
  }

  // ---------- the reference encoding ----------

  function FixedBytes(n: nat, width: nat): (b: Bytes)
    ensures |b| == width
  {
    if width == 0 then [] else FixedBytes(n / 256, width - 1) + [n % 256]
  }

  /** big.Int's Bytes: no leading zeroes. */
  function MinimalBytes(n: nat): Bytes {
    if n == 0 then [] else MinimalBytes(n / 256) + [n % 256]
  }

  function VarBytes(payload: Bytes): Bytes {
    FixedBytes(|payload|, 4) + payload
  }

  /** The two's complement representation of a value that fits the width. */
  function Unsigned(i: int, width: Width): nat {
    if 0 <= i then i else if 0 <= i + Pow256(width) then i + Pow256(width) else 0
  }

  ghost predicate WellTyped(schema: Schema, v: Value) {
    match (schema, v)
    case (Int(width, signed), IntV(i)) =>
      if signed then -(Pow256(width) as int) <= 2 * i < Pow256(width) else 0 <= i < Pow256(width)
    case (Bool, BoolV(_)) => true
    case (String, StringV(bytes)) => |bytes| < Pow256(4)
    case (BigInt, BigV(n)) => |MinimalBytes(n)| < Pow256(4)
    case (Struct(fields), StructV(vs)) => AllWellTyped(fields, vs)
    case _ => false
  }

  ghost predicate AllWellTyped(fields: seq<Schema>, vs: seq<Value>) {
    |fields| == |vs| && (fields == [] || (WellTyped(fields[0], vs[0]) && AllWellTyped(fields[1..], vs[1..])))
  }

  function Encode(schema: Schema, v: Value): Bytes {
    match (schema, v)
    case (Int(width, _), IntV(i)) => FixedBytes(Unsigned(i, width), width)
    case (Bool, BoolV(b)) => [if b then 1 else 0]
    case (String, StringV(bytes)) => VarBytes(bytes)
    case (BigInt, BigV(n)) => VarBytes(MinimalBytes(n))
    case (Struct(fields), StructV(vs)) => EncodeAll(fields, vs)
    case _ => []
  }

  function EncodeAll(fields: seq<Schema>, vs: seq<Value>): Bytes {
    if fields == [] || vs == [] then [] else Encode(fields[0], vs[0]) + EncodeAll(fields[1..], vs[1..])
  }

  // ---------- numbers ----------

  /** Taking a number apart into its last digit to base 256 and the rest. */
  lemma LastDigit(rest: nat, digit: byte)
    ensures (256 * rest + digit) / 256 == rest && (256 * rest + digit) % 256 == digit
  {
  }

  lemma {:induction false} FixedRoundTrip(n: nat, width: nat)
    requires n < Pow256(width)
    ensures BigEndian(FixedBytes(n, width)) == n
  {
    if width != 0 {
      assert n == 256 * (n / 256) + n % 256 && n / 256 < Pow256(width - 1);
      FixedRoundTrip(n / 256, width - 1);
      var b := FixedBytes(n, width);
      assert b[..|b| - 1] == FixedBytes(n / 256, width - 1);
    }
  }

  /** Only the last digits are written. */
  lemma {:induction false} FixedForgets(n: nat, q: nat, width: nat)
    ensures FixedBytes(n + q * Pow256(width), width) == FixedBytes(n, width)
  {
    if width != 0 {
      var rest, digit, p := n / 256, n % 256, Pow256(width - 1);
      assert n + q * Pow256(width) == 256 * (rest + q * p) + digit;
      LastDigit(rest + q * p, digit);
      FixedForgets(rest, q, width - 1);
    }
  }

  /** A length written in four bytes, as the conversion uint32(n) writes it, is read back modulo 2^32. */
  lemma FourBytesWrap(n: nat)
    ensures BigEndian(FixedBytes(n, 4)) == n % 0x1_0000_0000 <= n
  {
    var m, q := n % 0x1_0000_0000, n / 0x1_0000_0000;
    PowValues();
    assert n == m + q * Pow256(4);
    FixedForgets(m, q, 4);
    FixedRoundTrip(m, 4);
  }

  lemma {:induction false} FixedOfBigEndian(b: Bytes)
    ensures FixedBytes(BigEndian(b), |b|) == b
  {
    if b != [] {
      FixedOfBigEndian(b[..|b| - 1]);
      LastDigit(BigEndian(b[..|b| - 1]), b[|b| - 1]);
      assert b == b[..|b| - 1] + [b[|b| - 1]];
    }
  }

  lemma {:induction false} MinimalRoundTrip(n: nat)
    ensures BigEndian(MinimalBytes(n)) == n
  {
    if n != 0 {
      MinimalRoundTrip(n / 256);
      var b := MinimalBytes(n);
      assert b[..|b| - 1] == MinimalBytes(n / 256);
    }
  }

  predicate NoLeadingZero(b: Bytes) {
    b == [] || b[0] != 0
  }

  /** Re-encoding a number never needs more bytes, and needs exactly the same ones iff none was a leading zero. */
  lemma {:induction false} MinimalOfBigEndian(b: Bytes)
    ensures |MinimalBytes(BigEndian(b))| <= |b|
    ensures |MinimalBytes(BigEndian(b))| == |b| <==> NoLeadingZero(b)
    ensures NoLeadingZero(b) ==> MinimalBytes(BigEndian(b)) == b
    ensures BigEndian(b) == 0 && NoLeadingZero(b) ==> b == []
  {
    if b != [] {
      var init := b[..|b| - 1];
      MinimalOfBigEndian(init);
      assert b == init + [b[|b| - 1]];
      assert init != [] ==> init[0] == b[0];
      if BigEndian(b) != 0 {
        assert MinimalBytes(BigEndian(b)) == MinimalBytes(BigEndian(init)) + [b[|b| - 1]];
      }
    }
  }

  /** A number's first byte counts the most. */
  lemma {:induction false} FirstByteLeads(first: byte, rest: Bytes)
    ensures BigEndian([first] + rest) == first as int * Pow256(|rest|) + BigEndian(rest)
  {
    var b := [first] + rest;
    if rest == [] {
      assert b[..0] == [];
    } else {
      var init := rest[..|rest| - 1];
      assert b[..|b| - 1] == [first] + init;
      FirstByteLeads(first, init);
    }
  }

  /** The int16 -2, the bool true, the string "A" and the big integer 256 on the wire. */
  lemma EncodedExamples()
    ensures Encode(Int(2, true), IntV(-2)) == [255, 254] && Encode(Bool, BoolV(true)) == [1]
    ensures Encode(String, StringV([65])) == [0, 0, 0, 1, 65]
    ensures Encode(BigInt, BigV(256)) == [0, 0, 0, 2, 1, 0]
  {
    FourBytes(1);
    FourBytes(2);
    TwoBytes(254);
    BigExample();
    assert VarBytes([65]) == [0, 0, 0, 1] + [65] && VarBytes([1, 0]) == [0, 0, 0, 2] + [1, 0];
  }

  lemma TwoBytes(n: byte)
    ensures FixedBytes(0xff00 + n as int, 2) == [255, n] && Unsigned(-2, 2) == 0xff00 + 254
  {
    LastDigit(255, n);
    assert FixedBytes(255, 1) == [255];
    PowValues();
  }

  lemma BigExample()
    ensures MinimalBytes(256) == [1, 0]
  {
    assert MinimalBytes(1) == [1];
  }

  /** The fields are written one after the other, in their order; a nested struct is its fields. */
  lemma {:induction false} FieldsInOrder(fields: seq<Schema>, vs: seq<Value>, k: nat)
    requires k <= |fields| == |vs|
    ensures EncodeAll(fields, vs) == EncodeAll(fields[..k], vs[..k]) + EncodeAll(fields[k..], vs[k..])
    decreases k
  {
    if k == 0 {
      assert fields[0..] == fields && vs[0..] == vs;
    } else {
      FieldsInOrder(fields[1..], vs[1..], k - 1);
      assert fields[1..][..k - 1] == fields[..k][1..] && vs[1..][..k - 1] == vs[..k][1..];
      assert fields[1..][k - 1..] == fields[k..] && vs[1..][k - 1..] == vs[k..];
    }
  }

  lemma EncodeFirst(fields: seq<Schema>, vs: seq<Value>)
    requires fields != [] && vs != []
    ensures EncodeAll(fields, vs) == Encode(fields[0], vs[0]) + EncodeAll(fields[1..], vs[1..])
    ensures Encode(Struct(fields), StructV(vs)) == EncodeAll(fields, vs)
  {
  }

  lemma FourBytes(n: byte)
    ensures FixedBytes(n, 4) == [0, 0, 0, n]
  {
    assert FixedBytes(0, 3) == [0, 0, 0];
  }

  // ---------- decoding undoes encoding ----------

  lemma VarRoundTrip(payload: Bytes, tail: Bytes)
    requires |payload| < Pow256(4)
    ensures ReadVar(VarBytes(payload) + tail) == Done(payload, |VarBytes(payload)|)
  {
    var b := VarBytes(payload) + tail;
    FixedRoundTrip(|payload|, 4);
    assert b[..4] == FixedBytes(|payload|, 4);
  }

  lemma IntRoundTrip(width: Width, signed: bool, i: int, tail: Bytes)
    requires WellTyped(Int(width, signed), IntV(i))
    ensures var b := FixedBytes(Unsigned(i, width), width);
      ReadPrimitive(Int(width, signed), b + tail) == Done(IntV(i), width)
  {
    var b := FixedBytes(Unsigned(i, width), width);
    FixedRoundTrip(Unsigned(i, width), width);
    assert (b + tail)[..width] == b;
  }

  lemma BigRoundTrip(n: nat, tail: Bytes)
    requires |MinimalBytes(n)| < Pow256(4)
    ensures var b := VarBytes(MinimalBytes(n)); ReadPrimitive(BigInt, b + tail) == Done(BigV(n), |b|)
  {
    VarRoundTrip(MinimalBytes(n), tail);
    MinimalRoundTrip(n);
  }

  lemma PrimitiveRoundTrip(schema: Schema, v: Value, tail: Bytes)
    requires !schema.Struct? && WellTyped(schema, v)
    ensures ReadPrimitive(schema, Encode(schema, v) + tail) == Done(v, |Encode(schema, v)|)
  {
    match (schema, v) {
      case (Int(width, signed), IntV(i)) =>
        IntRoundTrip(width, signed, i, tail);
      case (Bool, BoolV(_)) =>
      case (String, StringV(bytes)) =>
        VarRoundTrip(bytes, tail);
      case (BigInt, BigV(n)) =>
        BigRoundTrip(n, tail);
    }
  }

  lemma {:induction false} FieldRoundTrip(schema: Schema, v: Value, b: Bytes, off: nat, tail: Bytes)
    requires off <= |b| && WellTyped(schema, v) && b[off..] == Encode(schema, v) + tail
    ensures ReadField(schema, b, off) == Done(v, off + |Encode(schema, v)|)
    decreases schema
  {
    if schema.Struct? {
      FieldsRoundTrip(schema.fields, v.fields, b[off..], 0, tail);
    } else {
      PrimitiveRoundTrip(schema, v, tail);
    }
  }

  lemma ReadFirst(fields: seq<Schema>, vs: seq<Value>, b: Bytes, off: nat, off': nat, end: nat)
    requires fields != [] && vs != [] && off <= off' <= |b|
    requires ReadField(fields[0], b, off) == Done(vs[0], off') && ReadFields(fields[1..], b, off') == Done(vs[1..], end)
    ensures ReadFields(fields, b, off) == Done(vs, end)
  {
    assert vs == [vs[0]] + vs[1..];
  }

  lemma SkipFirst(b: Bytes, off: nat, first: Bytes, rest: Bytes, tail: Bytes)
    requires off <= |b| && b[off..] == first + rest + tail
    ensures b[off..] == first + (rest + tail) && off + |first| <= |b| && b[off + |first|..] == rest + tail
  {
    assert b[off + |first|..] == b[off..][|first|..];
  }

  /**
   For every schema, decoding the reference encoding of a value, followed by anything, returns the value and reports
   exactly the length of the encoding.
   */
  lemma {:induction false} FieldsRoundTrip(fields: seq<Schema>, vs: seq<Value>, b: Bytes, off: nat, tail: Bytes)
    requires off <= |b| && AllWellTyped(fields, vs) && b[off..] == EncodeAll(fields, vs) + tail
    ensures ReadFields(fields, b, off) == Done(vs, off + |EncodeAll(fields, vs)|)
    decreases fields
  {
    if fields != [] {
      var first, rest := Encode(fields[0], vs[0]), EncodeAll(fields[1..], vs[1..]);
      SkipFirst(b, off, first, rest, tail);
      FieldRoundTrip(fields[0], vs[0], b, off, rest + tail);
      var off' := off + |first|;
      FieldsRoundTrip(fields[1..], vs[1..], b, off', tail);
      ReadFirst(fields, vs, b, off, off', off' + |rest|);
    }
  }

  // ---------- encoding undoes decoding ----------

  ghost predicate CanonicalPrimitive(schema: Schema, b: Bytes) {
    schema.BigInt? && ReadVar(b).Done? ==> NoLeadingZero(ReadVar(b).value)
  }

  /** No big integer read from the field carries a leading zero. */
  ghost predicate CanonicalField(schema: Schema, b: Bytes, off: nat)
    requires off <= |b|
    decreases schema
  {
    if schema.Struct? then CanonicalFields(schema.fields, b[off..], 0) else CanonicalPrimitive(schema, b[off..])
  }

  ghost predicate CanonicalFields(fields: seq<Schema>, b: Bytes, off: nat)
    requires off <= |b|
    decreases fields
  {
    fields == [] ||
    (&& CanonicalField(fields[0], b, off)
     && (ReadField(fields[0], b, off).Done? ==> CanonicalFields(fields[1..], b, ReadField(fields[0], b, off).used)))
  }

  /** The encoding of a decoded value is no longer than what was read, and the same bytes iff the input is canonical. */
  ghost predicate Reencodes(encoding: Bytes, read: Bytes, canonical: bool) {
    && |encoding| <= |read|
    && (|encoding| == |read| <==> canonical)
    && (canonical ==> encoding == read)
  }

  lemma VarReencodes(b: Bytes)
    requires ReadVar(b).Done?
    ensures VarBytes(ReadVar(b).value) == b[..ReadVar(b).used] && |ReadVar(b).value| < Pow256(4)
  {
    FixedOfBigEndian(b[..4]);
    BigEndianBound(b[..4]);
    PowValues();
  }

  /** What is read from the bytes, if anything, is well typed and re-encodes. */
  ghost predicate PrimitiveReencodes(schema: Schema, b: Bytes)
    requires !schema.Struct?
  {
    var r := ReadPrimitive(schema, b);
    r.Done? ==>
      WellTyped(schema, r.value) && Reencodes(Encode(schema, r.value), b[..r.used], CanonicalPrimitive(schema, b))
  }

  lemma IntReencodes(width: Width, signed: bool, b: Bytes)
    ensures PrimitiveReencodes(Int(width, signed), b)
  {
    if |b| >= width {
      FixedOfBigEndian(b[..width]);
      BigEndianBound(b[..width]);
    }
  }

  lemma BoolReencodes(b: Bytes)
    ensures PrimitiveReencodes(Bool, b)
  {
    if |b| > 0 { assert b[..1] == [b[0]]; }
  }

  lemma StringReencodes(b: Bytes)
    ensures PrimitiveReencodes(String, b)
  {
    if ReadVar(b).Done? { VarReencodes(b); }
  }

  lemma BigReencodes(b: Bytes)
    ensures PrimitiveReencodes(BigInt, b)
  {
    if ReadVar(b).Done? {
      VarReencodes(b);
      MinimalOfBigEndian(ReadVar(b).value);
    }
  }

  lemma EveryPrimitiveReencodes(schema: Schema, b: Bytes)
    requires !schema.Struct?
    ensures PrimitiveReencodes(schema, b)
  {
    match schema {
      case Int(width, signed) => IntReencodes(width, signed, b);
      case Bool => BoolReencodes(b);
      case String => StringReencodes(b);
      case BigInt => BigReencodes(b);
      case Unsupported =>
    }
  }

  lemma ReencodesConcat(e1: Bytes, r1: Bytes, c1: bool, e2: Bytes, r2: Bytes, c2: bool)
    requires Reencodes(e1, r1, c1) && Reencodes(e2, r2, c2)
    ensures Reencodes(e1 + e2, r1 + r2, c1 && c2)
  {
  }

  lemma SliceOfRest(b: Bytes, off: nat, used: nat)
    requires off + used <= |b|
    ensures b[off..off + used] == b[off..][..used]
  {
  }

  lemma PrimitiveFieldReencodes(schema: Schema, b: Bytes, off: nat, v: Value, used: nat)
    requires !schema.Struct? && off + used <= |b| && ReadPrimitive(schema, b[off..]) == Done(v, used)
    requires WellTyped(schema, v)
    requires Reencodes(Encode(schema, v), b[off..][..used], CanonicalPrimitive(schema, b[off..]))
    ensures ReadField(schema, b, off) == Done(v, off + used) && WellTyped(schema, v)
    ensures Reencodes(Encode(schema, v), b[off..off + used], CanonicalField(schema, b, off))
  {
    SliceOfRest(b, off, used);
  }

  lemma StructFieldReencodes(fields: seq<Schema>, b: Bytes, off: nat, vs: seq<Value>, used: nat)
    requires off <= |b| && ReadFields(fields, b[off..], 0) == Done(vs, used) && AllWellTyped(fields, vs)
    requires Reencodes(EncodeAll(fields, vs), b[off..][0..used], CanonicalFields(fields, b[off..], 0))
    ensures ReadField(Struct(fields), b, off) == Done(StructV(vs), off + used)
    ensures WellTyped(Struct(fields), StructV(vs))
    ensures
      Reencodes(Encode(Struct(fields), StructV(vs)), b[off..off + used], CanonicalField(Struct(fields), b, off))
  {
    assert b[off..off + used] == b[off..][0..used];
  }

  lemma {:induction false} FieldReencodes(schema: Schema, b: Bytes, off: nat)
    requires off <= |b| && ReadField(schema, b, off).Done?
    ensures var r := ReadField(schema, b, off);
      WellTyped(schema, r.value) && Reencodes(Encode(schema, r.value), b[off..r.used], CanonicalField(schema, b, off))
    decreases schema
  {
    if schema.Struct? {
      var r := ReadFields(schema.fields, b[off..], 0);
      FieldsReencode(schema.fields, b[off..], 0);
      StructFieldReencodes(schema.fields, b, off, r.value, r.used);
    } else {
      var r := ReadPrimitive(schema, b[off..]);
      EveryPrimitiveReencodes(schema, b[off..]);
      PrimitiveFieldReencodes(schema, b, off, r.value, r.used);
    }
  }

  /**
   Whatever the bytes, a successful decode yields a well-typed value; encoding it gives back exactly the consumed
   bytes if and only if no big integer among them has a leading zero, and otherwise something shorter.
   */
  lemma {:induction false} FieldsReencode(fields: seq<Schema>, b: Bytes, off: nat)
    requires off <= |b| && ReadFields(fields, b, off).Done?
    ensures var r := ReadFields(fields, b, off);
      && AllWellTyped(fields, r.value)
      && Reencodes(EncodeAll(fields, r.value), b[off..r.used], CanonicalFields(fields, b, off))
    decreases fields
  {
    if fields != [] {
      FieldReencodes(fields[0], b, off);
      var first := ReadField(fields[0], b, off);
      FieldsReencode(fields[1..], b, first.used);
      var rest := ReadFields(fields[1..], b, first.used);
      var vs := [first.value] + rest.value;
      assert vs[1..] == rest.value;
      assert b[off..rest.used] == b[off..first.used] + b[first.used..rest.used];
      ReencodesConcat(Encode(fields[0], first.value), b[off..first.used], CanonicalField(fields[0], b, off),
                      EncodeAll(fields[1..], rest.value), b[first.used..rest.used],
                      CanonicalFields(fields[1..], b, first.used));
    }
  }

  ghost predicate WithoutBigInt(schema: Schema) {
    match schema
    case BigInt => false
    case Struct(fields) => forall i :: 0 <= i < |fields| ==> WithoutBigInt(fields[i])
    case _ => true
  }

  lemma {:induction false} CanonicalWithoutBigInt(fields: seq<Schema>, b: Bytes, off: nat)
    requires off <= |b| && forall i :: 0 <= i < |fields| ==> WithoutBigInt(fields[i])
    ensures CanonicalFields(fields, b, off)
    decreases fields
  {
    if fields != [] {
      if fields[0].Struct? {
        CanonicalWithoutBigInt(fields[0].fields, b[off..], 0);
      }
      var first := ReadField(fields[0], b, off);
      if first.Done? {
        CanonicalWithoutBigInt(fields[1..], b, first.used);
      }
    }
  }

  /** On a schema without big integers the decoder inverts the encoder on everything it accepts. */
  lemma DecodeThenEncode(fields: seq<Schema>, b: Bytes)
    requires ReadFields(fields, b, 0).Done? && forall i :: 0 <= i < |fields| ==> WithoutBigInt(fields[i])
    ensures EncodeAll(fields, ReadFields(fields, b, 0).value) == b[..ReadFields(fields, b, 0).used]
  {
    FieldsReencode(fields, b, 0);
    CanonicalWithoutBigInt(fields, b, 0);
  }
}
