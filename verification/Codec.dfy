/** `src/macros.rs`: components of any schema of fixed-size fields, encoded big-endian at running
    offsets. */
module Codec {
  import opened Collections

  type Byte = b: int | 0 <= b < 256

  datatype FieldType = I32 | U32 | I64 | U64 | I128 | U128 | U8 | Bool | Bytes32

  datatype FieldValue = Number(n: int) | Flag(b: bool) | Raw(bytes: seq<Byte>)

  function Size(f: FieldType): nat {
    match f
    case I32 => 4
    case U32 => 4
    case I64 => 8
    case U64 => 8
    case I128 => 16
    case U128 => 16
    case U8 => 1
    case Bool => 1
    case Bytes32 => 32
  }

  predicate Signed(f: FieldType) {
    f in {I32, I64, I128}
  }

  // ----- big-endian numbers -----

  function Pow256(w: nat): (p: nat)
    ensures p > 0
  {
    if w == 0 then 1 else 256 * Pow256(w - 1)
  }

  function BigEndian(n: nat, w: nat): (bs: seq<Byte>)
    ensures |bs| == w
  {
    if w == 0 then [] else BigEndian(n / 256, w - 1) + [n % 256]
  }

  function FromBigEndian(bs: seq<Byte>): nat {
    if bs == [] then 0 else 256 * FromBigEndian(bs[..|bs| - 1]) + bs[|bs| - 1]
  }

  lemma {:induction false} NumberRoundTrip(n: nat, w: nat)
    requires n < Pow256(w)
    ensures FromBigEndian(BigEndian(n, w)) == n
  {
    if w > 0 {
      NumberRoundTrip(n / 256, w - 1);
      assert BigEndian(n, w)[..w - 1] == BigEndian(n / 256, w - 1);
    }
  }

  lemma {:induction false} BytesRoundTrip(bs: seq<Byte>)
    ensures FromBigEndian(bs) < Pow256(|bs|)
    ensures BigEndian(FromBigEndian(bs), |bs|) == bs
  {
    if bs != [] {
      var front, last := bs[..|bs| - 1], bs[|bs| - 1];
      BytesRoundTrip(front);
      var n := FromBigEndian(bs);
      assert n / 256 == FromBigEndian(front) && n % 256 == last;
      assert bs == front + [last];
    }
  }

  lemma DivDiv(n: nat, p: nat)
    requires p > 0
    ensures n / 256 / p == n / (256 * p)
  {
    var q, r := n / 256, n % 256;
    var a, b := q / p, q % p;
    assert n == 256 * q + r && q == p * a + b;
    assert n == 256 * (p * a + b) + r == (256 * p) * a + (256 * b + r);
    assert 0 <= 256 * b + r < 256 * p;
    DivUnique(n, 256 * p, a, 256 * b + r);
  }

  lemma AtLeast(p: int, q: int, least: int)
    requires p >= 0 && q >= least
    ensures p * q >= p * least
  {
    assert p * (q - least) >= 0;
  }

  lemma DivUnique(n: int, d: int, q: int, r: int)
    requires d > 0 && 0 <= r < d && n == d * q + r
    ensures n / d == q
  {
    var k := n / d - q;
    assert n == d * (n / d) + n % d;
    assert d * k == r - n % d by {
      assert d * k == d * (n / d) - d * q;
    }
    if k >= 1 {
      AtLeast(d, k, 1);
    } else if k <= -1 {
      AtLeast(d, -k, 1);
    }
  }

  /** The bytes are the digits in base 256, the most significant first. */
  lemma {:induction false} BigEndianDigit(n: nat, w: nat, i: nat)
    requires i < w
    ensures BigEndian(n, w)[i] == n / Pow256(w - 1 - i) % 256
  {
    if i < w - 1 {
      BigEndianDigit(n / 256, w - 1, i);
      DivDiv(n, Pow256(w - 2 - i));
    }
  }

  // ----- two's complement -----

  /** Half the range of `w` bytes. */
  function Half(w: nat): int {
    Pow256(w) / 2
  }

  function Unsigned(n: int, w: nat): int {
    if n < 0 then n + Pow256(w) else n
  }

  function SignedOf(n: nat, w: nat): int {
    if n >= Half(w) then n - Pow256(w) else n
  }

  lemma RangeHalves(w: nat)
    requires w > 0
    ensures Pow256(w) == 256 * Pow256(w - 1) && Half(w) == 128 * Pow256(w - 1)
  {
  }

  lemma SignedRange(n: nat, w: nat)
    requires w > 0 && n < Pow256(w)
    ensures -Half(w) <= SignedOf(n, w) < Half(w)
  {
    RangeHalves(w);
  }

  // ----- fields -----

  /** A value its field can hold. */
  predicate Fits(f: FieldType, v: FieldValue) {
    match f
    case Bool => v.Flag?
    case Bytes32 => v.Raw? && |v.bytes| == 32
    case _ =>
      && v.Number?
      && if Signed(f) then -Half(Size(f)) <= v.n < Half(Size(f)) else 0 <= v.n < Pow256(Size(f))
  }

  function Encode(f: FieldType, v: FieldValue): (bs: seq<Byte>)
    requires Fits(f, v)
    ensures |bs| == Size(f)
  {
    match f
    case Bool => [if v.b then 1 else 0]
    case Bytes32 => v.bytes
    case _ => BigEndian(Unsigned(v.n, Size(f)), Size(f))
  }

  function Decode(f: FieldType, bs: seq<Byte>): (v: FieldValue)
    requires |bs| == Size(f)
    ensures Fits(f, v)
  {
    match f
    case Bool => Flag(bs[0] != 0)
    case Bytes32 => Raw(bs)
    case _ =>
      BytesRoundTrip(bs);
      var n := FromBigEndian(bs);
      SignedRange(n, Size(f));
      Number(if Signed(f) then SignedOf(n, Size(f)) else n)
  }

  lemma FieldRoundTrip(f: FieldType, v: FieldValue)
    requires Fits(f, v)
    ensures Decode(f, Encode(f, v)) == v
  {
    if v.Number? {
      NumberRoundTrip(Unsigned(v.n, Size(f)), Size(f));
    }
  }

  lemma LeadingDigit(n: nat, p: nat)
    requires p > 0 && n < 256 * p
    ensures n / p < 256 && (n / p >= 128 <==> n >= 128 * p)
  {
    var q, r := n / p, n % p;
    assert n == p * q + r;
    if q >= 256 {
      AtLeast(p, q, 256);
    } else if q >= 128 {
      AtLeast(p, q, 128);
    } else {
      AtLeast(p, 127 - q, 0);
    }
  }

  lemma {:induction false} LeadingByte(n: nat, w: nat)
    requires w > 0 && n < Pow256(w)
    ensures BigEndian(n, w)[0] == n / Pow256(w - 1)
  {
    if w > 1 {
      assert n / 256 < Pow256(w - 1);
      LeadingByte(n / 256, w - 1);
      DivDiv(n, Pow256(w - 2));
    }
  }

  lemma SignOfBytes(n: int, w: nat)
    requires w > 0 && -Half(w) <= n < Half(w)
    ensures Unsigned(n, w) >= 0
    ensures BigEndian(Unsigned(n, w), w)[0] >= 128 <==> n < 0
  {
    RangeHalves(w);
    LeadingByte(Unsigned(n, w), w);
    LeadingDigit(Unsigned(n, w), Pow256(w - 1));
  }

  /** The first bit of a signed field is its sign, and the encoded number is the value modulo the
      range of the field. */
  lemma SignBit(f: FieldType, v: FieldValue)
    requires Fits(f, v) && Signed(f)
    ensures Encode(f, v)[0] >= 128 <==> v.n < 0
    ensures FromBigEndian(Encode(f, v)) == if v.n < 0 then v.n + Pow256(Size(f)) else v.n
  {
    SignOfBytes(v.n, Size(f));
    NumberRoundTrip(Unsigned(v.n, Size(f)), Size(f));
  }

  /** Only the byte of a bool can be lost: any but 0 reads as true, which is written as 1. */
  lemma FieldBytesRoundTrip(f: FieldType, bs: seq<Byte>)
    requires |bs| == Size(f)
    ensures Encode(f, Decode(f, bs)) == bs <==> (f == Bool ==> bs[0] <= 1)
  {
    if f != Bool && f != Bytes32 {
      BytesRoundTrip(bs);
    }
  }

  // ----- the field types, in numbers -----

  lemma Powers()
    ensures Pow256(1) == 0x100 && Pow256(2) == 0x1_0000 && Pow256(4) == 0x1_0000_0000
    ensures Pow256(8) == 0x1_0000_0000_0000_0000
    ensures Pow256(16) == 0x1_0000_0000_0000_0000_0000_0000_0000_0000
  {
    assert Pow256(0) == 1 && Pow256(1) == 256 * Pow256(0) && Pow256(2) == 256 * Pow256(1);
    assert Pow256(3) == 256 * Pow256(2) && Pow256(4) == 256 * Pow256(3);
    assert Pow256(5) == 256 * Pow256(4) && Pow256(6) == 256 * Pow256(5);
    assert Pow256(7) == 256 * Pow256(6) && Pow256(8) == 256 * Pow256(7);
    assert Pow256(9) == 256 * Pow256(8) && Pow256(10) == 256 * Pow256(9);
    assert Pow256(11) == 256 * Pow256(10) && Pow256(12) == 256 * Pow256(11);
    assert Pow256(13) == 256 * Pow256(12) && Pow256(14) == 256 * Pow256(13);
    assert Pow256(15) == 256 * Pow256(14) && Pow256(16) == 256 * Pow256(15);
  }

  /** The values each field type holds are those of the integer type it is named after. */
  lemma FieldRanges(n: int, b: bool, bytes: seq<Byte>)
    ensures Fits(I32, Number(n)) <==> -0x8000_0000 <= n < 0x8000_0000
    ensures Fits(U32, Number(n)) <==> 0 <= n < 0x1_0000_0000
    ensures Fits(I64, Number(n)) <==> -0x8000_0000_0000_0000 <= n < 0x8000_0000_0000_0000
    ensures Fits(U64, Number(n)) <==> 0 <= n < 0x1_0000_0000_0000_0000
    ensures Fits(I128, Number(n)) <==> -0x8000_0000_0000_0000_0000_0000_0000_0000 <= n
                                       && n < 0x8000_0000_0000_0000_0000_0000_0000_0000
    ensures Fits(U128, Number(n)) <==> 0 <= n < 0x1_0000_0000_0000_0000_0000_0000_0000_0000
    ensures Fits(U8, Number(n)) <==> 0 <= n < 0x100
    ensures Fits(Bool, Flag(b)) && !Fits(Bool, Number(n)) && !Fits(Bool, Raw(bytes))
    ensures Fits(Bytes32, Raw(bytes)) <==> |bytes| == 32
    ensures !Fits(Bytes32, Number(n)) && !Fits(Bytes32, Flag(b))
    ensures forall f | f !in {Bool, Bytes32} :: !Fits(f, Flag(b)) && !Fits(f, Raw(bytes))
  {
    Powers();
  }

  /** Each field type is encoded in as many bytes as the integer type has. */
  lemma EncodedLengths(f: FieldType, v: FieldValue)
    requires Fits(f, v)
    ensures |Encode(f, v)| == match f
                              case I32 => 4
                              case U32 => 4
                              case I64 => 8
                              case U64 => 8
                              case I128 => 16
                              case U128 => 16
                              case U8 => 1
                              case Bool => 1
                              case Bytes32 => 32
  {
  }

  lemma {:induction false} AllOnes(bs: seq<Byte>)
    requires forall i | 0 <= i < |bs| :: bs[i] == 255
    ensures FromBigEndian(bs) == Pow256(|bs|) - 1
  {
    if bs != [] {
      AllOnes(bs[..|bs| - 1]);
    }
  }

  /** Bytes that are all 255 are -1 in a signed field and the largest value of an unsigned one. */
  lemma AllOnesDecoded(bs: seq<Byte>)
    requires forall i | 0 <= i < |bs| :: bs[i] == 255
    ensures |bs| == 4 ==> Decode(I32, bs) == Number(-1) && Decode(U32, bs) == Number(0xFFFF_FFFF)
    ensures |bs| == 8 ==> Decode(I64, bs) == Number(-1) && Decode(U64, bs) == Number(0xFFFF_FFFF_FFFF_FFFF)
    ensures |bs| == 16 ==> Decode(I128, bs) == Number(-1)
    ensures |bs| == 16 ==> Decode(U128, bs) == Number(0xFFFF_FFFF_FFFF_FFFF_FFFF_FFFF_FFFF_FFFF)
  {
    AllOnes(bs);
    Powers();
  }

  /** A byte is a number below 256, or a bool that is true unless it is 0 and is written as 1 or 0; raw
      bytes are kept as they are. */
  lemma BytesDecoded(byte: Byte, b: bool, bs: seq<Byte>)
    ensures Decode(U8, [byte]) == Number(byte)
    ensures Decode(Bool, [byte]) == Flag(byte != 0) && Encode(Bool, Flag(b)) == [if b then 1 else 0]
    ensures |bs| == 32 ==> Decode(Bytes32, bs) == Raw(bs) && Encode(Bytes32, Raw(bs)) == bs
  {
    assert FromBigEndian([byte]) == byte by {
      assert [byte][..0] == [];
    }
  }

  /** A field is decoded as the value its encoding stands for, by weight: base 256, the most
      significant byte first, less the whole range if a signed field's first byte is 128 or more. */
  lemma DecodedValue(f: FieldType, bs: seq<Byte>)
    requires |bs| == Size(f) && f !in {Bool, Bytes32}
    ensures Decode(f, bs).Number? && bs != []
    ensures Decode(f, bs).n == FromBigEndian(bs) - (if f in {I32, I64, I128} && bs[0] >= 128 then Pow256(|bs|) else 0)
  {
    BytesRoundTrip(bs);
    LeadingByte(FromBigEndian(bs), |bs|);
    LeadingDigit(FromBigEndian(bs), Pow256(|bs| - 1));
    RangeHalves(|bs|);
  }

  // ----- components -----

  type Schema = seq<FieldType>

  function Total(schema: Schema): nat {
    if schema == [] then 0 else Total(schema[..|schema| - 1]) + Size(schema[|schema| - 1])
  }

  ghost predicate AllFit(schema: Schema, vs: seq<FieldValue>) {
    |vs| == |schema| && forall i | 0 <= i < |vs| :: Fits(schema[i], vs[i])
  }

  function EncodeAll(schema: Schema, vs: seq<FieldValue>): (bs: seq<Byte>)
    requires AllFit(schema, vs)
    ensures |bs| == Total(schema)
  {
    if schema == [] then []
    else
      var last := |schema| - 1;
      EncodeAll(schema[..last], vs[..last]) + Encode(schema[last], vs[last])
  }

  function DecodeAll(schema: Schema, bs: seq<Byte>): (vs: seq<FieldValue>)
    requires |bs| == Total(schema)
    ensures AllFit(schema, vs)
  {
    if schema == [] then []
    else
      var last := |schema| - 1;
      var offset := Total(schema[..last]);
      DecodeAll(schema[..last], bs[..offset]) + [Decode(schema[last], bs[offset..])]
  }

  /** Each field is encoded at the total size of the fields before it. */
  lemma {:induction false} FieldAt(schema: Schema, vs: seq<FieldValue>, i: nat)
    requires AllFit(schema, vs) && i < |schema|
    ensures var offset, n := Total(schema[..i]), Size(schema[i]);
            offset + n <= |EncodeAll(schema, vs)| && EncodeAll(schema, vs)[offset..offset + n]
              == Encode(schema[i], vs[i])
  {
    var last := |schema| - 1;
    var front, field := EncodeAll(schema[..last], vs[..last]), Encode(schema[last], vs[last]);
    assert EncodeAll(schema, vs) == front + field;
    if i == last {
      LaterSlice(front, field);
    } else {
      FieldAt(schema[..last], vs[..last], i);
      assert schema[..last][..i] == schema[..i] && schema[..last][i] == schema[i] && vs[..last][i] == vs[i];
      EarlierSlice(front, field, Total(schema[..i]), Total(schema[..i]) + Size(schema[i]));
    }
  }

  lemma EarlierSlice(a: seq<Byte>, b: seq<Byte>, lo: nat, hi: nat)
    requires lo <= hi <= |a|
    ensures (a + b)[lo..hi] == a[lo..hi]
  {
  }

  lemma LaterSlice(a: seq<Byte>, b: seq<Byte>)
    ensures (a + b)[|a|..|a| + |b|] == b
  {
  }

  lemma EncodeOneMore(schema: Schema, f: FieldType, vs: seq<FieldValue>, v: FieldValue)
    requires AllFit(schema, vs) && Fits(f, v)
    ensures AllFit(schema + [f], vs + [v])
    ensures EncodeAll(schema + [f], vs + [v]) == EncodeAll(schema, vs) + Encode(f, v)
  {
    assert (schema + [f])[..|schema|] == schema && (vs + [v])[..|vs|] == vs;
  }

  lemma DecodeOneMore(schema: Schema, f: FieldType, front: seq<Byte>, field: seq<Byte>)
    requires |front| == Total(schema) && |field| == Size(f)
    ensures Total(schema + [f]) == |front + field|
    ensures DecodeAll(schema + [f], front + field) == DecodeAll(schema, front) + [Decode(f, field)]
  {
    assert (schema + [f])[..|schema|] == schema;
    assert (front + field)[..|front|] == front && (front + field)[|front|..] == field;
  }

  /** Every byte of a bool field is 0 or 1. */
  predicate CanonicalBools(schema: Schema, bs: seq<Byte>)
    requires |bs| == Total(schema)
  {
    if schema == [] then true
    else
      var last := |schema| - 1;
      var offset := Total(schema[..last]);
      CanonicalBools(schema[..last], bs[..offset]) && (schema[last] == Bool ==> bs[offset] <= 1)
  }

  /** Deserializing what was serialized gives the component back, for any schema. */
  lemma {:induction false} ComponentRoundTrip(schema: Schema, vs: seq<FieldValue>)
    requires AllFit(schema, vs)
    ensures DecodeAll(schema, EncodeAll(schema, vs)) == vs
  {
    if schema != [] {
      var last := |schema| - 1;
      var front, f, frontVs, v := schema[..last], schema[last], vs[..last], vs[last];
      assert schema == front + [f] && vs == frontVs + [v];
      assert AllFit(front, frontVs) && Fits(f, v);
      ComponentRoundTrip(front, frontVs);
      FieldRoundTrip(f, v);
      EncodeOneMore(front, f, frontVs, v);
      DecodeOneMore(front, f, EncodeAll(front, frontVs), Encode(f, v));
    }
  }

  /** Serializing what was deserialized gives the same bytes exactly when all bools are 0 or 1. */
  lemma {:induction false} ComponentBytesRoundTrip(schema: Schema, bs: seq<Byte>)
    requires |bs| == Total(schema)
    ensures EncodeAll(schema, DecodeAll(schema, bs)) == bs <==> CanonicalBools(schema, bs)
  {
    if schema != [] {
      var last := |schema| - 1;
      var offset := Total(schema[..last]);
      var front, field := bs[..offset], bs[offset..];
      ComponentBytesRoundTrip(schema[..last], front);
      FieldBytesRoundTrip(schema[last], field);
      var vs := DecodeAll(schema, bs);
      assert vs[..last] == DecodeAll(schema[..last], front);
      var again := EncodeAll(schema[..last], vs[..last]);
      assert bs == front + field && again[..] == EncodeAll(schema, vs)[..offset];
      assert EncodeAll(schema, vs)[offset..] == Encode(schema[last], vs[last]);
      assert EncodeAll(schema, vs) == bs <==> again == front && Encode(schema[last], vs[last]) == field;
    }
  }

  // ----- marker components -----

  /** A component without fields is not the empty schema: it is written as the single byte 1, and
      any single byte is read as one. */
  datatype Marker = Marker

  function EncodeMarker(marker: Marker): seq<Byte> {
    [1]
  }

  function DecodeMarker(data: seq<Byte>): Option<Marker> {
    if |data| == 1 then Some(Marker) else None
  }

  /** Writing what was read gives the same data exactly when its byte is 1. */
  lemma MarkerRoundTrip(marker: Marker, data: seq<Byte>)
    ensures DecodeMarker(EncodeMarker(marker)) == Some(marker)
    ensures (DecodeMarker(data).Some? && EncodeMarker(DecodeMarker(data).value) == data) <==> data == [1]
    ensures DecodeMarker(EncodeAll([], [])) == None
  {
  }

  // ----- the generated methods -----

  function Get(data: seq<Byte>, i: nat): Option<Byte> {
    if i < |data| then Some(data[i]) else None
  }

  /** Reads bytes one at a time, failing at the end of the data. */
  method Read(data: seq<Byte>, offset: nat, n: nat) returns (bs: Option<seq<Byte>>)
    ensures bs == if n == 0 || offset + n <= |data| then Some(if n == 0 then [] else data[offset..offset + n]) else None
  {
    var arr: seq<Byte> := [];
    var i := 0;
    while i < n
      invariant i <= n && (i > 0 ==> offset + i <= |data|)
      invariant arr == if i == 0 then [] else data[offset..offset + i]
    {
      var b := Get(data, offset + i);
      if b.None? {
        return None;
      }
      arr := arr + [b.value];
      i := i + 1;
    }
    return Some(arr);
  }

  method DeserializeField(data: seq<Byte>, offset: nat, f: FieldType) returns (v: Option<FieldValue>)
    ensures v == if offset + Size(f) <= |data| then Some(Decode(f, data[offset..offset + Size(f)])) else None
  {
    var bs := Read(data, offset, Size(f));
    return if bs.Some? then Some(Decode(f, bs.value)) else None;
  }

  method Serialize(schema: Schema, vs: seq<FieldValue>) returns (bytes: seq<Byte>)
    requires AllFit(schema, vs)
    ensures bytes == EncodeAll(schema, vs) && DecodeAll(schema, bytes) == vs
  {
    bytes := [];
    for i := 0 to |schema|
      invariant bytes == EncodeAll(schema[..i], vs[..i])
    {
      assert schema[..i + 1][..i] == schema[..i] && vs[..i + 1][..i] == vs[..i];
      bytes := bytes + Encode(schema[i], vs[i]);
    }
    assert schema[..|schema|] == schema && vs[..|vs|] == vs;
    ComponentRoundTrip(schema, vs);
  }

  lemma {:induction false} TotalGrows(schema: Schema, i: nat)
    requires i <= |schema|
    ensures Total(schema[..i]) <= Total(schema)
  {
    if i < |schema| {
      TotalGrows(schema[..|schema| - 1], i);
      assert schema[..|schema| - 1][..i] == schema[..i];
    } else {
      assert schema[..i] == schema;
    }
  }

  /** Succeeds exactly on data of the schema's total length. */
  method Deserialize(schema: Schema, data: seq<Byte>) returns (component: Option<seq<FieldValue>>)
    ensures component.Some? <==> |data| == Total(schema)
    ensures component.Some? ==> AllFit(schema, component.value) && component.value == DecodeAll(schema, data)
    ensures component.Some? ==> (EncodeAll(schema, component.value) == data <==> CanonicalBools(schema, data))
  {
    var expected := 0;
    for i := 0 to |schema|
      invariant expected == Total(schema[..i])
    {
      assert schema[..i + 1][..i] == schema[..i];
      expected := expected + Size(schema[i]);
    }
    assert schema[..|schema|] == schema;
    if |data| != expected {
      return None;
    }
    component := DeserializeFields(schema, data);
    ComponentBytesRoundTrip(schema, data);
  }

  /** Field by field at running offsets; no read fails. */
  method DeserializeFields(schema: Schema, data: seq<Byte>) returns (component: Option<seq<FieldValue>>)
    requires |data| == Total(schema)
    ensures component == Some(DecodeAll(schema, data))
  {
    var offset: nat := 0;
    var vs: seq<FieldValue> := [];
    for i := 0 to |schema|
      invariant DecodedUpTo(schema, data, i, offset, vs)
    {
      DecodeNext(schema, data, i, offset, vs);
      var v := DeserializeField(data, offset, schema[i]);
      if v.None? {
        return None;
      }
      vs := vs + [v.value];
      offset := offset + Size(schema[i]);
    }
    assert schema[..|schema|] == schema && data[..|data|] == data;
    return Some(vs);
  }

  ghost predicate DecodedUpTo(schema: Schema, data: seq<Byte>, i: nat, offset: nat, vs: seq<FieldValue>)
    requires i <= |schema|
  {
    offset == Total(schema[..i]) <= |data| && vs == DecodeAll(schema[..i], data[..offset])
  }

  lemma DecodeNext(schema: Schema, data: seq<Byte>, i: nat, offset: nat, vs: seq<FieldValue>)
    requires |data| == Total(schema) && i < |schema| && DecodedUpTo(schema, data, i, offset, vs)
    ensures offset + Size(schema[i]) <= |data|
    ensures DecodedUpTo(schema, data, i + 1, offset + Size(schema[i]),
                        vs + [Decode(schema[i], data[offset..offset + Size(schema[i])])])
  {
    var f := schema[i];
    NextFits(schema, i);
    PrefixOneMore(schema, i);
    SplitAt(data, offset, Size(f));
    DecodeOneMore(schema[..i], f, data[..offset], data[offset..offset + Size(f)]);
  }

  lemma NextFits(schema: Schema, i: nat)
    requires i < |schema|
    ensures Total(schema[..i + 1]) == Total(schema[..i]) + Size(schema[i]) <= Total(schema)
  {
    PrefixOneMore(schema, i);
    TotalOneMore(schema[..i], schema[i]);
    TotalGrows(schema, i + 1);
  }

  lemma PrefixOneMore(schema: Schema, i: nat)
    requires i < |schema|
    ensures schema[..i + 1] == schema[..i] + [schema[i]]
  {
  }

  lemma SplitAt(data: seq<Byte>, offset: nat, n: nat)
    requires offset + n <= |data|
    ensures data[..offset + n] == data[..offset] + data[offset..offset + n]
  {
  }

  lemma TotalOneMore(schema: Schema, f: FieldType)
    ensures Total(schema + [f]) == Total(schema) + Size(f)
  {
    assert (schema + [f])[..|schema|] == schema;
  }
}
