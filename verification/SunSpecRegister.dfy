/** SunSpec points as registers: their types, widths, scaling and encoding. */
module SunSpecRegister {
  import opened Bytes
  import opened Decimal
  import opened GoRuntime
  import opened MessageBus

  datatype DataType =
    | Acc16 | Bitfield16 | Enum16 | Int16 | Pad | Sunssf | UInt16
    | Acc32 | Bitfield32 | Enum32 | Float32 | Int32 | UInt32
    | Acc64
    | String8 | String16
    | OtherDataType(name: string)

  datatype Register = Register(
    dataType: DataType, name: string, model: int, count: int, scaling: real,
    tag: string, scaleRegister: string, internalValue: real, internalString: string)

  /** Width in 16-bit words; 0 for the types the source does not know. */
  function Width(dt: DataType): nat {
    match dt
    case Acc16 | Bitfield16 | Enum16 | Int16 | Pad | Sunssf | UInt16 => 1
    case Acc32 | Bitfield32 | Enum32 | Float32 | Int32 | UInt32 => 2
    case Acc64 => 4
    case String8 => 8
    case String16 => 16
    case OtherDataType(_) => 0
  }

  predicate IsString(dt: DataType) {
    dt.String8? || dt.String16?
  }

  predicate Integer(dt: DataType) {
    !IsString(dt) && !dt.Float32? && !dt.OtherDataType?
  }

  predicate Signed(dt: DataType) {
    dt.Int16? || dt.Int32? || dt.Pad? || dt.Sunssf?
  }

  /** The types whose values are scaled on the wire. */
  predicate Scaled(dt: DataType) {
    dt.Acc16? || dt.UInt16? || dt.Acc32? || dt.UInt32? || dt.Acc64? || dt.Int16? || dt.Int32?
  }

  function Init(r: Register): Result<Register> {
    if r.dataType.OtherDataType? then Err
    else Ok(r.(count := Width(r.dataType), scaling := Abs(r.scaling)))
  }

  predicate Initialised(r: Register) {
    r.count == Width(r.dataType) >= 1 && r.scaling >= 0.0
  }

  /** A scaling of zero falls back to the register's own. */
  function Exponent(r: Register, scaling: real): real {
    if scaling == 0.0 then r.scaling else scaling
  }

  /** Steps of the wire format per unit of the value. */
  function StepsPerUnit(p: Platform, r: Register, scaling: real): real {
    if Scaled(r.dataType) then p.pow10(-Exponent(r, scaling)) else 1.0
  }

  /** The size of one step. */
  function StepSize(p: Platform, r: Register, scaling: real): real {
    if Scaled(r.dataType) then p.pow10(Exponent(r, scaling)) else 1.0
  }

  /** Go's copy into a zeroed buffer of n bytes. */
  function Padded(d: seq<byte>, n: nat): (b: seq<byte>)
    ensures |b| == n
  {
    if |d| >= n then d[..n] else d + seq(n - |d|, (_: nat) => 0)
  }

  /** The bytes of a value; None means no tag value, so that the register's own content is used. */
  function Encode(p: Platform, r: Register, value: Option<real>, scaling: real): Result<seq<byte>> {
    if IsString(r.dataType) then
      if value.Some? then Panic else Ok(Padded(p.utf8(r.internalString), 2 * Width(r.dataType)))
    else
      var v := if value.Some? then value.value else r.internalValue;
      if Integer(r.dataType) then
        var x := if Scaled(r.dataType) then Times(v, p.pow10(-Exponent(r, scaling))) else v;
        Ok(p.PutInt(Signed(r.dataType), 2 * Width(r.dataType), x))
      else if r.dataType.Float32? then Ok(BigEndian(p.float32Bits(v), 4))
      else Err
  }

  /** The value of some bytes; strings have none, and too few bytes are an error. */
  function Decode(p: Platform, r: Register, data: seq<byte>, scaling: real): Result<real> {
    var n := 2 * Width(r.dataType);
    if IsString(r.dataType) || r.dataType.OtherDataType? || |data| < n then Err
    else if r.dataType.Float32? then Ok(p.float32Value(FromBigEndian(data[..n])))
    else
      var i := GetInt(Signed(r.dataType), data[..n]) as real;
      Ok(if Scaled(r.dataType) then Times(i, p.pow10(Exponent(r, scaling))) else i)
  }

  predicate Fits(p: Platform, r: Register, value: real, scaling: real) {
    InRange(Signed(r.dataType), Trunc(Times(value, StepsPerUnit(p, r, scaling))), Words(2 * Width(r.dataType)))
  }

  lemma InitChecks(r: Register)
    ensures Init(r).Ok? <==> !r.dataType.OtherDataType?
    ensures Init(r).Ok? ==> Initialised(Init(r).value)
    ensures Init(r) == Init(r.(scaling := -r.scaling))
  {
  }

  /** A register without a tag value, or of a type that is not a string, always encodes to two bytes a word. */
  lemma EncodedLength(p: Platform, r: Register, value: Option<real>, scaling: real)
    requires Initialised(r)
    ensures Encode(p, r, value, scaling).Ok? <==> !(IsString(r.dataType) && value.Some?)
    ensures Encode(p, r, value, scaling).Ok? ==> |Encode(p, r, value, scaling).value| == 2 * r.count
  {
  }

  lemma StepOf(p: Platform, r: Register, scaling: real)
    requires p.ExactPowers()
    ensures Step(StepsPerUnit(p, r, scaling), StepSize(p, r, scaling))
  {
    TimesOne(1.0);
    assert p.Reciprocal(Exponent(r, scaling));
  }

  lemma EncodeInteger(p: Platform, r: Register, value: real, scaling: real)
    requires Initialised(r) && Integer(r.dataType)
    ensures Encode(p, r, Some(value), scaling)
         == Ok(p.PutInt(Signed(r.dataType), 2 * r.count, Times(value, StepsPerUnit(p, r, scaling))))
  {
    TimesOne(value);
  }

  lemma DecodeInteger(p: Platform, r: Register, data: seq<byte>, scaling: real)
    requires Initialised(r) && Integer(r.dataType) && |data| == 2 * r.count
    ensures Decode(p, r, data, scaling) == Ok(Times(GetInt(Signed(r.dataType), data) as real, StepSize(p, r, scaling)))
  {
    assert data[..2 * Width(r.dataType)] == data;
    TimesOne(GetInt(Signed(r.dataType), data) as real);
  }

  /** Every pattern of bytes is the encoding of the value it decodes to, for every integer type and scaling. */
  lemma EncodeDecoded(p: Platform, r: Register, data: seq<byte>, scaling: real)
    requires p.ExactPowers() && Initialised(r) && Integer(r.dataType) && |data| == 2 * r.count
    ensures Decode(p, r, data, scaling).Ok?
    ensures Encode(p, r, Some(Decode(p, r, data, scaling).value), scaling) == Ok(data)
  {
    StepOf(p, r, scaling);
    DecodeInteger(p, r, data, scaling);
    EncodeInteger(p, r, Decode(p, r, data, scaling).value, scaling);
    PutAfterGet(p, Signed(r.dataType), data, StepsPerUnit(p, r, scaling), StepSize(p, r, scaling));
  }

  /**
   * Read back within one step, towards zero, exactly when the value fits the type; unchanged exactly on whole steps.
   */
  lemma ReadBack(p: Platform, r: Register, value: real, scaling: real)
    requires p.ExactPowers() && Initialised(r) && Integer(r.dataType)
    ensures Encode(p, r, Some(value), scaling).Ok?
    ensures Decode(p, r, Encode(p, r, Some(value), scaling).value, scaling).Ok?
    ensures var back := Decode(p, r, Encode(p, r, Some(value), scaling).value, scaling).value;
            && (Fits(p, r, value, scaling) <==> Abs(value - back) < StepSize(p, r, scaling))
            && (Fits(p, r, value, scaling) ==> Between(back, value))
            && (Fits(p, r, value, scaling) ==> (back == value <==> Whole(Times(value, StepsPerUnit(p, r, scaling)))))
  {
    StepOf(p, r, scaling);
    EncodeInteger(p, r, value, scaling);
    DecodeInteger(p, r, Encode(p, r, Some(value), scaling).value, scaling);
    IntegerReadBack(p, Signed(r.dataType), 2 * r.count, value, StepsPerUnit(p, r, scaling), StepSize(p, r, scaling));
  }
}
