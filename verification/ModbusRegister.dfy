/** The Modbus register codec: types, widths, decimal scaling, and what survives the wire. */
module ModbusRegister {
  import opened Bytes
  import opened Decimal
  import opened GoRuntime
  import opened BitPacking

  datatype RegisterType = Coil | Discrete | Input | Holding | OtherType(name: string)

  datatype DataType =
    | Int16 | UInt16 | Int32 | UInt32 | Int64 | UInt64 | Float | Double
    | OtherDataType(name: string)

  datatype Register = Register(
    registerType: RegisterType, dataType: DataType, addr: int, count: int, scaling: int, tag: string)

  const ON := [0xFF, 0x00]
  const OFF := [0x00, 0x00]

  predicate Integer(dt: DataType) {
    dt.Int16? || dt.UInt16? || dt.Int32? || dt.UInt32? || dt.Int64? || dt.UInt64?
  }

  predicate Signed(dt: DataType) {
    dt.Int16? || dt.Int32? || dt.Int64?
  }

  /** Width in 16-bit words; 0 for the types the source does not know. */
  function Width(dt: DataType): nat {
    match dt
    case Int16 | UInt16 => 1
    case Int32 | UInt32 | Float => 2
    case Int64 | UInt64 | Double => 4
    case OtherDataType(_) => 0
  }

  predicate WordBased(t: RegisterType) {
    t.Input? || t.Holding?
  }

  /** Validates a register and fills in its count; negative scalings are accepted as their absolute value. */
  function Init(r: Register): Result<Register> {
    if r.registerType.OtherType? then Err
    else if WordBased(r.registerType) && r.dataType.OtherDataType? then Err
    else
      var count := if r.dataType.OtherDataType? then r.count else Width(r.dataType);
      Ok(r.(count := count, scaling := if r.scaling < 0 then -r.scaling else r.scaling))
  }

  /** What Init guarantees of an input or holding register. */
  predicate Initialised(r: Register) {
    && WordBased(r.registerType)
    && r.count == Width(r.dataType) >= 1
    && r.scaling >= 0
  }

  function Encode(p: Platform, r: Register, value: real): Result<seq<byte>> {
    match r.registerType
    case Coil | Discrete => Ok(if value == 0.0 then OFF else ON)
    case Input | Holding =>
      if Integer(r.dataType) then
        Ok(p.PutInt(Signed(r.dataType), 2 * Width(r.dataType), Times(value, Power(r.scaling))))
      else if r.dataType.Float? then
        Ok(BigEndian(p.float32Bits(value), 4))
      else if r.dataType.Double? then
        Ok(BigEndian(p.float64Bits(value), 8))
      else Err
    case OtherType(_) => Err
  }

  /** Reads as many bytes as the data type needs; fewer are an error. */
  function Decode(p: Platform, r: Register, data: seq<byte>): Result<real> {
    match r.registerType
    case Coil | Discrete => if data == [] then Panic else Ok(Unpack(data)[0] as real)
    case Input | Holding =>
      var n := 2 * Width(r.dataType);
      if n == 0 || |data| < n then Err
      else if Integer(r.dataType) then
        Ok(Times(GetInt(Signed(r.dataType), data[..n]) as real, Power(-r.scaling)))
      else if r.dataType.Float? then
        Ok(p.float32Value(FromBigEndian(data[..n])))
      else
        Ok(p.float64Value(FromBigEndian(data[..n])))
    case OtherType(_) => Err
  }

  /** A register whose values travel as scaled integers. */
  predicate IntegerRegister(r: Register) {
    Initialised(r) && Integer(r.dataType)
  }

  /** The range of values that the register's type can hold at its scaling. */
  predicate Fits(r: Register, value: real) {
    InRange(Signed(r.dataType), Trunc(Times(value, Power(r.scaling))), Words(2 * Width(r.dataType)))
  }

  // ---- what Init establishes ----

  /**
   * Every accepted input or holding register is at least one word wide; the others are rejected for their types only.
   */
  lemma InitChecks(r: Register)
    ensures WordBased(r.registerType) ==> (Init(r).Ok? <==> !r.dataType.OtherDataType?)
    ensures WordBased(r.registerType) && Init(r).Ok? ==> Initialised(Init(r).value)
    ensures Init(r).Ok? ==>
              0 <= Init(r).value.scaling && (r.scaling == Init(r).value.scaling || r.scaling == -Init(r).value.scaling)
  {
  }

  /** Configuring scaling k or -k gives the same register. */
  lemma ScalingSign(r: Register)
    ensures Init(r) == Init(r.(scaling := -r.scaling))
  {
  }

  lemma EncodedLength(p: Platform, r: Register, value: real)
    requires Initialised(r)
    ensures Encode(p, r, value).Ok? && |Encode(p, r, value).value| == 2 * r.count
  {
  }

  // ---- round trips of the integer types ----

  lemma EncodeInteger(p: Platform, r: Register, value: real)
    requires IntegerRegister(r)
    ensures Encode(p, r, value) == Ok(p.PutInt(Signed(r.dataType), 2 * r.count, Times(value, Power(r.scaling))))
  {
  }

  lemma DecodeInteger(p: Platform, r: Register, data: seq<byte>)
    requires IntegerRegister(r) && |data| == 2 * r.count
    ensures Decode(p, r, data) == Ok(Times(GetInt(Signed(r.dataType), data) as real, Power(-r.scaling)))
  {
    assert data[..2 * Width(r.dataType)] == data;
  }

  /** Every pattern of bytes is the encoding of the value it decodes to, whatever the type and scaling. */
  lemma EncodeDecoded(p: Platform, r: Register, data: seq<byte>)
    requires IntegerRegister(r) && |data| == 2 * r.count
    ensures Decode(p, r, data).Ok?
    ensures Encode(p, r, Decode(p, r, data).value) == Ok(data)
  {
    PowerStep(r.scaling);
    DecodeInteger(p, r, data);
    EncodeInteger(p, r, Decode(p, r, data).value);
    PutAfterGet(p, Signed(r.dataType), data, Power(r.scaling), Power(-r.scaling));
  }

  /**
   * The value read back is within one step of the value written, on the side of zero, exactly when
   * the value fits the type: no platform's treatment of an overflow can bring it closer.
   * It is the value itself exactly when that is a whole number of steps.
   */
  lemma ReadBack(p: Platform, r: Register, value: real)
    requires IntegerRegister(r)
    ensures Encode(p, r, value).Ok? && Decode(p, r, Encode(p, r, value).value).Ok?
    ensures var back := Decode(p, r, Encode(p, r, value).value).value; var k := Power(r.scaling);
            var u := Power(-r.scaling);
            && (Fits(r, value) <==> Abs(value - back) < u)
            && (Fits(r, value) ==> back == Quantised(value, k, u) && Between(back, value))
            && (Fits(r, value) ==> (back == value <==> Whole(Times(value, k))))
  {
    PowerStep(r.scaling);
    EncodeInteger(p, r, value);
    DecodeInteger(p, r, Encode(p, r, value).value);
    IntegerReadBack(p, Signed(r.dataType), 2 * r.count, value, Power(r.scaling), Power(-r.scaling));
  }

  /** A coil written with the encoding of any value reads back as 1 for every non-zero value. */
  lemma CoilReadBack(p: Platform, r: Register, value: real)
    requires r.registerType.Coil? || r.registerType.Discrete?
    ensures Decode(p, r, Encode(p, r, value).value) == Ok(if value == 0.0 then 0.0 else 1.0)
  {
    assert Unpack(ON)[0] == UnpackedBit(ON, 0) == 1;
    assert Unpack(OFF)[0] == UnpackedBit(OFF, 0) == 0;
  }
}
