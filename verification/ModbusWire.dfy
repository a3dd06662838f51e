/** The Modbus register types on the wire, in figures: widths, ranges, signs, and the two values of a coil. */
module ModbusWire {
  import opened Bytes
  import opened Decimal
  import opened GoRuntime
  import opened BitPacking
  import opened ModbusRegister

  /** Bytes of a value; none for a type that the source does not know. */
  function ByteWidth(dt: DataType): nat {
    match dt
    case Int16 | UInt16 => 2
    case Int32 | UInt32 | Float => 4
    case Int64 | UInt64 | Double => 8
    case OtherDataType(_) => 0
  }

  /** The integers of a type. */
  predicate Range(dt: DataType, i: int) {
    match dt
    case Int16 => -32768 <= i <= 32767
    case UInt16 => 0 <= i <= 65535
    case Int32 => -2147483648 <= i <= 2147483647
    case UInt32 => 0 <= i <= 4294967295
    case Int64 => -9223372036854775808 <= i <= 9223372036854775807
    case UInt64 => 0 <= i <= 18446744073709551615
    case _ => false
  }

  /** The integer that some bytes stand for: in two's complement for the types that have negative values. */
  function Stored(dt: DataType, d: seq<byte>): int
    requires d != []
  {
    var word := FromBigEndian(d);
    match dt
    case Int16 => if d[0] >= 128 then word - 65536 else word
    case Int32 => if d[0] >= 128 then word - 4294967296 else word
    case Int64 => if d[0] >= 128 then word - 18446744073709551616 else word
    case _ => word
  }

  /** A value in the steps of a register. */
  function InSteps(r: Register, value: real): int {
    Trunc(Times(value, Power(r.scaling)))
  }

  predicate WordRegister(r: Register) {
    (r.registerType == Input || r.registerType == Holding) && r.scaling >= 0
  }

  predicate SixIntegers(dt: DataType) {
    dt == Int16 || dt == UInt16 || dt == Int32 || dt == UInt32 || dt == Int64 || dt == UInt64
  }

  /** A value fits a register exactly if its whole steps lie in the type's interval. */
  lemma FitsInFigures(r: Register, value: real)
    requires SixIntegers(r.dataType)
    ensures Fits(r, value) <==> Range(r.dataType, InSteps(r, value))
  {
    RangesInFigures(InSteps(r, value));
  }

  /** A value that fits travels as its whole number of steps, in as many bytes as the type has. */
  lemma EncodedInFigures(p: Platform, r: Register, value: real)
    requires WordRegister(r) && Range(r.dataType, InSteps(r, value))
    ensures Encode(p, r, value).Ok? && |Encode(p, r, value).value| == ByteWidth(r.dataType)
    ensures Stored(r.dataType, Encode(p, r, value).value) == InSteps(r, value)
  {
    hide BigEndian, FromBigEndian, Words, Power, Trunc;
    var d := Encode(p, r, value).value;
    var i, m := InSteps(r, value), Words(ByteWidth(r.dataType));
    var signed := r.dataType == Int16 || r.dataType == Int32 || r.dataType == Int64;
    RangesInFigures(i);
    WordsInFigures();
    assert InRange(signed, i, m) && d == BigEndian(ToWord(signed, i, m), ByteWidth(r.dataType));
    WordRoundTrip(ToWord(signed, i, m), ByteWidth(r.dataType));
    IntegerRoundTrip(signed, i, m);
    SignBit(signed, d);
  }

  /**
   * Bytes are read as the integer they stand for, in steps of the register: negative exactly if the type has negative
   * values and the first bit is set. Fewer bytes than the type has are an error, more are left alone.
   */
  lemma DecodedInFigures(p: Platform, r: Register, data: seq<byte>)
    requires WordRegister(r) && SixIntegers(r.dataType)
    ensures |data| < ByteWidth(r.dataType) ==> Decode(p, r, data) == Err
    ensures |data| >= ByteWidth(r.dataType) ==>
              var i := Stored(r.dataType, data[..ByteWidth(r.dataType)]);
              && Decode(p, r, data) == Ok(Times(i as real, Power(-r.scaling)))
              && (i < 0 <==> (r.dataType == Int16 || r.dataType == Int32 || r.dataType == Int64) && data[0] >= 128)
              && (Decode(p, r, data).value < 0.0 <==> i < 0)
  {
    WordsInFigures();
    if |data| >= ByteWidth(r.dataType) {
      var d := data[..ByteWidth(r.dataType)];
      SignBit(true, d);
      SignBit(false, d);
      SignKept(Stored(r.dataType, d), Power(-r.scaling));
    }
  }

  lemma SignKept(i: int, u: real)
    requires u > 0.0
    ensures Times(i as real, u) < 0.0 <==> i < 0
  {
    if i < 0 {
      TimesLt(i as real, 0.0, u);
    } else {
      TimesLe(0.0, i as real, u);
    }
  }

  /** Floating-point registers are not scaled; a value that survives its bit pattern survives the wire. */
  lemma FloatsUnscaled(p: Platform, r: Register, value: real)
    requires r.registerType == Input || r.registerType == Holding
    requires r.dataType == Float || r.dataType == Double
    requires r.dataType == Float ==> p.float32Bits(value) < 4294967296 && p.float32Value(p.float32Bits(value)) == value
    requires r.dataType == Double ==>
               p.float64Bits(value) < 18446744073709551616 && p.float64Value(p.float64Bits(value)) == value
    ensures Encode(p, r, value).Ok? && |Encode(p, r, value).value| == ByteWidth(r.dataType)
    ensures Decode(p, r, Encode(p, r, value).value) == Ok(value)
  {
    WordsInFigures();
    var w := if r.dataType == Float then p.float32Bits(value) else p.float64Bits(value);
    var d := BigEndian(w, ByteWidth(r.dataType));
    WordRoundTrip(w, ByteWidth(r.dataType));
    assert d[..ByteWidth(r.dataType)] == d;
  }

  /** A coil is sent as FF 00 or 00 00, and read from the lowest bit of the first byte. */
  lemma CoilInFigures(p: Platform, r: Register, value: real, data: seq<byte>)
    requires r.registerType == Coil || r.registerType == Discrete
    ensures Encode(p, r, value) == Ok(if value == 0.0 then [0x00, 0x00] else [0xFF, 0x00])
    ensures data != [] ==> Decode(p, r, data) == Ok(if data[0] % 2 == 1 then 1.0 else 0.0)
    ensures data == [] ==> Decode(p, r, data) == Panic
  {
    if data != [] {
      assert Unpack(data)[0] == UnpackedBit(data, 0) == ShiftRight(data[0], 0) % 2;
    }
  }

  /** The eight bits of a byte as coils, least significant first. */
  lemma BitsInFigures(data: seq<byte>, k: nat)
    requires k < |data|
    ensures Unpack(data)[8 * k..8 * k + 8]
         == [data[k] % 2, data[k] / 2 % 2, data[k] / 4 % 2, data[k] / 8 % 2,
             data[k] / 16 % 2, data[k] / 32 % 2, data[k] / 64 % 2, data[k] / 128 % 2]
  {
    var d, bits := data[k], Unpack(data)[8 * k..8 * k + 8];
    forall j: nat | j < 8
      ensures bits[j] == ShiftRight(d, j) % 2
    {
      assert bits[j] == UnpackedBit(data, 8 * k + j);
    }
    assert ShiftRight(d, 1) == d / 2 && ShiftRight(d, 2) == d / 4 && ShiftRight(d, 3) == d / 8;
    assert ShiftRight(d, 4) == d / 16 && ShiftRight(d, 5) == d / 32 && ShiftRight(d, 6) == d / 64;
    assert ShiftRight(d, 7) == d / 128;
  }
}
