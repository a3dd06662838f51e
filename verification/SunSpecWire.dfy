/** The SunSpec point types on the wire, in figures: widths, ranges, signs, which of them are scaled, and texts. */
module SunSpecWire {
  import opened Bytes
  import opened Decimal
  import opened GoRuntime
  import opened MessageBus
  import opened SunSpecRegister

  /** Bytes of a value; none for a type that the source does not know. */
  function ByteWidth(dt: DataType): nat {
    match dt
    case Acc16 | Bitfield16 | Enum16 | Int16 | Pad | Sunssf | UInt16 => 2
    case Acc32 | Bitfield32 | Enum32 | Float32 | Int32 | UInt32 => 4
    case Acc64 => 8
    case String8 => 16
    case String16 => 32
    case OtherDataType(_) => 0
  }

  /** The integers of a type. */
  predicate Range(dt: DataType, i: int) {
    match dt
    case Int16 | Pad | Sunssf => -32768 <= i <= 32767
    case Acc16 | Bitfield16 | Enum16 | UInt16 => 0 <= i <= 65535
    case Int32 => -2147483648 <= i <= 2147483647
    case Acc32 | Bitfield32 | Enum32 | UInt32 => 0 <= i <= 4294967295
    case Acc64 => 0 <= i <= 18446744073709551615
    case _ => false
  }

  predicate IntegerType(dt: DataType) {
    match dt
    case Float32 | String8 | String16 | OtherDataType(_) => false
    case _ => true
  }

  /** The integer that some bytes stand for. */
  function Stored(dt: DataType, d: seq<byte>): int
    requires d != []
  {
    var word := FromBigEndian(d);
    match dt
    case Int16 | Pad | Sunssf => if d[0] >= 128 then word - 65536 else word
    case Int32 => if d[0] >= 128 then word - 4294967296 else word
    case _ => word
  }

  /** The exponent of ten that counts: the one given, or the register's own if that is zero; none for unscaled types. */
  function Scale(r: Register, scaling: real): Option<real> {
    match r.dataType
    case Acc16 | UInt16 | Acc32 | UInt32 | Acc64 | Int16 | Int32 => Some(if scaling == 0.0 then r.scaling else scaling)
    case _ => None
  }

  /** A value in the steps of a register. */
  function InSteps(p: Platform, r: Register, value: real, scaling: real): int {
    match Scale(r, scaling)
    case Some(x) => Trunc(Times(value, p.pow10(-x)))
    case None => Trunc(value)
  }

  /** A value fits a register exactly if its whole steps lie in the type's interval. */
  lemma FitsInFigures(p: Platform, r: Register, value: real, scaling: real)
    requires IntegerType(r.dataType)
    ensures Fits(p, r, value, scaling) <==> Range(r.dataType, InSteps(p, r, value, scaling))
  {
    TimesOne(value);
    RangesInFigures(InSteps(p, r, value, scaling));
  }

  /** The content of a register counts where no tag gives it a value. */
  function Value(r: Register, value: Option<real>): real {
    match value
    case Some(v) => v
    case None => r.internalValue
  }

  /** A value that fits travels as its whole number of steps, in as many bytes as the type has. */
  lemma EncodedInFigures(p: Platform, r: Register, value: Option<real>, scaling: real)
    requires Range(r.dataType, InSteps(p, r, Value(r, value), scaling))
    ensures Encode(p, r, value, scaling).Ok? && |Encode(p, r, value, scaling).value| == ByteWidth(r.dataType)
    ensures Stored(r.dataType, Encode(p, r, value, scaling).value) == InSteps(p, r, Value(r, value), scaling)
  {
    hide BigEndian, FromBigEndian, Words, Trunc;
    var d := Encode(p, r, value, scaling).value;
    var i, m := InSteps(p, r, Value(r, value), scaling), Words(ByteWidth(r.dataType));
    var signed := r.dataType in {Int16, Pad, Sunssf, Int32};
    RangesInFigures(i);
    WordsInFigures();
    assert InRange(signed, i, m) && d == BigEndian(ToWord(signed, i, m), ByteWidth(r.dataType));
    WordRoundTrip(ToWord(signed, i, m), ByteWidth(r.dataType));
    IntegerRoundTrip(signed, i, m);
    SignBit(signed, d);
  }

  /** Bytes are read as the integer they stand for, in steps of the register; too few bytes are an error. */
  lemma DecodedInFigures(p: Platform, r: Register, data: seq<byte>, scaling: real)
    requires IntegerType(r.dataType)
    ensures |data| < ByteWidth(r.dataType) ==> Decode(p, r, data, scaling) == Err
    ensures |data| >= ByteWidth(r.dataType) ==>
              var i := Stored(r.dataType, data[..ByteWidth(r.dataType)]);
              && Decode(p, r, data, scaling)
                 == Ok(match Scale(r, scaling) case Some(x) => Times(i as real, p.pow10(x)) case None => i as real)
              && (i < 0 <==> r.dataType in {Int16, Pad, Sunssf, Int32} && data[0] >= 128)
  {
    hide FromBigEndian, Words;
    WordsInFigures();
    if |data| >= ByteWidth(r.dataType) {
      var d := data[..ByteWidth(r.dataType)];
      SignBit(true, d);
      SignBit(false, d);
    }
  }

  /** A floating-point value that survives its bit pattern survives the wire; it is not scaled. */
  lemma FloatUnscaled(p: Platform, r: Register, value: Option<real>, scaling: real)
    requires r.dataType == Float32
    requires var v := Value(r, value); p.float32Bits(v) < 4294967296 && p.float32Value(p.float32Bits(v)) == v
    ensures var e := Encode(p, r, value, scaling);
            e.Ok? && |e.value| == 4 && Decode(p, r, e.value, scaling) == Ok(Value(r, value))
  {
    WordsInFigures();
    var d := BigEndian(p.float32Bits(Value(r, value)), 4);
    WordRoundTrip(p.float32Bits(Value(r, value)), 4);
    assert d[..4] == d;
  }

  /** A text is sent from its start, cut off or filled up with zeros; with a tag value instead, the handler panics. */
  lemma TextInFigures(p: Platform, r: Register, scaling: real)
    requires r.dataType == String8 || r.dataType == String16
    ensures forall v :: Encode(p, r, Some(v), scaling) == Panic
    ensures var e, text := Encode(p, r, None, scaling), p.utf8(r.internalString);
            && e.Ok? && |e.value| == ByteWidth(r.dataType)
            && forall i :: 0 <= i < |e.value| ==> e.value[i] == if i < |text| then text[i] else 0
    ensures forall data :: Decode(p, r, data, scaling) == Err
  {
  }
}
