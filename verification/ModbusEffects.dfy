/**
 * What the Modbus server's write requests do, on every path: the answer, the tags afterwards, and the update message
 * that goes out to the other modules.
 */
module ModbusEffects {
  import opened Bytes
  import opened Decimal
  import opened GoRuntime
  import opened BitPacking
  import opened RegisterWalk
  import opened ModbusRegister
  import opened MessageBus
  import opened ModbusTables
  import opened ModbusServer
  import opened ModbusLaws
  import opened ModbusWire

  // ---- holding registers ----

  /** A point with the tag of the register at an address, and the value of that register's own bytes. */
  ghost predicate OwnBytes(p: Platform, table: Table, frame: seq<byte>, a: int, q: Point) {
    a in table && q.tag == table[a].tag
    && var begin := 5 + 2 * (a - Field0(frame)); var end := begin + 2 * table[a].count;
       5 <= begin <= end <= |frame| && Decode(p, table[a], frame[begin..end]) == Ok(q.value)
  }

  function Field0(frame: seq<byte>): nat {
    if |frame| < 4 then 0 else (frame[0] as int) * 256 + frame[1]
  }

  function Field1(frame: seq<byte>): nat {
    if |frame| < 4 then 0 else (frame[2] as int) * 256 + frame[3]
  }

  lemma FieldsInFigures(frame: seq<byte>)
    requires |frame| >= 4
    ensures Field(frame, 0) == Field0(frame) && Field(frame, 1) == Field1(frame)
  {
    PairInFigures(frame[0..2]);
    PairInFigures(frame[2..4]);
  }

  lemma {:induction false} VisitedFrom(table: Table, addr: int, stop: int)
    requires Walkable(table)
    ensures forall i :: 0 <= i < |Visited(table, addr, stop)| ==> Visited(table, addr, stop)[i] >= addr
    ensures forall a :: a in Visited(table, addr, stop) ==> a in table
    decreases stop - addr
  {
    if addr < stop && addr in table {
      VisitedFrom(table, addr + table[addr].count, stop);
    }
  }

  /** One message with what was decoded goes out exactly with a successful answer; everything decoded is kept. */
  ghost predicate Announces(e: Effect, tags: Tags, pushed: seq<seq<Point>>, points: seq<Point>) {
    && e.tags == Store(tags, points)
    && e.pushed == if e.response.Success? && points != [] then pushed + [points] else pushed
  }

  /** The answer to a write that decoded everything. */
  predicate Completed(r: Response, frame: seq<byte>, nothing: bool, pushOk: bool) {
    |frame| >= 4 && r == if nothing || pushOk then Success(frame[..4]) else Failure(SlaveDeviceFailure)
  }

  /** Why a register has no value in a frame. */
  ghost predicate NoValue(p: Platform, table: Table, frame: seq<byte>, a: int, r: Response) {
    a in table
    && var begin := 5 + 2 * (a - Field0(frame)); var end := begin + 2 * table[a].count;
       if 5 <= begin <= end <= |frame|
       then (Decode(p, table[a], frame[begin..end]) == Err && r == Failure(IllegalDataValue))
            || (Decode(p, table[a], frame[begin..end]) == Panic && r == Crash)
       else r == Crash
  }

  /**
   * Writing holding registers. The registers on the path are decoded in address order, each from its own bytes, up to
   * the first that has no value or is missing; all that was decoded is stored. If that is the whole range, it goes out
   * in one message, and the answer is the head of the request; otherwise nothing goes out.
   */
  lemma HoldingsWritten(p: Platform, registers: Registers, frame: seq<byte>, pushOk: bool, tags: Tags,
                        pushed: seq<seq<Point>>)
    returns (points: seq<Point>)
    requires WalkableTables(registers)
    ensures var e := Carried(WriteHoldings(p, registers, frame), frame, pushOk, tags, pushed);
            && Announces(e, tags, pushed, points)
            && (Holding !in registers ==> e.response == Failure(IllegalDataAddress) && points == [])
            && (Holding in registers && |frame| < 4 ==> e.response == Crash && points == [])
            && (Holding in registers && |frame| >= 4 ==>
                  var table := registers[Holding];
                  var path := Visited(table, Field0(frame), Field0(frame) + Field1(frame));
                  var lands := Lands(table, Field0(frame), Field0(frame) + Field1(frame));
                  && |points| <= |path|
                  && (forall i :: 0 <= i < |points| ==> OwnBytes(p, table, frame, path[i], points[i]))
                  && (|points| < |path| ==> NoValue(p, table, frame, path[|points|], e.response))
                  && (|points| == |path| && !lands ==> e.response == Failure(IllegalDataAddress))
                  && (|points| == |path| && lands ==> Completed(e.response, frame, points == [], pushOk)))
  {
    hide Decode, Store, Visited, Lands, Field, WriteWalk;
    points := WriteHoldings(p, registers, frame).points;
    if Holding in registers && |frame| >= 4 {
      FieldsInFigures(frame);
      var table, start := registers[Holding], Field(frame, 0);
      var stop := start + Field(frame, 1);
      WriteWalkPoints(p, table, frame, start, stop, 5);
      VisitedFrom(table, start, stop);
      var path, w := Visited(table, start, stop), WriteWalk(p, table, frame, start, stop, 5);
      forall i | 0 <= i < |points|
        ensures OwnBytes(p, table, frame, path[i], points[i])
      {
        assert PointFrom(p, table, frame, 5 - 2 * start, path[i], points[i]);
      }
      if |points| < |path| {
        assert StoppedAt(p, table, frame, 5 - 2 * start, path[|points|], w.end.response);
        assert path[|points|] >= start;
      }
    }
  }

  // ---- one register or coil ----

  /**
   * Writing a single register or coil: its two bytes are decoded as its type asks, stored, and sent out as a message
   * of their own; a register of a type that they cannot hold is refused, and nothing changes.
   */
  lemma OneWritten(p: Platform, registers: Registers, t: RegisterType, frame: seq<byte>, pushOk: bool, tags: Tags,
                   pushed: seq<seq<Point>>)
    returns (points: seq<Point>)
    ensures var e := Carried(WriteOne(p, registers, t, frame), frame, pushOk, tags, pushed);
            && Announces(e, tags, pushed, points) && |points| <= 1
            && (t !in registers ==> e.response == Failure(IllegalDataAddress) && points == [])
            && (t in registers && |frame| < 4 ==> e.response == Crash && points == [])
            && (t in registers && |frame| >= 4 && Field0(frame) !in registers[t] ==>
                  e.response == Failure(IllegalDataAddress) && points == [])
            && (t in registers && |frame| >= 4 && Field0(frame) in registers[t] ==>
                  var r := registers[t][Field0(frame)];
                  match Decode(p, r, frame[2..4])
                  case Ok(v) => points == [Point(r.tag, v)] && Completed(e.response, frame, false, pushOk)
                  case Err => points == [] && e.response == Failure(IllegalDataValue)
                  case Panic => points == [] && e.response == Crash)
  {
    hide Decode, Store, Field;
    if |frame| >= 4 { FieldsInFigures(frame); }
    points := WriteOne(p, registers, t, frame).points;
  }

  // ---- many coils ----

  /** Bit i of the data of a frame, counted from the lowest bit of its first byte. */
  function DataBit(frame: seq<byte>, i: nat): int
    requires 5 + i / 8 < |frame|
  {
    var d := frame[5 + i / 8];
    match i % 8
    case 0 => d % 2
    case 1 => d / 2 % 2
    case 2 => d / 4 % 2
    case 3 => d / 8 % 2
    case 4 => d / 16 % 2
    case 5 => d / 32 % 2
    case 6 => d / 64 % 2
    case _ => d / 128 % 2
  }

  lemma DataBits(frame: seq<byte>, i: nat)
    requires |frame| >= 5 && i < 8 * (|frame| - 5)
    ensures Unpack(frame[5..])[i] == DataBit(frame, i)
  {
    var data, k := frame[5..], i / 8;
    BitsInFigures(data, k);
    assert Unpack(data)[i] == Unpack(data)[8 * k..8 * k + 8][i % 8];
    assert data[k] == frame[5 + k];
  }

  ghost predicate OwnBit(table: Table, frame: seq<byte>, i: nat, q: Point) {
    && |frame| >= 5 && 5 + i / 8 < |frame| && Field0(frame) + i in table
    && q == Point(table[Field0(frame) + i].tag, DataBit(frame, i) as real)
  }

  /**
   * Writing coils. The addresses take one bit of the data each, in order, up to the first that is not configured or
   * beyond the data; all that was taken is stored, and goes out in one message if it is the whole range.
   */
  lemma CoilsWritten(registers: Registers, frame: seq<byte>, pushOk: bool, tags: Tags, pushed: seq<seq<Point>>)
    returns (points: seq<Point>)
    ensures var e := Carried(WriteCoils(registers, frame), frame, pushOk, tags, pushed);
            && Announces(e, tags, pushed, points)
            && (Coil !in registers ==> e.response == Failure(IllegalDataAddress) && points == [])
            && (Coil in registers && |frame| < 5 ==> e.response == Crash && points == [])
            && (Coil in registers && |frame| >= 5 ==>
                  var table, n := registers[Coil], |points|;
                  && n <= Field1(frame)
                  && (forall i: nat :: i < n ==> OwnBit(table, frame, i, points[i]))
                  && (n == Field1(frame) ==> Completed(e.response, frame, points == [], pushOk))
                  && (n < Field1(frame) && Field0(frame) + n !in table ==> e.response == Failure(IllegalDataAddress))
                  && (n < Field1(frame) && Field0(frame) + n in table ==>
                        n >= 8 * (|frame| - 5) && e.response == Crash))
  {
    hide Store, Field, BitWrite, Unpack;
    points := WriteCoils(registers, frame).points;
    if Coil in registers && |frame| >= 5 {
      FieldsInFigures(frame);
      var table, bits, start := registers[Coil], Unpack(frame[5..]), Field(frame, 0);
      var stop := start + Field(frame, 1);
      BitWritePoints(table, bits, start, stop, 0);
      BitWriteEnds(table, bits, start, stop, 0);
      var w := BitWrite(table, bits, start, stop, 0);
      forall i: nat | i < |points|
        ensures OwnBit(table, frame, i, points[i])
      {
        assert PointWritten(table, bits, w.points, start, 0, i);
        DataBits(frame, i);
      }
    }
  }

  /** Where a coil write stops short, and why. */
  lemma {:induction false} BitWriteEnds(table: Table, bits: seq<int>, addr: int, stop: int, idx: nat)
    requires addr <= stop
    ensures var w := BitWrite(table, bits, addr, stop, idx); var n := |w.points|;
            && (n == stop - addr ==> w.end == Complete)
            && (n < stop - addr ==>
                  if addr + n !in table then w.end == Refused(Failure(IllegalDataAddress))
                  else w.end == Refused(Crash) && idx + n >= |bits|)
    decreases stop - addr
  {
    if addr < stop && addr in table && idx < |bits| {
      BitWriteEnds(table, bits, addr + 1, stop, idx + 1);
    }
  }

  // ---- what a read then shows ----

  /** A read of bits is refused for a missing table or address, and otherwise packs whether each tag is non-zero. */
  lemma BitsRead(table: Table, tags: Tags, frame: seq<byte>, bits: seq<int>)
    requires |frame| >= 4 && |bits| == Field1(frame)
    requires forall i :: 0 <= i < |bits| && Field0(frame) + i in table ==>
               bits[i] == if TagValue(tags, table[Field0(frame) + i].tag) == 0.0 then 0 else 1
    ensures BitResponse(table, tags, frame)
         == if BitsConfigured(table, Field0(frame), Field0(frame) + Field1(frame))
            then Success([ByteCount(|bits|) % 256] + Pack(bits)) else Failure(IllegalDataAddress)
    ensures |frame| >= 4
  {
    hide Pack, Field, TagValue;
    FieldsInFigures(frame);
    var start, stop := Field(frame, 0), Field(frame, 0) + Field(frame, 1);
    BitWalkBits(table, tags, start, stop);
    var o := BitWalk(table, tags, start, stop);
    if o.Bits? {
      assert o.bits == bits;
    }
  }

  /** A frame of less than two fields takes every bit reader down. */
  lemma ShortRead(table: Table, tags: Tags, frame: seq<byte>)
    requires |frame| < 4
    ensures BitResponse(table, tags, frame) == Crash
  {
  }

  /** A coil written as FF 00 or 00 00 holds 1 or 0, is announced as that, and reads as that. */
  lemma CoilWritten(p: Platform, registers: Registers, frame: seq<byte>, tags: Tags, pushed: seq<seq<Point>>)
    requires Coil in registers && |frame| == 4 && Field0(frame) in registers[Coil]
    requires registers[Coil][Field0(frame)].registerType == Coil
    requires frame[2..4] == [0xFF, 0x00] || frame[2..4] == [0x00, 0x00]
    ensures var e := Carried(WriteOne(p, registers, Coil, frame), frame, true, tags, pushed);
            var r, b := registers[Coil][Field0(frame)], if frame[2] == 0xFF then 1 else 0;
            && e.response == Success(frame) && e.tags == tags[r.tag := b as real]
            && e.pushed == pushed + [[Point(r.tag, b as real)]]
            && BitResponse(registers[Coil], e.tags, frame[0..2] + [0, 1]) == Success([1, b])
  {
    hide Decode, Pack, BitResponse, WriteOne, Carried;
    var r, b := registers[Coil][Field0(frame)], if frame[2] == 0xFF then 1 else 0;
    CoilInFigures(p, r, 0.0, frame[2..4]);
    assert frame[2..4][0] == frame[2];
    var points := OneWritten(p, registers, Coil, frame, true, tags, pushed);
    assert points == [Point(r.tag, b as real)] && frame[..4] == frame;
    assert Store(tags, points) == Store(tags[r.tag := b as real], []);
    var read := frame[0..2] + [0, 1];
    assert Field0(read) == Field0(frame) && Field1(read) == 1;
    BitsRead(registers[Coil], tags[r.tag := b as real], read, [b]);
    OneBit(b);
  }

  lemma OneBit(b: byte)
    requires b <= 1
    ensures ByteCount(1) == 1 && Pack([b]) == [b]
  {
    assert Chunk([b], 0) == [b] && PackByte([b]) == Normal(b) + 2 * PackByte([]);
  }

  /**
   * A status message shows at the registers: a read of one register delivers the last value that the message has for
   * its tag, in whole steps, if that is in range.
   */
  lemma StatusShown(p: Platform, table: Table, tags: Tags, points: seq<Point>, i: nat, addr: nat)
    requires addr < 0x1_0000 && WordTable(table) && addr in table && SixIntegers(table[addr].dataType)
    requires i < |points| && points[i].tag == table[addr].tag && !Mentions(points[i + 1..], table[addr].tag)
    requires Range(table[addr].dataType, InSteps(table[addr], points[i].value))
    ensures Walkable(table)
    ensures var r := table[addr];
            var answer := ReadResponse(View(p, table, Store(tags, points)), U16(addr) + U16(r.count));
            && answer.Success? && |answer.data| == 1 + ByteWidth(r.dataType) && answer.data[0] == ByteWidth(r.dataType)
            && Stored(r.dataType, answer.data[1..]) == InSteps(r, points[i].value)
  {
    hide Encode, Walk, Field, U16, Store, InSteps, Stored;
    var r := table[addr];
    RequestFields(addr, r.count);
    ReadOne(p, table, Store(tags, points), addr);
    StoredValue(tags, points, r.tag);
    EncodedInFigures(p, r, points[i].value);
    var data := Encode(p, r, points[i].value).value;
    assert ([2 * r.count] + data)[1..] == data;
  }

  /** Before any message every integer register reads as zero. */
  lemma FreshZero(p: Platform, r: Register)
    requires WordRegister(r) && SixIntegers(r.dataType)
    ensures Encode(p, r, 0.0).Ok? && |Encode(p, r, 0.0).value| == ByteWidth(r.dataType)
    ensures Stored(r.dataType, Encode(p, r, 0.0).value) == 0
  {
    TimesLe(0.0, 0.0, Power(r.scaling));
    assert InSteps(r, 0.0) == 0;
    EncodedInFigures(p, r, 0.0);
  }

  // ---- the yaw controller's set point ----

  /** The holding register that the shipped yaw controller configures for its set point. */
  const SETPOINT := Element(Some(Holding), None, Some(40001), Some("yaw.setpoint"), Some(-2))

  /**
   * A write of one word to that register announces the word as hundredths of a degree to the other modules: the bytes
   * 04 D2 are the set point 12.34.
   */
  lemma SetpointAnnounced(p: Platform, frame: seq<byte>)
    requires |frame| == 7 && frame[..5] == [0x9C, 0x41, 0, 1, 2]
    ensures var t := Configured(Tables(map[], map[], true), [SETPOINT]);
            var value := ((frame[5] as int) * 256 + frame[6]) as real / 100.0;
            && t.ok && WalkableTables(t.registers)
            && Carried(WriteHoldings(p, t.registers, frame), frame, true, t.tags, [])
               == Effect(Success(frame[..4]), map["yaw.setpoint" := value], [[Point("yaw.setpoint", value)]])
  {
    hide Decode, WriteHoldings, Carried, Visited, Lands, Store, Accepted, Configured;
    var r := Register(Holding, UInt16, 40001, 1, 2, "yaw.setpoint");
    SetpointConfigured(r);
    var t := Configured(Tables(map[], map[], true), [SETPOINT]);
    var points := HoldingsWritten(p, t.registers, frame, true, t.tags, []);
    HeadInFigures(frame);
    OneOnPath(t.registers[Holding], 40001);
    SetpointValue(p, r, frame[5..7]);
    assert Visited(t.registers[Holding], 40001, 40002) == [40001];
    var value := ((frame[5] as int) * 256 + frame[6]) as real / 100.0;
    assert points == [Point("yaw.setpoint", value)];
    OneStored(t.tags, points);
  }

  lemma HeadInFigures(frame: seq<byte>)
    requires |frame| == 7 && frame[..5] == [0x9C, 0x41, 0, 1, 2]
    ensures Field0(frame) == 40001 && Field1(frame) == 1
  {
    assert frame[..5][0] == frame[0] && frame[..5][1] == frame[1];
    assert frame[..5][2] == frame[2] && frame[..5][3] == frame[3];
  }

  lemma OneOnPath(table: Table, a: int)
    requires Walkable(table) && a in table && table[a].count == 1
    ensures Visited(table, a, a + 1) == [a] && Lands(table, a, a + 1)
  {
    assert Visited(table, a + 1, a + 1) == [] && Lands(table, a + 1, a + 1);
  }

  lemma OneStored(tags: Tags, points: seq<Point>)
    requires |points| == 1
    ensures Store(tags, points) == tags[points[0].tag := points[0].value]
  {
    assert points[1..] == [];
  }

  lemma SetpointConfigured(r: Register)
    requires r == Register(Holding, UInt16, 40001, 1, 2, "yaw.setpoint")
    ensures Configured(Tables(map[], map[], true), [SETPOINT])
         == Tables(map[Holding := map[40001 := r]], map["yaw.setpoint" := 0.0], true)
  {
    assert Accepted(SETPOINT) == Ok(r);
    assert [SETPOINT][1..] == [];
  }

  lemma SetpointValue(p: Platform, r: Register, d: seq<byte>)
    requires |d| == 2 && r == Register(Holding, UInt16, 40001, 1, 2, "yaw.setpoint")
    ensures Decode(p, r, d) == Ok(((d[0] as int) * 256 + d[1]) as real / 100.0)
  {
    hide FromBigEndian, Power;
    DecodedInFigures(p, r, d);
    assert d[..2] == d;
    PairInFigures(d);
    PowersInFigures();
  }
}
