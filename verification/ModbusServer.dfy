/** The Modbus server module: configuration, the eight function-code handlers and the status handler. */
module ModbusServer {
  import opened Bytes
  import opened GoRuntime
  import opened BitPacking
  import opened RegisterWalk
  import opened ModbusRegister
  import opened MessageBus
  import opened ModbusTables

  /** A register element of the configuration, with its parts as parsed; None where one is missing or unreadable. */
  datatype Element = Element(
    registerType: Option<RegisterType>, dataType: Option<DataType>, address: Option<int>,
    tag: Option<string>, scaling: Option<int>)

  /** The tables being configured, and whether an element was rejected. */
  datatype Tables = Tables(registers: Registers, tags: Tags, ok: bool)

  /** The register that an element asks for, before validation. */
  function Requested(e: Element): Register
    requires e.registerType.Some? && e.address.Some? && e.tag.Some?
  {
    var t := e.registerType.value;
    var dt := if !WordBased(t) then OtherDataType("") else if e.dataType.Some? then e.dataType.value else UInt16;
    var scaling := if e.scaling.Some? && !dt.Float? then e.scaling.value else 0;
    Register(t, dt, e.address.value, 0, scaling, e.tag.value)
  }

  function Accepted(e: Element): Result<Register> {
    if e.registerType.None? || e.address.None? || e.tag.None? then Err else Init(Requested(e))
  }

  /** The tables after the elements in order, up to the first that is rejected. */
  function Configured(t: Tables, elements: seq<Element>): Tables
    decreases elements
  {
    if elements == [] || !t.ok then t
    else match Accepted(elements[0])
      case Ok(r) =>
        var table := if r.registerType in t.registers then t.registers[r.registerType] else map[];
        Configured(Tables(t.registers[r.registerType := table[r.addr := r]], t.tags[r.tag := 0.0], true), elements[1..])
      case _ => t.(ok := false)
  }

  class ModbusServer {
    const platform: Platform
    const name: string

    var registers: Registers
    var tags: Tags
    /** The update messages pushed to the bus, oldest first. */
    var pushed: seq<seq<Point>>

    ghost predicate Valid()
      reads this
    {
      WalkableTables(registers)
    }

    constructor (platform: Platform, name: string)
      ensures Valid() && registers == map[] && tags == map[] && pushed == []
      ensures this.platform == platform && this.name == name
    {
      this.platform := platform;
      this.name := name;
      registers, tags, pushed := map[], map[], [];
    }

    method Configure(elements: seq<Element>) returns (ok: bool)
      requires Valid()
      modifies this
      ensures Valid() && pushed == old(pushed)
      ensures Tables(registers, tags, ok) == Configured(Tables(old(registers), old(tags), true), elements)
    {
      ok := true;
      ghost var start := Tables(registers, tags, true);
      for i := 0 to |elements|
        invariant Valid() && ok && pushed == old(pushed)
        invariant Configured(start, elements) == Configured(Tables(registers, tags, ok), elements[i..])
      {
        var e := elements[i];
        assert elements[i..][0] == e && elements[i..][1..] == elements[i + 1..];
        if e.registerType.None? || e.address.None? || e.tag.None? {
          ok := false;
          return;
        }
        match Init(Requested(e)) {
          case Ok(r) =>
            InitChecks(Requested(e));
            var table := if r.registerType in registers then registers[r.registerType] else map[];
            registers := registers[r.registerType := table[r.addr := r]];
            tags := tags[r.tag := 0.0];
          case _ =>
            ok := false;
            return;
        }
      }
    }

    method ReadHoldingRegisters(frame: seq<byte>) returns (r: Response)
      requires Valid()
      ensures r == if Holding in registers then ReadResponse(View(platform, registers[Holding], tags), frame)
                   else Failure(IllegalDataAddress)
    {
      if Holding !in registers { return Failure(IllegalDataAddress); }
      r := ReadRegisters(platform, registers[Holding], tags, frame);
    }

    method ReadInputRegisters(frame: seq<byte>) returns (r: Response)
      requires Valid()
      ensures r == if Input in registers then ReadResponse(View(platform, registers[Input], tags), frame)
                   else Failure(IllegalDataAddress)
    {
      if Input !in registers { return Failure(IllegalDataAddress); }
      r := ReadRegisters(platform, registers[Input], tags, frame);
    }

    method WriteHoldingRegister(frame: seq<byte>, pushOk: bool) returns (r: Response)
      modifies this`tags, this`pushed
      ensures Effect(r, tags, pushed)
           == Carried(WriteOne(platform, registers, Holding, frame), frame, pushOk, old(tags), old(pushed))
    {
      if Holding !in registers { return Failure(IllegalDataAddress); }
      if |frame| < 4 { return Crash; }
      var addr := Field(frame, 0);
      if addr !in registers[Holding] { return Failure(IllegalDataAddress); }
      var reg := registers[Holding][addr];
      match Decode(platform, reg, frame[2..4]) {
        case Ok(value) =>
          tags := tags[reg.tag := value];
          var updates := [Point(reg.tag, value)];
          assert Store(old(tags), updates) == Store(tags, []);
          if !pushOk { return Failure(SlaveDeviceFailure); }
          pushed := pushed + [updates];
          return Success(frame[0..4]);
        case Err => return Failure(IllegalDataValue);
        case Panic => return Crash;
      }
    }

    method WriteHoldingRegisters(frame: seq<byte>, pushOk: bool) returns (r: Response)
      requires Valid()
      modifies this`tags, this`pushed
      ensures Effect(r, tags, pushed)
           == Carried(WriteHoldings(platform, registers, frame), frame, pushOk, old(tags), old(pushed))
    {
      if Holding !in registers { return Failure(IllegalDataAddress); }
      if |frame| < 4 { return Crash; }
      var updates, end;
      updates, end, tags := StoreRegisters(platform, registers[Holding], tags, frame, Field(frame, 0), Field(frame, 1));
      if end.Refused? { return end.response; }
      if |updates| > 0 {
        if !pushOk { return Failure(SlaveDeviceFailure); }
        pushed := pushed + [updates];
      }
      return Success(frame[0..4]);
    }

    method ReadCoilRegisters(frame: seq<byte>) returns (r: Response)
      ensures r == if Coil in registers then BitResponse(registers[Coil], tags, frame) else Failure(IllegalDataAddress)
    {
      if Coil !in registers { return Failure(IllegalDataAddress); }
      if |frame| < 4 { return Crash; }
      var start := Field(frame, 0);
      var count := Field(frame, 1);
      var bits: seq<int> := [];
      for addr := start to start + count
        invariant BitWalk(registers[Coil], tags, start, start + count)
               == PrependBits(bits, BitWalk(registers[Coil], tags, addr, start + count))
      {
        if addr !in registers[Coil] { return Failure(IllegalDataAddress); }
        var value := TagValue(tags, registers[Coil][addr].tag);
        var bit := if value == 0.0 then 0 else 1;
        BitOn(registers[Coil], tags, bits, addr, start + count);
        bits := bits + [bit];
      }
      BitsEnd(registers[Coil], tags, bits, start + count);
      var data := BitsToBytes(bits);
      var size := data.Length;
      return Success([size % 256] + data[..]);
    }

    method ReadDiscreteRegisters(frame: seq<byte>) returns (r: Response)
      ensures r
         == if Discrete in registers then BitResponse(registers[Discrete], tags, frame) else Failure(IllegalDataAddress)
    {
      if Discrete !in registers { return Failure(IllegalDataAddress); }
      r := ReadBits(registers[Discrete], tags, frame);
    }

    method WriteCoilRegister(frame: seq<byte>, pushOk: bool) returns (r: Response)
      modifies this`tags, this`pushed
      ensures Effect(r, tags, pushed)
           == Carried(WriteOne(platform, registers, Coil, frame), frame, pushOk, old(tags), old(pushed))
    {
      if Coil !in registers { return Failure(IllegalDataAddress); }
      if |frame| < 4 { return Crash; }
      var addr := Field(frame, 0);
      if addr !in registers[Coil] { return Failure(IllegalDataAddress); }
      var reg := registers[Coil][addr];
      match Decode(platform, reg, frame[2..4]) {
        case Ok(value) =>
          tags := tags[reg.tag := value];
          var updates := [Point(reg.tag, value)];
          assert Store(old(tags), updates) == Store(tags, []);
          if !pushOk { return Failure(SlaveDeviceFailure); }
          pushed := pushed + [updates];
          return Success(frame[0..4]);
        case Err => return Failure(IllegalDataValue);
        case Panic => return Crash;
      }
    }

    method WriteCoilRegisters(frame: seq<byte>, pushOk: bool) returns (r: Response)
      modifies this`tags, this`pushed
      ensures Effect(r, tags, pushed)
           == Carried(WriteCoils(registers, frame), frame, pushOk, old(tags), old(pushed))
    {
      if Coil !in registers { return Failure(IllegalDataAddress); }
      if |frame| < 5 { return Crash; }
      var bits := BytesToBits(frame[5..]);
      var updates, end;
      updates, end, tags := StoreBits(registers[Coil], tags, bits[..], Field(frame, 0), Field(frame, 1));
      if end.Refused? { return end.response; }
      if |updates| > 0 {
        if !pushOk { return Failure(SlaveDeviceFailure); }
        pushed := pushed + [updates];
      }
      return Success(frame[0..4]);
    }

    /** A status message from another module sets every tag it mentions; None stands for any other kind of message. */
    method HandleMsgBusStatus(sender: string, status: Option<seq<Point>>)
      modifies this`tags
      ensures tags == if sender == name || status.None? then old(tags) else Store(old(tags), status.value)
    {
      if sender == name || status.None? { return; }
      var points := status.value;
      for i := 0 to |points|
        invariant Store(old(tags), points) == Store(tags, points[i..])
      {
        tags := tags[points[i].tag := points[i].value];
        assert points[i..][1..] == points[i + 1..];
      }
    }
  }

  /** The loop that the holding and input handlers have in common. */
  method ReadRegisters(platform: Platform, table: Table, tags: Tags, frame: seq<byte>) returns (r: Response)
    requires Walkable(table)
    ensures r == ReadResponse(View(platform, table, tags), frame)
  {
    if |frame| < 4 { return Crash; }
    var start := Field(frame, 0);
    var count := Field(frame, 1);
    var size: nat, data, addr := 0, [], start as int;
    ghost var cells := View(platform, table, tags);
    while addr < start + count
      invariant Walk(cells, start, start + count) == Prepend(data, size, Walk(cells, addr, start + count))
    {
      if addr !in table { return Failure(IllegalDataAddress); }
      var reg := table[addr];
      match Encode(platform, reg, TagValue(tags, reg.tag)) {
        case Ok(buf) =>
          assert cells[addr] == Cell(reg.count, Ok(buf));
          WalkOn(cells, data, size, addr, start + count);
          size := size + reg.count * 2;
          data := data + buf;
          addr := addr + reg.count;
        case Err => return Failure(SlaveDeviceFailure);
        case Panic => return Crash;
      }
    }
    return Success([size % 256] + data);
  }

  /** The loop of WriteHoldingRegisters: decodes and stores one register after another. */
  method StoreRegisters(platform: Platform, table: Table, before: Tags, frame: seq<byte>, start: nat, count: nat)
    returns (updates: seq<Point>, end: End, tags: Tags)
    requires Walkable(table)
    ensures Written(updates, end) == WriteWalk(platform, table, frame, start, start + count, 5)
    ensures tags == Store(before, updates)
  {
    hide Decode, Store;
    var stop := start + count;
    var begin: nat, addr := 5, start as int;
    assert Store(before, []) == before by { NothingStored(before); }
    ghost var w := WriteWalk(platform, table, frame, start, stop, 5);
    updates, tags := [], before;
    while addr < stop
      invariant tags == Store(before, updates)
      invariant w == Before(updates, WriteWalk(platform, table, frame, addr, stop, begin))
    {
      if addr !in table {
        end := Refused(Failure(IllegalDataAddress));
        BeforeEnd(updates, end);
        return updates, end, tags;
      }
      var reg := table[addr];
      var value := DecodeAt(platform, reg, frame, begin);
      if !value.Ok? {
        end := Refused(if value.Err? then Failure(IllegalDataValue) else Crash);
        assert WriteWalk(platform, table, frame, addr, stop, begin) == Written([], end);
        BeforeEnd(updates, end);
        return updates, end, tags;
      }
      var point := Point(reg.tag, value.value);
      WriteOn(platform, table, frame, updates, addr, stop, begin);
      StoreAppend(before, updates, point);
      tags := tags[point.tag := point.value];
      updates := updates + [point];
      begin := begin + 2 * reg.count;
      addr := addr + reg.count;
    }
    BeforeEnd(updates, Complete);
    end := Complete;
  }

  lemma NothingStored(tags: Tags)
    ensures Store(tags, []) == tags
  {
  }

  /** The loop of WriteCoilRegisters. */
  method StoreBits(table: Table, before: Tags, bits: seq<int>, start: nat, count: nat)
    returns (updates: seq<Point>, end: End, tags: Tags)
    ensures Written(updates, end) == BitWrite(table, bits, start, start + count, 0)
    ensures tags == Store(before, updates)
  {
    var stop := start + count;
    ghost var w := BitWrite(table, bits, start, stop, 0);
    updates, tags := [], before;
    for addr := start to stop
      invariant tags == Store(before, updates)
      invariant w == Before(updates, BitWrite(table, bits, addr, stop, addr - start))
    {
      var idx := addr - start;
      if addr !in table || idx >= |bits| {
        end := Refused(if addr !in table then Failure(IllegalDataAddress) else Crash);
        BeforeEnd(updates, end);
        return updates, end, tags;
      }
      var point := Point(table[addr].tag, bits[idx] as real);
      StoreAppend(before, updates, point);
      assert BitWrite(table, bits, addr, stop, idx) == Before([point], BitWrite(table, bits, addr + 1, stop, idx + 1));
      BeforeTwice(updates, point, BitWrite(table, bits, addr + 1, stop, idx + 1));
      tags := tags[point.tag := point.value];
      updates := updates + [point];
    }
    BeforeEnd(updates, Complete);
    end := Complete;
  }

  lemma NothingPacked(data: seq<byte>)
    requires forall i :: 0 <= i < |data| ==> data[i] == 0
    ensures data == PackInto([], |data|)
  {
  }

  /**
   * The loop of ReadDiscreteRegisters: packs inline, into an array of its own, where the coil reader collects bits
   * first.
   */
  method ReadBits(table: Table, tags: Tags, frame: seq<byte>) returns (r: Response)
    ensures r == BitResponse(table, tags, frame)
  {
    hide BitWalk, PackInto, Field;
    if |frame| < 4 { return Crash; }
    var start := Field(frame, 0);
    var count := Field(frame, 1);
    var size := count / 8;
    if count % 8 != 0 {
      size := size + 1;
    }
    var data := new byte[size](_ => 0);
    var idx := 0;
    ghost var bits: seq<int> := [];
    NothingPacked(data[..]);
    NothingPrepended(BitWalk(table, tags, start, start + count));
    for addr := start to start + count
      invariant idx == addr - start == |bits| && data.Length == size
      invariant data[..] == PackInto(bits, size)
      invariant BitWalk(table, tags, start, start + count)
           == PrependBits(bits, BitWalk(table, tags, addr, start + count))
    {
      if addr !in table {
        NoBit(table, tags, bits, addr, start + count);
        return Failure(IllegalDataAddress);
      }
      var value := TagValue(tags, table[addr].tag);
      ghost var bit := if value == 0.0 then 0 else 1;
      PackIntoAppend(bits, bit, size);
      BitOn(table, tags, bits, addr, start + count);
      if value != 0.0 {
        OrInto(data, idx);
      }
      bits := bits + [bit];
      idx := idx + 1;
    }
    BitsEnd(table, tags, bits, start + count);
    assert data[..] == Pack(bits);
    return Success([size % 256] + data[..]);
  }
}
