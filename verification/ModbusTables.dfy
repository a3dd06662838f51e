/** The Modbus server's tables seen as values: what a read finds in them and what a write does to the tags. */
module ModbusTables {
  import opened Bytes
  import opened GoRuntime
  import opened BitPacking
  import opened RegisterWalk
  import opened ModbusRegister
  import opened MessageBus

  type Table = map<int, Register>

  type Registers = map<RegisterType, Table>

  ghost predicate Walkable(table: Table) {
    forall a :: a in table ==> table[a].count >= 1
  }

  /** Word tables can be walked: every step advances. */
  ghost predicate WalkableTables(registers: Registers) {
    forall t :: t in registers && WordBased(t) ==> Walkable(registers[t])
  }

  /** The register table as a read walk sees it under the current tags. */
  ghost function View(p: Platform, table: Table, tags: Tags): Cells {
    map a | a in table :: Cell(table[a].count, Encode(p, table[a], TagValue(tags, table[a].tag)))
  }

  // ---- word registers: writing ----

  datatype End = Complete | Refused(response: Response)

  /** The values decoded before a write walk ended, and how it ended. */
  datatype Written = Written(points: seq<Point>, end: End)

  /** What a write finds for a register at offset begin of the frame; a frame that is too short is a slice panic. */
  function DecodeAt(p: Platform, r: Register, frame: seq<byte>, begin: nat): Result<real> {
    var end := begin + 2 * r.count;
    if begin <= end <= |frame| then Decode(p, r, frame[begin..end]) else Panic
  }

  ghost function WriteWalk(p: Platform, table: Table, frame: seq<byte>, addr: int, stop: int, begin: nat): Written
    requires Walkable(table)
    decreases stop - addr
  {
    if addr >= stop then Written([], Complete)
    else if addr !in table then Written([], Refused(Failure(IllegalDataAddress)))
    else
      var r := table[addr];
      match DecodeAt(p, r, frame, begin)
      case Ok(v) => Before([Point(r.tag, v)], WriteWalk(p, table, frame, addr + r.count, stop, begin + 2 * r.count))
      case Err => Written([], Refused(Failure(IllegalDataValue)))
      case Panic => Written([], Refused(Crash))
  }

  ghost function Before(points: seq<Point>, w: Written): Written {
    Written(points + w.points, w.end)
  }

  lemma BeforeTwice(xs: seq<Point>, x: Point, w: Written)
    ensures Before(xs, Before([x], w)) == Before(xs + [x], w)
  {
    assert xs + ([x] + w.points) == (xs + [x]) + w.points;
  }

  lemma BeforeEnd(xs: seq<Point>, end: End)
    ensures Before(xs, Written([], end)) == Written(xs, end)
  {
  }

  /** A decoded register extends the points so far and moves the walk past it. */
  lemma WriteOn(p: Platform, table: Table, frame: seq<byte>, xs: seq<Point>, addr: int, stop: int, begin: nat)
    requires Walkable(table) && addr < stop && addr in table && DecodeAt(p, table[addr], frame, begin).Ok?
    ensures var r := table[addr]; var x := Point(r.tag, DecodeAt(p, r, frame, begin).value);
            Before(xs, WriteWalk(p, table, frame, addr, stop, begin))
            == Before(xs + [x], WriteWalk(p, table, frame, addr + r.count, stop, begin + 2 * r.count))
  {
    var r := table[addr];
    BeforeTwice(xs, Point(r.tag, DecodeAt(p, r, frame, begin).value),
                WriteWalk(p, table, frame, addr + r.count, stop, begin + 2 * r.count));
  }

  // ---- bit registers ----

  datatype BitOutcome = Bits(bits: seq<int>) | NoSuchBit

  /** The bits of count consecutive addresses, or that one of them is not configured. */
  ghost function BitWalk(table: Table, tags: Tags, addr: int, stop: int): BitOutcome
    decreases stop - addr
  {
    if addr >= stop then Bits([])
    else if addr !in table then NoSuchBit
    else PrependBits([if TagValue(tags, table[addr].tag) == 0.0 then 0 else 1], BitWalk(table, tags, addr + 1, stop))
  }

  ghost function PrependBits(bits: seq<int>, o: BitOutcome): BitOutcome {
    match o
    case Bits(rest) => Bits(bits + rest)
    case NoSuchBit => NoSuchBit
  }

  /** A configured bit extends what was read so far and moves the walk past it. */
  lemma BitOn(table: Table, tags: Tags, bits: seq<int>, addr: int, stop: int)
    requires addr < stop && addr in table
    ensures PrependBits(bits, BitWalk(table, tags, addr, stop))
         == PrependBits(bits + [if TagValue(tags, table[addr].tag) == 0.0 then 0 else 1],
                        BitWalk(table, tags, addr + 1, stop))
  {
    PrependBit(bits, if TagValue(tags, table[addr].tag) == 0.0 then 0 else 1, BitWalk(table, tags, addr + 1, stop));
  }

  lemma NothingPrepended(o: BitOutcome)
    ensures PrependBits([], o) == o
  {
    if o.Bits? {
      assert [] + o.bits == o.bits;
    }
  }

  lemma BitsEnd(table: Table, tags: Tags, bits: seq<int>, stop: int)
    ensures PrependBits(bits, BitWalk(table, tags, stop, stop)) == Bits(bits)
  {
    assert bits + [] == bits;
  }

  lemma NoBit(table: Table, tags: Tags, bits: seq<int>, addr: int, stop: int)
    requires addr < stop && addr !in table
    ensures PrependBits(bits, BitWalk(table, tags, addr, stop)) == NoSuchBit
  {
  }

  lemma PrependBit(bits: seq<int>, b: int, o: BitOutcome)
    ensures PrependBits(bits, PrependBits([b], o)) == PrependBits(bits + [b], o)
  {
    if o.Bits? {
      assert bits + ([b] + o.bits) == (bits + [b]) + o.bits;
    }
  }

  /** What a write does once its walk is complete and the bus takes its update. */
  lemma CarriedThrough(w: Written, frame: seq<byte>, tags: Tags, pushed: seq<seq<Point>>)
    requires w.end == Complete && |frame| >= 4
    ensures var e := Carried(w, frame, true, tags, pushed);
            e.response == Success(frame[..4]) && e.tags == Store(tags, w.points)
  {
  }

  ghost function BitResponse(table: Table, tags: Tags, frame: seq<byte>): Response {
    if |frame| < 4 then Crash
    else match BitWalk(table, tags, Field(frame, 0), Field(frame, 0) + Field(frame, 1))
      case Bits(bits) => Success([|Pack(bits)| % 256] + Pack(bits))
      case NoSuchBit => Failure(IllegalDataAddress)
  }

  ghost function BitWrite(table: Table, bits: seq<int>, addr: int, stop: int, idx: nat): Written
    decreases stop - addr
  {
    if addr >= stop then Written([], Complete)
    else if addr !in table then Written([], Refused(Failure(IllegalDataAddress)))
    else if idx >= |bits| then Written([], Refused(Crash))
    else
      Before([Point(table[addr].tag, bits[idx] as real)], BitWrite(table, bits, addr + 1, stop, idx + 1))
  }

  // ---- the four write requests ----

  /** The state that a write request may change, and the answer to it. */
  datatype Effect = Effect(response: Response, tags: Tags, pushed: seq<seq<Point>>)

  /** The tags always take what was decoded; only a complete walk that decoded something is pushed to the bus. */
  ghost function Carried(w: Written, frame: seq<byte>, pushOk: bool, tags: Tags, pushed: seq<seq<Point>>): Effect {
    var tags' := Store(tags, w.points);
    match w.end
    case Refused(r) => Effect(r, tags', pushed)
    case Complete =>
      if |frame| < 4 then Effect(Crash, tags', pushed)
      else if w.points == [] then Effect(Success(frame[..4]), tags', pushed)
      else if !pushOk then Effect(Failure(SlaveDeviceFailure), tags', pushed)
      else Effect(Success(frame[..4]), tags', pushed + [w.points])
  }

  /** Writing a single register or coil: one point, or the reason there is none. */
  ghost function WriteOne(p: Platform, registers: Registers, t: RegisterType, frame: seq<byte>): Written {
    if t !in registers then Written([], Refused(Failure(IllegalDataAddress)))
    else if |frame| < 4 then Written([], Refused(Crash))
    else
      var table, addr := registers[t], Field(frame, 0);
      if addr !in table then Written([], Refused(Failure(IllegalDataAddress)))
      else match Decode(p, table[addr], frame[2..4])
        case Ok(v) => Written([Point(table[addr].tag, v)], Complete)
        case Err => Written([], Refused(Failure(IllegalDataValue)))
        case Panic => Written([], Refused(Crash))
  }

  /** Writing holding registers: the data starts after the byte count, at offset 5. */
  ghost function WriteHoldings(p: Platform, registers: Registers, frame: seq<byte>): Written
    requires WalkableTables(registers)
  {
    if Holding !in registers then Written([], Refused(Failure(IllegalDataAddress)))
    else if |frame| < 4 then Written([], Refused(Crash))
    else WriteWalk(p, registers[Holding], frame, Field(frame, 0), Field(frame, 0) + Field(frame, 1), 5)
  }

  ghost function WriteCoils(registers: Registers, frame: seq<byte>): Written {
    if Coil !in registers then Written([], Refused(Failure(IllegalDataAddress)))
    else if |frame| < 5 then Written([], Refused(Crash))
    else BitWrite(registers[Coil], Unpack(frame[5..]), Field(frame, 0), Field(frame, 0) + Field(frame, 1), 0)
  }
}
