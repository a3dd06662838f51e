/**
 * What the Modbus server's handlers mean for a client: sizes of reads, effects of writes, reading back what was
 * written.
 */
module ModbusLaws {
  import opened Bytes
  import opened GoRuntime
  import opened BitPacking
  import opened RegisterWalk
  import opened ModbusRegister
  import opened MessageBus
  import opened ModbusTables
  import opened ModbusServer
  import opened ModbusWire

  // ---- what configuration establishes ----

  ghost predicate WellConfigured(t: Tables) {
    forall k :: k in t.registers ==> forall a :: a in t.registers[k] ==> WellPlaced(t, k, a)
  }

  ghost predicate WellPlaced(t: Tables, k: RegisterType, a: int)
    requires k in t.registers && a in t.registers[k]
  {
    var r := t.registers[k][a];
    r.registerType == k && r.addr == a && r.tag in t.tags && r.scaling >= 0 && (WordBased(k) ==> Initialised(r))
  }

  /**
   * Every configured register sits at its own address, has a tag in the tag table, and words registers have their
   * type's width.
   */
  lemma {:induction false} ConfigureEstablishes(t: Tables, elements: seq<Element>)
    requires WellConfigured(t) && t.ok
    ensures WellConfigured(Configured(t, elements))
    ensures Configured(t, elements).ok <==> forall i :: 0 <= i < |elements| ==> Accepted(elements[i]).Ok?
    decreases elements
  {
    if elements != [] {
      match Accepted(elements[0]) {
        case Ok(r) =>
          InitChecks(Requested(elements[0]));
          var table := if r.registerType in t.registers then t.registers[r.registerType] else map[];
          var t' := Tables(t.registers[r.registerType := table[r.addr := r]], t.tags[r.tag := 0.0], true);
          forall k, a | k in t'.registers && a in t'.registers[k]
            ensures WellPlaced(t', k, a)
          {
            if k in t.registers && a in t.registers[k] { assert WellPlaced(t, k, a); }
          }
          ConfigureEstablishes(t', elements[1..]);
          assert forall i :: 1 <= i < |elements| ==> elements[i] == elements[1..][i - 1];
        case _ =>
      }
    }
  }

  /** What an element gives its register: its own type, address and tag, an unsigned word if nothing else is said. */
  predicate FromElement(r: Register, e: Element) {
    var words := r.registerType == Input || r.registerType == Holding;
    && e.registerType == Some(r.registerType) && e.address == Some(r.addr) && e.tag == Some(r.tag)
    && (words ==> r.dataType == match e.dataType case Some(dt) => dt case None => UInt16)
    && (words ==> 2 * r.count == ByteWidth(r.dataType) > 0)
    && r.scaling == match e.scaling
                    case Some(k) => if words && r.dataType == Float then 0 else if k < 0 then -k else k
                    case None => 0
  }

  /** An element is accepted iff it has its three parts, a known type, and for words a known data type or none. */
  lemma ElementGives(e: Element)
    ensures Accepted(e).Ok? <==>
            && e.address.Some? && e.tag.Some?
            && e.registerType in {Some(Coil), Some(Discrete), Some(Input), Some(Holding)}
            && (e.registerType in {Some(Input), Some(Holding)} && e.dataType.Some? ==> !e.dataType.value.OtherDataType?)
    ensures Accepted(e).Ok? ==> FromElement(Accepted(e).value, e)
  {
  }

  predicate Mentioned(elements: seq<Element>, tag: string) {
    exists i :: 0 <= i < |elements| && elements[i].tag == Some(tag)
  }

  /** The tags of the elements, and only they, are put into the tag table, each at zero. */
  lemma {:induction false} TagsConfigured(t: Tables, elements: seq<Element>, tag: string)
    requires t.ok && Configured(t, elements).ok
    ensures var tags := Configured(t, elements).tags;
            && (tag in tags <==> tag in t.tags || Mentioned(elements, tag))
            && (tag in tags ==> tags[tag] == if Mentioned(elements, tag) then 0.0 else t.tags[tag])
    decreases elements
  {
    if elements != [] {
      var r, rest := Accepted(elements[0]).value, elements[1..];
      var table := if r.registerType in t.registers then t.registers[r.registerType] else map[];
      TagsConfigured(Tables(t.registers[r.registerType := table[r.addr := r]], t.tags[r.tag := 0.0], true), rest, tag);
      ElementGives(elements[0]);
      assert Mentioned(elements, tag) <==> elements[0].tag == Some(tag) || Mentioned(rest, tag) by {
        assert forall i :: 1 <= i < |elements| ==> elements[i] == rest[i - 1];
        if Mentioned(rest, tag) {
          var i :| 0 <= i < |rest| && rest[i].tag == Some(tag);
          assert elements[i + 1].tag == Some(tag);
        }
      }
    }
  }

  /** The first element that is rejected ends the configuration, and all before it stays. */
  lemma {:induction false} FirstRejected(t: Tables, elements: seq<Element>, i: nat)
    requires t.ok && i < |elements| && !Accepted(elements[i]).Ok?
    requires forall j :: 0 <= j < i ==> Accepted(elements[j]).Ok?
    ensures var before := Configured(t, elements[..i]);
            before.ok && Configured(t, elements) == before.(ok := false)
    decreases elements
  {
    hide Accepted;
    if i == 0 {
      assert elements[..0] == [];
    } else {
      var r := Accepted(elements[0]).value;
      var table := if r.registerType in t.registers then t.registers[r.registerType] else map[];
      assert elements[..i][0] == elements[0] && elements[..i][1..] == elements[1..][..i - 1];
      FirstRejected(Tables(t.registers[r.registerType := table[r.addr := r]], t.tags[r.tag := 0.0], true),
                    elements[1..], i - 1);
    }
  }

  /** Of several elements for one address of one type, the last one is served, as it is written. */
  lemma {:induction false} LastElementServed(t: Tables, elements: seq<Element>, i: nat)
    requires i < |elements| && t.ok && Configured(t, elements).ok
    requires Accepted(elements[i]).Ok?
    requires forall j :: i < j < |elements| ==> !SameSlot(elements[i], elements[j])
    ensures var r := Accepted(elements[i]).value; var c := Configured(t, elements);
            r.registerType in c.registers && r.addr in c.registers[r.registerType]
            && c.registers[r.registerType][r.addr] == r && FromElement(r, elements[i])
    decreases elements
  {
    ElementGives(elements[i]);
    match Accepted(elements[0]) {
      case Ok(r) =>
        var table := if r.registerType in t.registers then t.registers[r.registerType] else map[];
        var t' := Tables(t.registers[r.registerType := table[r.addr := r]], t.tags[r.tag := 0.0], true);
        assert forall j :: 1 <= j < |elements| ==> elements[j] == elements[1..][j - 1];
        if i > 0 {
          LastElementServed(t', elements[1..], i - 1);
        } else {
          SlotKept(t', elements[1..], r);
        }
      case _ =>
    }
  }

  predicate SameSlot(e: Element, f: Element) {
    e.registerType == f.registerType && e.address == f.address
  }

  lemma {:induction false} SlotKept(t: Tables, elements: seq<Element>, r: Register)
    requires r.registerType in t.registers && r.addr in t.registers[r.registerType]
    requires forall j :: 0 <= j < |elements| ==>
               elements[j].registerType != Some(r.registerType) || elements[j].address != Some(r.addr)
    ensures var c := Configured(t, elements);
            && r.registerType in c.registers && r.addr in c.registers[r.registerType]
            && c.registers[r.registerType][r.addr] == t.registers[r.registerType][r.addr]
    decreases elements
  {
    if elements != [] && t.ok {
      match Accepted(elements[0]) {
        case Ok(q) =>
          var table := if q.registerType in t.registers then t.registers[q.registerType] else map[];
          assert forall j :: 1 <= j < |elements| ==> elements[j] == elements[1..][j - 1];
          SlotKept(Tables(t.registers[q.registerType := table[q.addr := q]], t.tags[q.tag := 0.0], true), elements[1..],
                   r);
        case _ =>
      }
    }
  }

  // ---- reading words ----

  /** A table as configured: walkable, every value two bytes a word, nothing wider than four words. */
  ghost predicate WordTable(table: Table) {
    forall a :: a in table ==> Initialised(table[a])
  }

  lemma ViewOfWords(p: Platform, table: Table, tags: Tags)
    requires WordTable(table)
    ensures var cells := View(p, table, tags);
            && Advancing(cells) && Exact(cells)
            && forall a :: a in cells ==> cells[a].count <= 4 && cells[a].bytes.Ok?
  {
    forall a | a in table
      ensures Encode(p, table[a], TagValue(tags, table[a].tag)).Ok?
           && |Encode(p, table[a], TagValue(tags, table[a].tag)).value| == 2 * table[a].count
    {
      EncodedLength(p, table[a], TagValue(tags, table[a].tag));
    }
  }

  /** Reading exactly one register delivers its encoded tag value. */
  lemma ReadOne(p: Platform, table: Table, tags: Tags, addr: int)
    requires WordTable(table) && addr in table
    ensures Walkable(table)
    ensures var r := table[addr]; var e := Encode(p, r, TagValue(tags, r.tag));
            e.Ok? && |e.value| == 2 * r.count
            && Walk(View(p, table, tags), addr, addr + r.count) == Done(e.value, 2 * r.count)
  {
    var r, cells := table[addr], View(p, table, tags);
    var v := TagValue(tags, r.tag);
    EncodedLength(p, r, v);
    assert Walk(cells, addr + r.count, addr + r.count) == Done([], 0);
    assert Encode(p, r, v).value + [] == Encode(p, r, v).value;
  }

  /**
   * A read of configured registers delivers 2 * count bytes or up to six more; its length byte is right for every count
   * up to 124.
   */
  lemma ReadLength(p: Platform, table: Table, tags: Tags, frame: seq<byte>)
    requires WordTable(table) && |frame| >= 4 && Field(frame, 1) > 0
    requires ReadResponse(View(p, table, tags), frame).Success?
    ensures var d := ReadResponse(View(p, table, tags), frame).data; var count := Field(frame, 1);
            && 2 * count <= |d| - 1 <= 2 * count + 6
            && (count <= 124 ==> d[0] == |d| - 1)
  {
    ViewOfWords(p, table, tags);
    LengthByte(View(p, table, tags), frame, 4);
  }

  /**
   * Within the protocol's limit of 125 registers, the length byte of a successful read is wrong exactly if all 125
   * are asked for and the last of them is the first of a four-word register.
   */
  lemma LengthByteWrong(p: Platform, table: Table, tags: Tags, frame: seq<byte>)
    requires WordTable(table) && |frame| >= 4 && 0 < Field(frame, 1) <= 125
    requires ReadResponse(View(p, table, tags), frame).Success?
    ensures Advancing(View(p, table, tags))
    ensures var d := ReadResponse(View(p, table, tags), frame).data;
            var start, count := Field(frame, 0), Field(frame, 1);
            && |d| >= 1
            && (d[0] != |d| - 1 <==> EndsInLong(View(p, table, tags), table, start, count))
  {
    hide Encode, Walk, Field, WordTable, ReadResponse, Path, Landing;
    var cells, start, count := View(p, table, tags), Field(frame, 0), Field(frame, 1);
    ViewOfWords(p, table, tags);
    LengthByte(cells, frame, 4);
    SucceedsReadable(cells, frame);
    var last := LandsBehind(cells, start, start + count);
    assert cells[last].count == table[last].count <= 4;
    if EndsInLong(cells, table, start, count) {
      ReachesEnd(cells, start, start + count, start + 124);
    }
  }

  /** All 125 registers are asked for, and the walk ends on the first word of a four-word one. */
  ghost predicate EndsInLong(cells: Cells, table: Table, start: int, count: int)
    requires Advancing(cells)
  {
    count == 125 && start + 124 in Path(cells, start, start + count) && start + 124 in table
    && table[start + 124].count == 4
  }

  /** 124 single words, then a four-word value. */
  function LongTail(): Table {
    map a | 0 <= a <= 124 ::
      if a < 124 then Register(Holding, UInt16, a, 1, 0, "t") else Register(Holding, UInt64, a, 4, 0, "t")
  }

  /** At the protocol's limit of 125 registers the length byte can be wrong: 256 bytes announced as 0. */
  lemma LengthByteAt125(p: Platform, tags: Tags)
    ensures WordTable(LongTail())
    ensures var r := ReadResponse(View(p, LongTail(), tags), U16(0) + U16(125));
            r.Success? && |r.data| == 257 && r.data[0] == 0
  {
    ViewOfWords(p, LongTail(), tags);
    TailWalk(View(p, LongTail(), tags), 0, 124, 4);
    RequestFields(0, 125);
  }

  // ---- writing words ----

  /** Integer registers that fill the range exactly. */
  ghost predicate Covers(table: Table, addr: int, stop: int)
    requires Walkable(table)
    decreases stop - addr
  {
    addr == stop
    || (addr < stop && addr in table && IntegerRegister(table[addr]) && Covers(table, addr + table[addr].count, stop))
  }

  /** The tags of the registers walked, in address order. */
  ghost function RangeTags(table: Table, addr: int, stop: int): seq<string>
    requires Walkable(table)
    decreases stop - addr
  {
    if addr >= stop || addr !in table then [] else [table[addr].tag] + RangeTags(table, addr + table[addr].count, stop)
  }

  ghost predicate Distinct(names: seq<string>) {
    forall i, j :: 0 <= i < j < |names| ==> names[i] != names[j]
  }

  lemma {:induction false} CoversPast(table: Table, addr: int, stop: int)
    requires Walkable(table) && Covers(table, addr, stop)
    ensures addr <= stop
  {
  }

  lemma {:induction false} WriteWalkTags(p: Platform, table: Table, frame: seq<byte>, addr: int, stop: int, begin: nat)
    requires Walkable(table)
    ensures var w := WriteWalk(p, table, frame, addr, stop, begin); var tags := RangeTags(table, addr, stop);
            |w.points| <= |tags| && forall i :: 0 <= i < |w.points| ==> w.points[i].tag == tags[i]
    decreases stop - addr
  {
    if addr < stop && addr in table {
      WriteWalkTags(p, table, frame, addr + table[addr].count, stop, begin + 2 * table[addr].count);
    }
  }

  /** The addresses of the registers walked. */
  ghost function Visited(table: Table, addr: int, stop: int): seq<int>
    requires Walkable(table)
    decreases stop - addr
  {
    if addr >= stop || addr !in table then [] else [addr] + Visited(table, addr + table[addr].count, stop)
  }

  /** What the register at a finds in a frame whose data for address zero would begin at offset base. */
  ghost function Carries(p: Platform, table: Table, frame: seq<byte>, base: int, a: int): Result<real>
    requires a in table
  {
    if base + 2 * a >= 0 then DecodeAt(p, table[a], frame, base + 2 * a) else Panic
  }

  ghost predicate PointFrom(p: Platform, table: Table, frame: seq<byte>, base: int, a: int, q: Point) {
    a in table && q.tag == table[a].tag && Carries(p, table, frame, base, a) == Ok(q.value)
  }

  /** Why a write walk stopped short of a register. */
  ghost predicate StoppedAt(p: Platform, table: Table, frame: seq<byte>, base: int, a: int, r: Response) {
    a in table && match Carries(p, table, frame, base, a)
                  case Ok(_) => false
                  case Err => r == Failure(IllegalDataValue)
                  case Panic => r == Crash
  }

  /**
   * A write walk decodes the registers on its path in address order, each from its own bytes of the frame. It
   * is complete iff it decodes them all and the path reaches the end of the range; otherwise it keeps the
   * values before the first register that has none, or before the first address that is not configured.
   */
  lemma {:induction false} WriteWalkPoints(p: Platform, table: Table, frame: seq<byte>, addr: int, stop: int,
                                           begin: nat)
    requires Walkable(table)
    ensures var w := WriteWalk(p, table, frame, addr, stop, begin); var path := Visited(table, addr, stop);
            var base := begin - 2 * addr;
            && |w.points| <= |path|
            && (forall i :: 0 <= i < |w.points| ==> PointFrom(p, table, frame, base, path[i], w.points[i]))
            && (w.end == Refused(Failure(IllegalDataAddress)) || w.end == Complete <==> |w.points| == |path|)
            && (w.end.Complete? ==> Lands(table, addr, stop))
            && (w.end == Refused(Failure(IllegalDataAddress)) ==> !Lands(table, addr, stop))
            && (|w.points| < |path| ==>
                  w.end.Refused? && StoppedAt(p, table, frame, base, path[|w.points|], w.end.response))
    decreases stop - addr
  {
    hide DecodeAt;
    if addr < stop && addr in table {
      WriteWalkPoints(p, table, frame, addr + table[addr].count, stop, begin + 2 * table[addr].count);
      assert Carries(p, table, frame, begin - 2 * addr, addr) == DecodeAt(p, table[addr], frame, begin);
    }
  }

  /** Every address on the path is configured. */
  ghost predicate Lands(table: Table, addr: int, stop: int)
    requires Walkable(table)
    decreases stop - addr
  {
    addr >= stop || (addr in table && Lands(table, addr + table[addr].count, stop))
  }

  lemma UnmentionedOutside(points: seq<Point>, names: seq<string>, tag: string)
    requires |points| <= |names| && forall i :: 0 <= i < |points| ==> points[i].tag == names[i]
    requires tag !in names
    ensures !Mentions(points, tag)
  {
  }

  /** Whatever the outcome, a write leaves every tag outside its range alone. */
  lemma WriteFrame(p: Platform, table: Table, frame: seq<byte>, addr: int, stop: int, begin: nat, tags: Tags,
                   tag: string)
    requires Walkable(table) && tag !in RangeTags(table, addr, stop)
    ensures var tags' := Store(tags, WriteWalk(p, table, frame, addr, stop, begin).points);
            TagValue(tags', tag) == TagValue(tags, tag) && (tag in tags' <==> tag in tags)
  {
    WriteWalkTags(p, table, frame, addr, stop, begin);
    var points := WriteWalk(p, table, frame, addr, stop, begin).points;
    UnmentionedOutside(points, RangeTags(table, addr, stop), tag);
    StoredValue(tags, points, tag);
  }

  lemma DistinctTail(name: string, names: seq<string>)
    requires Distinct([name] + names)
    ensures Distinct(names) && name !in names
  {
    var all := [name] + names;
    assert all[1..] == names;
    forall i, j | 0 <= i < j < |names|
      ensures all[1..][i] != all[1..][j]
    {
      assert all[i + 1] != all[j + 1];
    }
    forall i | 0 <= i < |names|
      ensures all[1..][i] != name
    {
      assert all[0] != all[i + 1];
    }
  }

  /** The first register of a range keeps what was written to it while the rest is written. */
  lemma FirstKept(p: Platform, table: Table, frame: seq<byte>, addr: int, stop: int, begin: nat, tags: Tags)
    requires Walkable(table) && addr in table && IntegerRegister(table[addr])
    requires begin + 2 * table[addr].count <= |frame|
    requires table[addr].tag !in RangeTags(table, addr + table[addr].count, stop)
    ensures var r := table[addr]; var bytes := frame[begin..begin + 2 * r.count];
            var rest := WriteWalk(p, table, frame, addr + r.count, stop, begin + 2 * r.count).points;
            && DecodeAt(p, r, frame, begin).Ok?
            && View(p, table, Store(tags[r.tag := DecodeAt(p, r, frame, begin).value], rest))[addr]
              == Cell(r.count, Ok(bytes))
  {
    var r := table[addr];
    assert DecodeAt(p, r, frame, begin) == Decode(p, r, frame[begin..begin + 2 * r.count]);
    EncodeDecoded(p, r, frame[begin..begin + 2 * r.count]);
    WriteFrame(p, table, frame, addr + r.count, stop, begin + 2 * r.count,
               tags[r.tag := DecodeAt(p, r, frame, begin).value], r.tag);
  }

  lemma StoreFirst(tags: Tags, q: Point, rest: seq<Point>)
    ensures Store(tags, [q] + rest) == Store(tags[q.tag := q.value], rest)
  {
    assert ([q] + rest)[1..] == rest;
  }

  /** Reading back a range just written returns the bytes written, when its registers have tags of their own. */
  lemma {:induction false} WriteThenRead(p: Platform, table: Table, frame: seq<byte>, addr: int, stop: int, begin: nat,
                                         tags: Tags)
    requires Walkable(table) && Covers(table, addr, stop) && Distinct(RangeTags(table, addr, stop))
    requires addr <= stop && begin + 2 * (stop - addr) <= |frame|
    ensures var w := WriteWalk(p, table, frame, addr, stop, begin); var cells := View(p, table, Store(tags, w.points));
            && w.end == Complete
            && Walk(cells, addr, stop) == Done(frame[begin..begin + 2 * (stop - addr)], 2 * (stop - addr))
    decreases stop - addr
  {
    if addr < stop {
      var r := table[addr];
      var next, begin' := addr + r.count, begin + 2 * r.count;
      CoversPast(table, next, stop);
      DistinctTail(r.tag, RangeTags(table, next, stop));
      FirstKept(p, table, frame, addr, stop, begin, tags);
      var tags' := tags[r.tag := DecodeAt(p, r, frame, begin).value];
      var rest := WriteWalk(p, table, frame, next, stop, begin').points;
      WriteThenRead(p, table, frame, next, stop, begin', tags');
      var cells := View(p, table, Store(tags', rest));
      assert cells[addr] == Cell(r.count, Ok(frame[begin..begin']));
      ReadOneMore(cells, addr, next, stop, frame, begin, begin');
      StoreFirst(tags, Point(r.tag, tags'[r.tag]), rest);
    } else {
      assert frame[begin..begin + 2 * (stop - addr)] == [];
    }
  }

  lemma ReadOneMore(cells: Cells, addr: int, next: int, stop: int, frame: seq<byte>, begin: nat, begin': nat)
    requires Advancing(cells) && addr < next <= stop && begin' - begin == 2 * (next - addr)
    requires begin + 2 * (stop - addr) <= |frame|
    requires addr in cells && cells[addr] == Cell(next - addr, Ok(frame[begin..begin']))
    requires Walk(cells, next, stop) == Done(frame[begin'..begin' + 2 * (stop - next)], 2 * (stop - next))
    ensures Walk(cells, addr, stop) == Done(frame[begin..begin + 2 * (stop - addr)], 2 * (stop - addr))
  {
    assert frame[begin..begin + 2 * (stop - addr)] == frame[begin..begin'] + frame[begin'..begin' + 2 * (stop - next)];
  }

  lemma EchoFields(frame: seq<byte>)
    requires |frame| >= 4
    ensures Field(frame[..4], 0) == Field(frame, 0) && Field(frame[..4], 1) == Field(frame, 1)
  {
    assert frame[..4][0..2] == frame[0..2] && frame[..4][2..4] == frame[2..4];
  }

  /**
   * The same at the level of requests: the echo of a successful write is itself a read request that returns the data
   * written.
   */
  lemma WriteRequestThenRead(p: Platform, registers: Registers, frame: seq<byte>, tags: Tags, pushed: seq<seq<Point>>)
    requires WalkableTables(registers) && Holding in registers && |frame| >= 4 && |frame| == 5 + 2 * Field(frame, 1)
    requires Covers(registers[Holding], Field(frame, 0), Field(frame, 0) + Field(frame, 1))
    requires Distinct(RangeTags(registers[Holding], Field(frame, 0), Field(frame, 0) + Field(frame, 1)))
    ensures var e := Carried(WriteHoldings(p, registers, frame), frame, true, tags, pushed);
            && e.response == Success(frame[..4])
            && ReadResponse(View(p, registers[Holding], e.tags), frame[..4])
            == Success([2 * Field(frame, 1) % 256] + frame[5..])
  {
    var start, count := Field(frame, 0), Field(frame, 1);
    hide Decode, Encode, Walk, WriteWalk, View, Covers, RangeTags, Store, Field, DecodeAt, Distinct, Walkable,
         Advancing,
         WriteHoldings, ReadResponse;
    WholeWrite(p, registers, frame);
    WriteThenRead(p, registers[Holding], frame, start, start + count, 5, tags);
    hide Carried;
    CarriedThrough(WriteHoldings(p, registers, frame), frame, tags, pushed);
    EchoFields(frame);
    assert frame[5..5 + 2 * count] == frame[5..];
    var written := Store(tags, WriteHoldings(p, registers, frame).points);
    WholeRead(View(p, registers[Holding], written), frame[..4], frame[5..], 2 * count);
  }

  lemma WholeWrite(p: Platform, registers: Registers, frame: seq<byte>)
    requires WalkableTables(registers) && Holding in registers && |frame| >= 4
    ensures WriteHoldings(p, registers, frame)
         == WriteWalk(p, registers[Holding], frame, Field(frame, 0), Field(frame, 0) + Field(frame, 1), 5)
  {
  }

  lemma WholeRead(cells: Cells, frame: seq<byte>, data: seq<byte>, n: nat)
    requires Advancing(cells) && |frame| >= 4
    requires Walk(cells, Field(frame, 0), Field(frame, 0) + Field(frame, 1)) == Done(data, n)
    ensures ReadResponse(cells, frame) == Success([n % 256] + data)
  {
  }

  /**
   * A single-register write carries one word: it is refused for every wider type, and read back for the one-word
   * integers.
   */
  lemma SingleWrite(p: Platform, registers: Registers, frame: seq<byte>, tags: Tags, pushed: seq<seq<Point>>)
    requires Holding in registers && |frame| == 4 && Field(frame, 0) in registers[Holding]
    requires Initialised(registers[Holding][Field(frame, 0)])
    ensures var r := registers[Holding][Field(frame, 0)];
            var e := Carried(WriteOne(p, registers, Holding, frame), frame, true, tags, pushed);
            && (r.count > 1 ==> e == Effect(Failure(IllegalDataValue), tags, pushed))
            && (r.count == 1 ==>
                  e.response == Success(frame) && Encode(p, r, TagValue(e.tags, r.tag)) == Ok(frame[2..4]))
  {
    var r := registers[Holding][Field(frame, 0)];
    var w := WriteOne(p, registers, Holding, frame);
    if r.count == 1 {
      EncodeDecoded(p, r, frame[2..4]);
      assert w.points == [Point(r.tag, Decode(p, r, frame[2..4]).value)];
      assert Store(tags, w.points) == Store(tags[r.tag := w.points[0].value], []);
      assert frame[..4] == frame;
    }
  }

  // ---- coils and discrete inputs ----

  ghost predicate BitsConfigured(table: Table, addr: int, stop: int) {
    forall a :: addr <= a < stop ==> a in table
  }

  ghost predicate DistinctBitTags(table: Table, addr: int, stop: int)
    requires BitsConfigured(table, addr, stop)
  {
    forall a, b :: addr <= a < b < stop ==> table[a].tag != table[b].tag
  }

  /** A bit read is refused iff an address is missing, and otherwise lists whether each tag is non-zero. */
  lemma {:induction false} BitWalkBits(table: Table, tags: Tags, addr: int, stop: int)
    requires addr <= stop
    ensures BitWalk(table, tags, addr, stop).Bits? <==> BitsConfigured(table, addr, stop)
    ensures var o := BitWalk(table, tags, addr, stop);
            && (o.Bits? ==> |o.bits| == stop - addr)
            && (o.Bits? ==> forall i :: 0 <= i < stop - addr ==>
                  o.bits[i] == if TagValue(tags, table[addr + i].tag) == 0.0 then 0 else 1)
    decreases stop - addr
  {
    if addr < stop {
      BitWalkBits(table, tags, addr + 1, stop);
      if addr in table && BitsConfigured(table, addr + 1, stop) {
        var rest := BitWalk(table, tags, addr + 1, stop).bits;
        forall i | 0 <= i < stop - addr
          ensures BitWalk(table, tags, addr, stop).bits[i]
             == if TagValue(tags, table[addr + i].tag) == 0.0 then 0 else 1
        {
          if i > 0 {
            assert table[addr + i] == table[addr + 1 + (i - 1)];
            assert BitWalk(table, tags, addr, stop).bits[i] == rest[i - 1];
          }
        }
      }
    }
  }

  ghost predicate SameBit(coils: Table, discretes: Table, tags: Tags, a: int) {
    && (a in coils <==> a in discretes)
    && (a in coils ==> (TagValue(tags, coils[a].tag) == 0.0 <==> TagValue(tags, discretes[a].tag) == 0.0))
  }

  /**
   * Coils and discrete inputs whose tags are zero together answer alike, though one collects bits and the other packs
   * inline.
   */
  lemma DiscreteLikeCoil(coils: Table, discretes: Table, tags: Tags, frame: seq<byte>)
    requires |frame| >= 4
    requires forall a :: Field(frame, 0) <= a < Field(frame, 0) + Field(frame, 1) ==>
               SameBit(coils, discretes, tags, a)
    ensures BitResponse(coils, tags, frame) == BitResponse(discretes, tags, frame)
  {
    var start, stop := Field(frame, 0), Field(frame, 0) + Field(frame, 1);
    BitWalkBits(coils, tags, start, stop);
    BitWalkBits(discretes, tags, start, stop);
    var c, d := BitWalk(coils, tags, start, stop), BitWalk(discretes, tags, start, stop);
    forall a | start <= a < stop
      ensures a in coils <==> a in discretes
    {
      assert SameBit(coils, discretes, tags, a);
    }
    if c.Bits? {
      forall i | 0 <= i < stop - start
        ensures c.bits[i] == d.bits[i]
      {
        assert SameBit(coils, discretes, tags, start + i);
      }
      assert c.bits == d.bits;
    }
  }

  /** The points of a coil write: one per address, in order, up to the first missing coil or the end of the data. */
  lemma {:induction false} BitWritePoints(table: Table, bits: seq<int>, addr: int, stop: int, idx: nat)
    requires addr <= stop
    ensures var w := BitWrite(table, bits, addr, stop, idx);
            && |w.points| <= stop - addr
            && (forall i :: 0 <= i < |w.points| ==> PointWritten(table, bits, w.points, addr, idx, i))
            && (w.end.Complete?
              <==> BitsConfigured(table, addr, stop) && (addr == stop || idx + (stop - addr) <= |bits|))
            && (w.end.Complete? ==> |w.points| == stop - addr)
    decreases stop - addr
  {
    if addr < stop && addr in table && idx < |bits| {
      BitWritePoints(table, bits, addr + 1, stop, idx + 1);
      var w, w' := BitWrite(table, bits, addr, stop, idx), BitWrite(table, bits, addr + 1, stop, idx + 1);
      forall i | 0 <= i < |w.points|
        ensures PointWritten(table, bits, w.points, addr, idx, i)
      {
        if i > 0 {
          assert PointWritten(table, bits, w'.points, addr + 1, idx + 1, i - 1);
        }
      }
    }
  }

  ghost predicate PointWritten(table: Table, bits: seq<int>, points: seq<Point>, addr: int, idx: nat, i: int)
    requires 0 <= i < |points|
  {
    addr + i in table && idx + i < |bits| && points[i] == Point(table[addr + i].tag, bits[idx + i] as real)
  }

  /** After a complete coil write over distinct tags, the coils read as the bits written. */
  lemma CoilsStored(table: Table, bits: seq<int>, addr: int, stop: int, tags: Tags)
    requires addr <= stop && stop - addr <= |bits| && BitsConfigured(table, addr, stop)
    requires DistinctBitTags(table, addr, stop)
    ensures var w := BitWrite(table, bits, addr, stop, 0); var o := BitWalk(table, Store(tags, w.points), addr, stop);
            && w.end == Complete
            && o.Bits? && |o.bits| == stop - addr
            && forall i :: 0 <= i < stop - addr ==> o.bits[i] == Normal(bits[i])
  {
    BitWritePoints(table, bits, addr, stop, 0);
    var w := BitWrite(table, bits, addr, stop, 0);
    var tags' := Store(tags, w.points);
    BitWalkBits(table, tags', addr, stop);
    var o := BitWalk(table, tags', addr, stop);
    forall i | 0 <= i < stop - addr
      ensures o.bits[i] == Normal(bits[i])
    {
      assert PointWritten(table, bits, w.points, addr, 0, i);
      var later := w.points[i + 1..];
      forall j | 0 <= j < |later|
        ensures later[j].tag != w.points[i].tag
      {
        assert PointWritten(table, bits, w.points, addr, 0, i + 1 + j);
      }
      StoredValue(tags, w.points, w.points[i].tag);
    }
  }

  /** Coils written and read back over distinct tags: the bits written, with the padding of the last byte cleared. */
  lemma CoilWriteThenRead(registers: Registers, frame: seq<byte>, tags: Tags, pushed: seq<seq<Point>>)
    requires Coil in registers && |frame| >= 4 && |frame| == 5 + ByteCount(Field(frame, 1))
    requires BitsConfigured(registers[Coil], Field(frame, 0), Field(frame, 0) + Field(frame, 1))
    requires DistinctBitTags(registers[Coil], Field(frame, 0), Field(frame, 0) + Field(frame, 1))
    ensures var count := Field(frame, 1);
            var e := Carried(WriteCoils(registers, frame), frame, true, tags, pushed);
            && e.response == Success(frame[..4])
            && BitResponse(registers[Coil], e.tags, frame[..4])
            == Success([ByteCount(count) % 256] + Pack(Unpack(frame[5..])[..count]))
  {
    var start, count := Field(frame, 0), Field(frame, 1);
    var bits := Unpack(frame[5..]);
    hide BitWalk, BitWrite, Store, Field, PackInto, BitsConfigured, DistinctBitTags, ShiftRight, Bit;
    EchoFields(frame);
    CoilsStored(registers[Coil], bits, start, start + count, tags);
    var e := Carried(WriteCoils(registers, frame), frame, true, tags, pushed);
    var read := BitWalk(registers[Coil], e.tags, start, start + count).bits;
    forall i | 0 <= i < count
      ensures read[i] == bits[i]
    {
      assert bits[i] == UnpackedBit(frame[5..], i);
    }
    assert read == bits[..count];
  }

  /** Packing the first count bits of some bytes is clearing the padding bits after them. */
  lemma PaddingCleared(data: seq<byte>, count: nat)
    requires |data| == ByteCount(count)
    ensures var r := Unpack(Pack(Unpack(data)[..count]));
            |r| == 8 * |data| && forall i: nat :: i < |r| ==> r[i] == if i < count then Unpack(data)[i] else 0
  {
    var bits := Unpack(data)[..count];
    UnpackPack(bits);
    forall i: nat | i < count
      ensures Normal(bits[i]) == bits[i]
    {
      assert bits[i] == UnpackedBit(data, i);
    }
  }
}
