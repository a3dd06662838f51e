/** The SunSpec server module: configuration of the register map, the read handler and the status handler. */
module SunSpecServer {
  import opened Bytes
  import opened GoRuntime
  import opened MessageBus
  import opened RegisterWalk
  import opened SunSpecRegister
  import opened SunSpecDevice

  /** GetModelLength. */
  method GetModelLength(schema: Schema) returns (length: int)
    ensures length == ModelLength(schema)
  {
    length := 0;
    for idx := 0 to |schema|
      invariant length == ModelLength(schema[..idx])
    {
      assert schema[..idx + 1][..idx] == schema[..idx];
      if idx < 2 { continue; }
      length := length + schema[idx].size;
    }
    assert schema[..|schema|] == schema;
  }

  class SunSpecServer {
    const platform: Platform
    const name: string
    const schemas: Schemas

    /** Every register created, in order; the two maps below refer to them by position. */
    var registers: seq<Register>
    var at: map<int, nat>
    var points: map<string, nat>
    var tags: Tags

    ghost function State(): Device
      reads this
    {
      Device(registers, at, points, tags)
    }

    /** Both tables refer to registers that exist, each at least one word wide. */
    ghost predicate Valid()
      reads this
    {
      State().Sound() && forall k :: 0 <= k < |registers| ==> registers[k].count >= 1
    }

    constructor (platform: Platform, name: string, schemas: Schemas)
      ensures Valid() && State() == Device([], map[], map[], map[])
      ensures this.platform == platform && this.name == name && this.schemas == schemas
    {
      this.platform, this.name, this.schemas := platform, name, schemas;
      registers, at, points, tags := [], map[], map[], map[];
    }

    method Configure(models: seq<ModelElement>) returns (error: Option<ConfigError>)
      requires Valid()
      modifies this
      ensures Valid()
      ensures (State(), error) == Configured(schemas, old(State()), models)
    {
      hide AddPoints, Overrides, ModelLength;
      ghost var start := Begin(State());
      at := at[BASE := |registers|];
      registers := registers + [IDENTIFIER];
      var addr, model1 := FIRST_MODEL, false;
      for i := 0 to |models|
        invariant Valid()
        invariant AddModels(schemas, start, models) == AddModels(schemas, Building(State(), addr, model1), models[i..])
      {
        var m := models[i];
        assert models[i..][0] == m && models[i..][1..] == models[i + 1..];
        if m.id.None? { return Some(MissingId); }
        var id := m.id.value;
        if id !in schemas { return Some(NoSchema); }
        var failed;
        failed, addr := CreatePoints(id, schemas[id], addr, model1);
        if failed.Some? { return failed; }
        failed := ApplyElements(m.points, addr, model1);
        if failed.Some? { return failed; }
        if id == 1 {
          model1 := true;
        }
      }
      ghost var built := Building(State(), addr, model1);
      at := at[addr := |registers|][addr + 1 := |registers| + 1];
      registers := registers + [END_REGISTER, END_LENGTH];
      assert State() == Finish(built);
      if !model1 { return Some(NoModel1); }
      return None;
    }

    /** The loop over the points of a model's schema. */
    method CreatePoints(id: int, schema: Schema, start: int, ghost model1: bool)
      returns (error: Option<ConfigError>, addr: int)
      requires Valid()
      modifies this
      ensures Valid()
      ensures Built(Building(State(), addr, model1), error)
           == AddPoints(Building(old(State()), start, model1), id, ModelLength(schema), schema)
    {
      var length := GetModelLength(schema);
      ghost var b := Building(State(), start, model1);
      addr := start;
      for i := 0 to |schema|
        invariant Valid()
        invariant AddPoints(b, id, length, schema)
             == AddPoints(Building(State(), addr, model1), id, length, schema[i..])
      {
        var q := schema[i];
        assert schema[i..][0] == q && schema[i..][1..] == schema[i + 1..];
        if q.scale.OtherScale? { return Some(BadScale), addr; }
        match Init(Requested(id, length, q)) {
          case Ok(r) =>
            InitChecks(Requested(id, length, q));
            ghost var before := Building(State(), addr, model1);
            at := at[addr := |registers|];
            points := points[r.name := |registers|];
            registers := registers + [r];
            addr := addr + q.size;
            assert Building(State(), addr, model1) == Place(before, r, q.size);
            assert AddPoint(before, id, length, q) == Built(Place(before, r, q.size), None);
          case _ => return Some(UnknownType), addr;
        }
      }
      return None, addr;
    }

    /** The loop over the configured points of a model. */
    method ApplyElements(elements: seq<PointElement>, addr: int, ghost model1: bool)
      returns (error: Option<ConfigError>)
      requires Valid()
      modifies this
      ensures Valid()
      ensures Built(Building(State(), addr, model1), error) == Overrides(Building(old(State()), addr, model1), elements)
    {
      ghost var b := Building(State(), addr, model1);
      for i := 0 to |elements|
        invariant Valid()
        invariant Overrides(b, elements) == Overrides(Building(State(), addr, model1), elements[i..])
      {
        var e := elements[i];
        assert elements[i..][0] == e && elements[i..][1..] == elements[i + 1..];
        if e.name !in points { return Some(NoSuchPoint); }
        ghost var before := Building(State(), addr, model1);
        var k := points[e.name];
        var r := registers[k];
        if IsString(r.dataType) {
          r := r.(internalString := e.text);
        } else if e.number.Some? {
          r := r.(internalValue := e.number.value);
        } else {
          tags := tags[e.text := 0.0];
          r := r.(tag := e.text);
        }
        registers := registers[k := r];
        at := at[addr := k];
        assert Building(State(), addr, model1) == Override(before, e).building;
      }
      return None;
    }

    method ReadHoldingRegisters(frame: seq<byte>) returns (r: Response)
      requires Valid()
      ensures Advancing(State().View(platform)) && r == ReadResponse(State().View(platform), frame)
    {
      ghost var cells := State().View(platform);
      assert forall a :: Mirrors(platform, State(), cells, a);
      r := ReadRegisters(platform, Device(registers, at, points, tags), frame, cells);
    }

    /**
     * A status message from another module sets the tags that the configuration mentions; None stands for any other
     * kind of message.
     */
    method HandleMsgBusStatus(sender: string, status: Option<seq<Point>>)
      modifies this`tags
      ensures tags == if sender == name || status.None? then old(tags) else Followed(old(tags), status.value)
    {
      if sender == name || status.None? { return; }
      var measurements := status.value;
      for i := 0 to |measurements|
        invariant Followed(old(tags), measurements) == Followed(tags, measurements[i..])
      {
        var point := measurements[i];
        assert measurements[i..][0] == point && measurements[i..][1..] == measurements[i + 1..];
        if point.tag in tags {
          tags := tags[point.tag := point.value];
        }
      }
    }
  }

  /** The cell seen at an address, if there is one. */
  ghost predicate Mirrors(p: Platform, d: Device, cells: Cells, a: int)
    requires d.Sound()
  {
    && (a in cells <==> a in d.at)
    && (a in d.at ==> cells[a] == Cell(d.registers[d.at[a]].count, d.Encoded(p, d.registers[d.at[a]])))
  }

  /** The loop of ReadHoldingRegisters. */
  method ReadRegisters(platform: Platform, d: Device, frame: seq<byte>, ghost cells: Cells) returns (r: Response)
    requires d.Sound() && Advancing(cells)
    requires forall a :: Mirrors(platform, d, cells, a)
    ensures r == ReadResponse(cells, frame)
  {
    if |frame| < 4 { return Crash; }
    var start := Field(frame, 0);
    var count := Field(frame, 1);
    var size: nat, data, addr := 0, [], start as int;
    while addr < start + count
      invariant Walk(cells, start, start + count) == Prepend(data, size, Walk(cells, addr, start + count))
    {
      assert Mirrors(platform, d, cells, addr);
      if addr !in d.at { return Failure(IllegalDataAddress); }
      var reg := d.registers[d.at[addr]];
      var scaling := 0.0;
      if reg.scaleRegister != "" {
        if reg.scaleRegister !in d.points { return Failure(SlaveDeviceFailure); }
        scaling := d.registers[d.points[reg.scaleRegister]].internalValue;
      }
      var value := if reg.tag in d.tags then Some(d.tags[reg.tag]) else None;
      assert cells[addr].bytes == Encode(platform, reg, value, scaling);
      match Encode(platform, reg, value, scaling) {
        case Ok(buf) =>
          WalkOn(cells, data, size, addr, start + count);
          size := size + reg.count * 2;
          data := data + buf;
          addr := addr + reg.count;
        case Err => return Failure(SlaveDeviceFailure);
        case Panic => return Crash;
      }
    }
    return Success([size % 256] + data);
  }

  /** The tags after storing the points whose tag is already there. */
  function Followed(tags: Tags, points: seq<Point>): Tags
    decreases points
  {
    if points == [] then tags
    else Followed(if points[0].tag in tags then tags[points[0].tag := points[0].value] else tags, points[1..])
  }

  /** Status messages never add or remove a tag. */
  lemma {:induction false} FollowedKeys(tags: Tags, points: seq<Point>)
    ensures Followed(tags, points).Keys == tags.Keys
    decreases points
  {
    if points != [] {
      FollowedKeys(if points[0].tag in tags then tags[points[0].tag := points[0].value] else tags, points[1..]);
    }
  }

  /** A tag that is known ends with the value of its last point, as if all points were stored. */
  lemma {:induction false} FollowedLikeStored(tags: Tags, all: Tags, points: seq<Point>, t: string)
    requires t in tags && t in all && tags[t] == all[t]
    ensures t in Followed(tags, points) && t in Store(all, points) && Followed(tags, points)[t] == Store(all, points)[t]
    decreases points
  {
    if points != [] {
      var q := points[0];
      FollowedLikeStored(if q.tag in tags then tags[q.tag := q.value] else tags, all[q.tag := q.value], points[1..], t);
    }
  }
}
