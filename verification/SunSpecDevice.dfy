/**
 * The SunSpec server's state and its configuration, step by step.
 *
 * The source keeps pointers to registers in two maps, one by address and one by point name, so that a
 * change made through a name shows at the address. Here the registers live in a sequence in order of
 * creation, and both maps hold positions in it: sharing a position is sharing the register.
 */
module SunSpecDevice {
  import opened Bytes
  import opened GoRuntime
  import opened MessageBus
  import opened RegisterWalk
  import opened SunSpecRegister

  const SUNSPEC_IDENTIFIER := 1400204883
  const BASE := 40000
  const FIRST_MODEL := 40002
  const END_ID := 65535

  const IDENTIFIER := Register(UInt32, "SunSpec_Identifier", 0, 2, 0.0, "", "", SUNSPEC_IDENTIFIER as real, "")
  const END_REGISTER := Register(UInt16, "SunSpec_EndRegister", 0, 1, 0.0, "", "", END_ID as real, "")
  const END_LENGTH := Register(UInt16, "SunSpec_EndRegister_Length", 0, 1, 0.0, "", "", 0.0, "")

  // ---- schemas and configuration ----

  datatype PointType = StringType | ValueType(dataType: DataType)

  /** A scale factor as the schema gives it: absent, a number, the name of another point, or something else. */
  datatype ScaleFactor = NoScale | IntScale(k: int) | FloatScale(x: real) | NamedScale(name: string) | OtherScale

  datatype SchemaPoint = SchemaPoint(name: string, pointType: PointType, size: int, scale: ScaleFactor, writable: bool)

  type Schema = seq<SchemaPoint>
  type Schemas = map<int, Schema>

  /** A configured point: its text, and the text as a number if it is one. */
  datatype PointElement = PointElement(name: string, text: string, number: Option<real>)

  /** A configured model; None for an id that is missing or not a number. */
  datatype ModelElement = ModelElement(id: Option<int>, points: seq<PointElement>)

  function DataTypeOf(q: SchemaPoint): DataType {
    match q.pointType
    case ValueType(dt) => dt
    case StringType => if q.size == 8 then String8 else if q.size == 16 then String16 else OtherDataType("string")
  }

  /** The sum of the sizes of the points after the first two. */
  function ModelLength(schema: Schema): int {
    if |schema| <= 2 then 0 else ModelLength(schema[..|schema| - 1]) + schema[|schema| - 1].size
  }

  // ---- state ----

  datatype Device = Device(registers: seq<Register>, at: map<int, nat>, points: map<string, nat>, tags: Tags)
  {
    /** Both maps refer to registers that exist. */
    ghost predicate Sound() {
      && (forall a :: a in at ==> at[a] < |registers|)
      && (forall n :: n in points ==> points[n] < |registers|)
    }

    /** The scaling a register takes from another point; an unknown point is an error. */
    function ScalingOf(r: Register): Result<real>
      requires Sound()
    {
      if r.scaleRegister == "" then Ok(0.0)
      else if r.scaleRegister !in points then Err
      else Ok(registers[points[r.scaleRegister]].internalValue)
    }

    function TagOf(r: Register): Option<real> {
      if r.tag in tags then Some(tags[r.tag]) else None
    }

    function Encoded(p: Platform, r: Register): Result<seq<byte>>
      requires Sound()
    {
      match ScalingOf(r)
      case Ok(scaling) => Encode(p, r, TagOf(r), scaling)
      case Err => Err
      case Panic => Panic
    }

    /** The register map as a read walk sees it. */
    ghost function View(p: Platform): Cells
      requires Sound()
    {
      map a | a in at :: Cell(registers[at[a]].count, Encoded(p, registers[at[a]]))
    }
  }

  datatype ConfigError = MissingId | NoSchema | BadScale | UnknownType | NoSuchPoint | NoModel1

  /** A device under construction: the next free address, and whether model 1 was seen. */
  datatype Building = Building(device: Device, addr: int, model1: bool)

  datatype Built = Built(building: Building, error: Option<ConfigError>)

  // ---- one step each ----

  /** The register of a schema point, before Init. */
  function Requested(id: int, length: int, q: SchemaPoint): Register {
    var value := if q.name == "L" then length as real else if q.name == "ID" then id as real else 0.0;
    var scaling := match q.scale case IntScale(k) => k as real case FloatScale(x) => x case _ => 0.0;
    var scaleRegister := if q.scale.NamedScale? then q.scale.name else "";
    Register(DataTypeOf(q), q.name, id, 0, scaling, "", scaleRegister, value, "")
  }

  /** Puts a new register at the next free address and under its name. */
  function Place(b: Building, r: Register, size: int): (b': Building)
    requires b.device.Sound()
    ensures b'.device.Sound()
  {
    var d, n := b.device, |b.device.registers|;
    b.(device := d.(registers := d.registers + [r], at := d.at[b.addr := n], points := d.points[r.name := n]),
       addr := b.addr + size)
  }

  function AddPoint(b: Building, id: int, length: int, q: SchemaPoint): (r: Built)
    requires b.device.Sound()
    ensures r.building.device.Sound()
  {
    if q.scale.OtherScale? then Built(b, Some(BadScale))
    else match Init(Requested(id, length, q))
      case Ok(r) => Built(Place(b, r, q.size), None)
      case _ => Built(b, Some(UnknownType))
  }

  /** A register after its configuration element: a text, a number, or a tag to follow. */
  function Overridden(r: Register, e: PointElement): Register {
    if IsString(r.dataType) then r.(internalString := e.text)
    else if e.number.Some? then r.(internalValue := e.number.value)
    else r.(tag := e.text)
  }

  /** Changes the register last created under the element's name, and enters it at the next free address as well. */
  function Override(b: Building, e: PointElement): (r: Built)
    requires b.device.Sound()
    ensures r.building.device.Sound()
  {
    var d := b.device;
    if e.name !in d.points then Built(b, Some(NoSuchPoint))
    else
      var k := d.points[e.name];
      var r := d.registers[k];
      var tags := if IsString(r.dataType) || e.number.Some? then d.tags else d.tags[e.text := 0.0];
      Built(b.(device := d.(registers := d.registers[k := Overridden(r, e)], tags := tags,
                                at := d.at[b.addr := k])), None)
  }

  // ---- whole models ----

  function AddPoints(b: Building, id: int, length: int, schema: Schema): (r: Built)
    requires b.device.Sound()
    ensures r.building.device.Sound()
    decreases schema
  {
    if schema == [] then Built(b, None)
    else
      var s := AddPoint(b, id, length, schema[0]);
      if s.error.Some? then s else AddPoints(s.building, id, length, schema[1..])
  }

  function Overrides(b: Building, elements: seq<PointElement>): (r: Built)
    requires b.device.Sound()
    ensures r.building.device.Sound()
    decreases elements
  {
    if elements == [] then Built(b, None)
    else
      var s := Override(b, elements[0]);
      if s.error.Some? then s else Overrides(s.building, elements[1..])
  }

  function AddModel(schemas: Schemas, b: Building, m: ModelElement): (r: Built)
    requires b.device.Sound()
    ensures r.building.device.Sound()
  {
    if m.id.None? then Built(b, Some(MissingId))
    else if m.id.value !in schemas then Built(b, Some(NoSchema))
    else
      var schema := schemas[m.id.value];
      var s := AddPoints(b, m.id.value, ModelLength(schema), schema);
      if s.error.Some? then s
      else
        var o := Overrides(s.building, m.points);
        if o.error.Some? then o else Built(o.building.(model1 := o.building.model1 || m.id.value == 1), None)
  }

  function AddModels(schemas: Schemas, b: Building, models: seq<ModelElement>): (r: Built)
    requires b.device.Sound()
    ensures r.building.device.Sound()
    decreases models
  {
    if models == [] then Built(b, None)
    else
      var s := AddModel(schemas, b, models[0]);
      if s.error.Some? then s else AddModels(schemas, s.building, models[1..])
  }

  function Begin(d: Device): (b: Building)
    requires d.Sound()
    ensures b.device.Sound()
  {
    var n := |d.registers|;
    Building(d.(registers := d.registers + [IDENTIFIER], at := d.at[BASE := n]), FIRST_MODEL, false)
  }

  function Finish(b: Building): (d: Device)
    requires b.device.Sound()
    ensures d.Sound()
  {
    var d, n := b.device, |b.device.registers|;
    d.(registers := d.registers + [END_REGISTER, END_LENGTH], at := d.at[b.addr := n][b.addr + 1 := n + 1])
  }

  /** What Configure leaves behind, and the error it returns. */
  function Configured(schemas: Schemas, d: Device, models: seq<ModelElement>): (r: (Device, Option<ConfigError>))
    requires d.Sound()
    ensures r.0.Sound()
  {
    var s := AddModels(schemas, Begin(d), models);
    if s.error.Some? then (s.building.device, s.error)
    else (Finish(s.building), if s.building.model1 then None else Some(NoModel1))
  }
}
