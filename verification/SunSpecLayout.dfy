/**
 * What configuration makes of the register map: registers laid end to end from address 40000, one for every
 * schema point of every model in order, closed by the end marker, with nothing between and nothing left over.
 */
module SunSpecLayout {
  import opened Bytes
  import opened GoRuntime
  import opened MessageBus
  import opened RegisterWalk
  import opened SunSpecRegister
  import opened SunSpecDevice

  /** The device before configuration. */
  const EMPTY := Device([], map[], map[], map[])

  // ---- where registers start ----

  /** The address of the k-th register when the registers lie end to end. */
  function Start(registers: seq<Register>, k: nat): int
    requires k <= |registers|
  {
    if k == 0 then BASE else Start(registers, k - 1) + registers[k - 1].count
  }

  predicate Wide(registers: seq<Register>) {
    forall k :: 0 <= k < |registers| ==> registers[k].count >= 1
  }

  predicate SameCounts(xs: seq<Register>, ys: seq<Register>, n: nat)
    requires n <= |xs| && n <= |ys|
  {
    forall k :: 0 <= k < n ==> xs[k].count == ys[k].count
  }

  lemma {:induction false} StartOfCounts(xs: seq<Register>, ys: seq<Register>, n: nat)
    requires n <= |xs| && n <= |ys| && SameCounts(xs, ys, n)
    ensures forall k: nat :: k <= n ==> Start(xs, k) == Start(ys, k)
  {
    if n > 0 {
      StartOfCounts(xs, ys, n - 1);
    }
  }

  lemma {:induction false} StartIncreases(registers: seq<Register>, j: nat, k: nat)
    requires j <= k <= |registers| && Wide(registers)
    ensures Start(registers, k) >= Start(registers, j) + (k - j)
  {
    if j < k {
      StartIncreases(registers, j, k - 1);
    }
  }

  // ---- layout of a device under construction ----

  /** The register k is found at its own start. */
  predicate FoundAt(d: Device, k: nat)
    requires k < |d.registers|
  {
    Start(d.registers, k) in d.at && d.at[Start(d.registers, k)] == k
  }

  predicate IsStart(registers: seq<Register>, a: int) {
    exists k: nat :: k < |registers| && a == Start(registers, k)
  }

  /** Every register at its start, and no other address in use except perhaps the next free one. */
  ghost predicate Laid(b: Building) {
    var d := b.device;
    && d.Sound() && Wide(d.registers)
    && b.addr == Start(d.registers, |d.registers|)
    && (forall k: nat :: k < |d.registers| ==> FoundAt(d, k))
    && (forall a :: a in d.at ==> a == b.addr || IsStart(d.registers, a))
  }

  /** The finished map: exactly the starts of the registers are in use, each for its own register. */
  ghost predicate Tiled(d: Device) {
    && d.Sound() && Wide(d.registers)
    && (forall k: nat :: k < |d.registers| ==> FoundAt(d, k))
    && (forall a :: a in d.at ==> IsStart(d.registers, a))
  }

  /** Names refer to registers that bear them, never to the identifier. */
  predicate Named(d: Device) {
    forall n :: n in d.points ==> 1 <= d.points[n] < |d.registers| && d.registers[d.points[n]].name == n
  }

  /** Every register but the identifier and the last few can be found by its name. */
  predicate AllNamed(d: Device, last: nat) {
    forall k :: 1 <= k < |d.registers| - last ==> d.registers[k].name in d.points
  }

  // ---- what each register stays ----

  predicate Reserved(name: string) {
    name == "ID" || name == "L"
  }

  /** Overrides change contents only, and not at all those of ID and L. */
  predicate Kin(r: Register, base: Register) {
    && r == base.(tag := r.tag, internalValue := r.internalValue, internalString := r.internalString)
    && (Reserved(base.name) ==> r == base)
    && (IsString(base.dataType) ==> r.tag == base.tag)
  }

  predicate AllKin(registers: seq<Register>, bases: seq<Register>) {
    && |registers| == |bases|
    && |registers| >= 1 && registers[0] == IDENTIFIER == bases[0]
    && forall k :: 0 <= k < |registers| ==> Kin(registers[k], bases[k])
  }

  function BaseOf(id: int, length: int, q: SchemaPoint): Register {
    match Init(Requested(id, length, q)) case Ok(r) => r case _ => IDENTIFIER
  }

  function PointBases(id: int, length: int, schema: Schema): (bases: seq<Register>)
    ensures |bases| == |schema|
    ensures forall i :: 0 <= i < |schema| ==> bases[i] == BaseOf(id, length, schema[i])
  {
    if schema == [] then [] else [BaseOf(id, length, schema[0])] + PointBases(id, length, schema[1..])
  }

  /** The registers that a list of models is laid out as, before overrides. */
  function Bases(schemas: Schemas, models: seq<ModelElement>): seq<Register> {
    if models == [] then []
    else ModelBases(schemas, models[0]) + Bases(schemas, models[1..])
  }

  function ModelBases(schemas: Schemas, m: ModelElement): seq<Register> {
    if m.id.None? || m.id.value !in schemas then []
    else PointBases(m.id.value, ModelLength(schemas[m.id.value]), schemas[m.id.value])
  }

  // ---- conditions on the configuration ----

  /** The schema's sizes are the widths of its data types, all of which the source knows. */
  predicate SizesMatch(schema: Schema) {
    forall i :: 0 <= i < |schema| ==> schema[i].size == Width(DataTypeOf(schema[i])) >= 1
  }

  predicate LeavesHeaders(elements: seq<PointElement>) {
    forall i :: 0 <= i < |elements| ==> !Reserved(elements[i].name)
  }

  predicate Regular(schemas: Schemas, models: seq<ModelElement>) {
    forall i :: 0 <= i < |models| ==>
      LeavesHeaders(models[i].points)
      && (models[i].id.Some? && models[i].id.value in schemas ==> SizesMatch(schemas[models[i].id.value]))
  }

  // ---- the steps keep the layout ----

  lemma PlaceKeeps(b: Building, r: Register, size: int)
    requires Laid(b) && Named(b.device) && r.count == size >= 1 && |b.device.registers| >= 1
    ensures Laid(Place(b, r, size)) && Named(Place(b, r, size).device)
  {
    var d, d' := b.device, Place(b, r, size).device;
    var n := |d.registers|;
    StartOfCounts(d.registers, d'.registers, n);
    forall k: nat | k < |d'.registers|
      ensures FoundAt(d', k)
    {
      if k < n {
        assert FoundAt(d, k);
        StartIncreases(d.registers, k, n);
      }
    }
    forall a | a in d'.at && a != Start(d'.registers, n + 1)
      ensures IsStart(d'.registers, a)
    {
      if a in d.at && a != b.addr {
        var k: nat :| k < n && a == Start(d.registers, k);
        assert a == Start(d'.registers, k);
      } else {
        assert a == Start(d'.registers, n);
      }
    }
  }

  lemma OverrideKeeps(b: Building, e: PointElement)
    requires Laid(b) && Named(b.device) && Override(b, e).error.None?
    ensures var b' := Override(b, e).building; Laid(b') && Named(b'.device) && b'.addr == b.addr
  {
    var d, d' := b.device, Override(b, e).building.device;
    var n := |d.registers|;
    StartOfCounts(d.registers, d'.registers, n);
    forall k: nat | k < n
      ensures FoundAt(d', k)
    {
      assert FoundAt(d, k);
      StartIncreases(d.registers, k, n);
    }
    forall a | a in d'.at && a != b.addr
      ensures IsStart(d'.registers, a)
    {
      var k: nat :| k < n && a == Start(d.registers, k);
      assert a == Start(d'.registers, k);
    }
  }

  /**
   * The entry that elements leave at the next free address is that of the register named last; it lasts until the next
   * register or the end marker takes the address.
   */
  lemma {:induction false} EntryLeft(b: Building, elements: seq<PointElement>)
    requires b.device.Sound() && elements != [] && Overrides(b, elements).error.None?
    ensures var last, d' := elements[|elements| - 1].name, Overrides(b, elements).building.device;
            && last in b.device.points && d'.points == b.device.points
            && d'.at == b.device.at[b.addr := b.device.points[last]]
    decreases elements
  {
    var b', rest := Override(b, elements[0]).building, elements[1..];
    if rest == [] {
      assert Overrides(b', rest) == Built(b', None);
    } else {
      EntryLeft(b', rest);
      assert rest[|rest| - 1] == elements[|elements| - 1];
    }
  }

  lemma OverrideKin(b: Building, e: PointElement, bases: seq<Register>)
    requires b.device.Sound() && Named(b.device) && AllKin(b.device.registers, bases) && !Reserved(e.name)
    requires Override(b, e).error.None?
    ensures AllKin(Override(b, e).building.device.registers, bases)
  {
    var d := b.device;
    var k := d.points[e.name];
    assert Kin(d.registers[k], bases[k]);
  }

  // ---- the loops keep the layout ----

  lemma PlaceKin(b: Building, r: Register, size: int, bases: seq<Register>)
    requires b.device.Sound() && AllKin(b.device.registers, bases)
    ensures AllKin(Place(b, r, size).device.registers, bases + [r])
  {
  }

  /** What a stretch of configuration keeps and adds. */
  ghost predicate Grown(b: Building, bases: seq<Register>) {
    Laid(b) && Named(b.device) && AllNamed(b.device, 0) && AllKin(b.device.registers, bases)
  }

  lemma PointLaid(b: Building, id: int, length: int, q: SchemaPoint, bases: seq<Register>)
    requires Grown(b, bases) && q.size == Width(DataTypeOf(q)) >= 1
    requires AddPoint(b, id, length, q).error.None?
    ensures var r := Init(Requested(id, length, q)); var b' := AddPoint(b, id, length, q).building;
            r.Ok? && b' == Place(b, r.value, q.size) && Grown(b', bases + [r.value])
  {
    var r := Init(Requested(id, length, q)).value;
    InitChecks(Requested(id, length, q));
    PlaceKeeps(b, r, q.size);
    PlaceKin(b, r, q.size, bases);
  }

  lemma {:induction false} PointsLaid(b: Building, id: int, length: int, schema: Schema, bases: seq<Register>)
    requires Grown(b, bases) && SizesMatch(schema)
    requires AddPoints(b, id, length, schema).error.None?
    ensures var b' := AddPoints(b, id, length, schema).building;
            Grown(b', bases + PointBases(id, length, schema)) && b'.model1 == b.model1
    decreases schema
  {
    if schema == [] {
      assert bases + PointBases(id, length, schema) == bases;
    } else {
      PointLaid(b, id, length, schema[0], bases);
      var r := Init(Requested(id, length, schema[0])).value;
      PointsLaid(AddPoint(b, id, length, schema[0]).building, id, length, schema[1..], bases + [r]);
      Concatenated(bases, [r], PointBases(id, length, schema[1..]));
    }
  }

  lemma {:induction false} OverridesLaid(b: Building, elements: seq<PointElement>, bases: seq<Register>)
    requires Grown(b, bases) && LeavesHeaders(elements)
    requires Overrides(b, elements).error.None?
    ensures var b' := Overrides(b, elements).building; Grown(b', bases) && b'.model1 == b.model1
    decreases elements
  {
    if elements != [] {
      OverrideKeeps(b, elements[0]);
      OverrideKin(b, elements[0], bases);
      OverridesLaid(Override(b, elements[0]).building, elements[1..], bases);
    }
  }

  predicate HasModel(models: seq<ModelElement>, id: int) {
    exists i :: 0 <= i < |models| && models[i].id == Some(id)
  }

  lemma ModelLaid(schemas: Schemas, b: Building, m: ModelElement, bases: seq<Register>)
    requires Grown(b, bases) && LeavesHeaders(m.points)
    requires m.id.Some? && m.id.value in schemas ==> SizesMatch(schemas[m.id.value])
    requires AddModel(schemas, b, m).error.None?
    ensures m.id.Some? && m.id.value in schemas
    ensures var b' := AddModel(schemas, b, m).building;
            Grown(b', bases + ModelBases(schemas, m)) && (b'.model1 <==> b.model1 || m.id == Some(1))
  {
    var id, schema := m.id.value, schemas[m.id.value];
    PointsLaid(b, id, ModelLength(schema), schema, bases);
    OverridesLaid(AddPoints(b, id, ModelLength(schema), schema).building, m.points, bases + ModelBases(schemas, m));
  }

  lemma {:induction false} ModelsLaid(schemas: Schemas, b: Building, models: seq<ModelElement>, bases: seq<Register>)
    requires Grown(b, bases) && Regular(schemas, models)
    requires AddModels(schemas, b, models).error.None?
    ensures var b' := AddModels(schemas, b, models).building;
            Grown(b', bases + Bases(schemas, models)) && (b'.model1 <==> b.model1 || HasModel(models, 1))
    ensures forall i :: 0 <= i < |models| ==> models[i].id.Some? && models[i].id.value in schemas
    decreases models
  {
    hide Grown, HasModel, SizesMatch, LeavesHeaders, AddModel, ModelBases;
    if models == [] {
      assert bases + Bases(schemas, models) == bases;
      NoModel(1);
    } else {
      GrownSound(b, bases);
      var b1 := AddModel(schemas, b, models[0]).building;
      var added, rest := ModelBases(schemas, models[0]), Bases(schemas, models[1..]);
      ModelLaid(schemas, b, models[0], bases);
      HasModelFirst(models, 1);
      assert Regular(schemas, models[1..]);
      assert AddModels(schemas, b, models) == AddModels(schemas, b1, models[1..]);
      ModelsLaid(schemas, b1, models[1..], bases + added);
      Concatenated(bases, added, rest);
    }
  }

  lemma Concatenated(a: seq<Register>, b: seq<Register>, c: seq<Register>)
    ensures a + (b + c) == (a + b) + c
  {
  }

  lemma GrownSound(b: Building, bases: seq<Register>)
    requires Grown(b, bases)
    ensures b.device.Sound()
  {
  }

  lemma NoModel(id: int)
    ensures !HasModel([], id)
  {
  }

  lemma HasModelFirst(models: seq<ModelElement>, id: int)
    requires models != []
    ensures HasModel(models, id) <==> models[0].id == Some(id) || HasModel(models[1..], id)
    ensures forall i :: 1 <= i < |models| ==> models[i] == models[1..][i - 1]
  {
    if HasModel(models[1..], id) {
      var i :| 0 <= i < |models[1..]| && models[1..][i].id == Some(id);
      assert models[i + 1].id == Some(id);
    }
    if HasModel(models, id) && models[0].id != Some(id) {
      var i :| 0 <= i < |models| && models[i].id == Some(id);
      assert models[1..][i - 1].id == Some(id);
    }
  }

  lemma BeginLaid()
    ensures var b := Begin(EMPTY); Grown(b, [IDENTIFIER])
  {
    var b := Begin(EMPTY);
    assert Start(b.device.registers, 0) == BASE && Start(b.device.registers, 1) == FIRST_MODEL;
    assert FoundAt(b.device, 0);
    assert IsStart(b.device.registers, BASE);
  }

  lemma FinishTiles(b: Building)
    requires Laid(b)
    ensures Tiled(Finish(b))
    ensures Start(Finish(b).registers, |b.device.registers|) == b.addr
  {
    var d, d' := b.device, Finish(b);
    var n := |d.registers|;
    StartOfCounts(d.registers, d'.registers, n);
    assert Start(d'.registers, n + 1) == b.addr + 1;
    forall k: nat | k < n + 2
      ensures FoundAt(d', k)
    {
      if k < n {
        assert FoundAt(d, k);
        StartIncreases(d.registers, k, n);
      }
    }
    forall a | a in d'.at
      ensures IsStart(d'.registers, a)
    {
      if a in d.at && a != b.addr {
        var k: nat :| k < n && a == Start(d.registers, k);
        assert a == Start(d'.registers, k);
      } else if a == b.addr {
        assert a == Start(d'.registers, n);
      } else {
        assert a == Start(d'.registers, n + 1);
      }
    }
  }

  // ---- the main results ----

  /**
   * Configuring a fresh server lays the identifier, every point of every model in order and the end marker
   * end to end from 40000; it succeeds only with a model 1, wherever in the list.
   */
  lemma ConfigureTiles(schemas: Schemas, models: seq<ModelElement>)
    requires Regular(schemas, models) && Configured(schemas, EMPTY, models).1.None?
    ensures var d := Configured(schemas, EMPTY, models).0; var bases := [IDENTIFIER] + Bases(schemas, models);
            && Tiled(d) && Named(d) && AllNamed(d, 2)
            && |d.registers| == |bases| + 2
            && AllKin(d.registers[..|bases|], bases)
            && d.registers[|bases|..] == [END_REGISTER, END_LENGTH]
    ensures HasModel(models, 1)
    ensures forall i :: 0 <= i < |models| ==> models[i].id.Some? && models[i].id.value in schemas
  {
    BeginLaid();
    ModelsLaid(schemas, Begin(EMPTY), models, [IDENTIFIER]);
    FinishTiles(AddModels(schemas, Begin(EMPTY), models).building);
  }

  /** In a tiled map every address from 40000 to the end belongs to exactly one register. */
  lemma {:induction false} ExactlyOneOwner(registers: seq<Register>, a: int, n: nat)
    requires Wide(registers) && n <= |registers| && BASE <= a < Start(registers, n)
    ensures exists k: nat :: k < n && Owns(registers, k, a)
    ensures forall j: nat, k: nat ::
              j < |registers| && k < |registers| && Owns(registers, j, a) && Owns(registers, k, a) ==> j == k
  {
    if a >= Start(registers, n - 1) {
      assert Owns(registers, n - 1, a);
    } else {
      ExactlyOneOwner(registers, a, n - 1);
      var k: nat :| k < n - 1 && Owns(registers, k, a);
      assert k < n;
    }
    forall j: nat, k: nat | j < |registers| && k < |registers| && Owns(registers, j, a) && Owns(registers, k, a)
      ensures j == k
    {
      if j < k { StartIncreases(registers, j + 1, k); }
      if k < j { StartIncreases(registers, k + 1, j); }
    }
  }

  predicate Owns(registers: seq<Register>, k: nat, a: int)
    requires k < |registers|
  {
    Start(registers, k) <= a < Start(registers, k) + registers[k].count
  }

  // ---- tags ----

  /** Some configured point follows this tag: its text is not a number. */
  predicate Follows(models: seq<ModelElement>, t: string) {
    exists i, j :: 0 <= i < |models| && 0 <= j < |models[i].points| &&
      models[i].points[j].text == t && models[i].points[j].number.None?
  }

  predicate Clean(tags: Tags) {
    forall t :: t in tags ==> tags[t] == 0.0
  }

  lemma {:induction false} PointsKeepTags(b: Building, id: int, length: int, schema: Schema)
    requires b.device.Sound()
    ensures AddPoints(b, id, length, schema).building.device.tags == b.device.tags
    decreases schema
  {
    if schema != [] && AddPoint(b, id, length, schema[0]).error.None? {
      PointsKeepTags(AddPoint(b, id, length, schema[0]).building, id, length, schema[1..]);
    }
  }

  lemma {:induction false} OverridesTags(b: Building, elements: seq<PointElement>)
    requires b.device.Sound()
    ensures var tags := Overrides(b, elements).building.device.tags;
            && (Clean(b.device.tags) ==> Clean(tags))
            && forall t :: t in tags && t !in b.device.tags ==>
                 exists j :: 0 <= j < |elements| && elements[j].text == t && elements[j].number.None?
    decreases elements
  {
    if elements != [] && Override(b, elements[0]).error.None? {
      var b' := Override(b, elements[0]).building;
      OverridesTags(b', elements[1..]);
      var tags := Overrides(b, elements).building.device.tags;
      forall t | t in tags && t !in b.device.tags
        ensures exists j :: 0 <= j < |elements| && elements[j].text == t && elements[j].number.None?
      {
        if t !in b'.device.tags {
          var j :| 0 <= j < |elements[1..]| && elements[1..][j].text == t && elements[1..][j].number.None?;
          assert elements[j + 1].text == t;
        }
      }
    }
  }

  lemma {:induction false} ModelsTags(schemas: Schemas, b: Building, models: seq<ModelElement>)
    requires b.device.Sound()
    ensures var tags := AddModels(schemas, b, models).building.device.tags;
            && (Clean(b.device.tags) ==> Clean(tags))
            && forall t :: t in tags && t !in b.device.tags ==> Follows(models, t)
    decreases models
  {
    if models != [] {
      var m := models[0];
      if m.id.Some? && m.id.value in schemas {
        var s := AddPoints(b, m.id.value, ModelLength(schemas[m.id.value]), schemas[m.id.value]);
        PointsKeepTags(b, m.id.value, ModelLength(schemas[m.id.value]), schemas[m.id.value]);
        OverridesTags(s.building, m.points);
        var b' := AddModel(schemas, b, m).building;
        ModelsTags(schemas, b', models[1..]);
        var tags := AddModels(schemas, b, models).building.device.tags;
        forall t | t in tags && t !in b.device.tags
          ensures Follows(models, t)
        {
          if t in b'.device.tags {
            var j :| 0 <= j < |m.points| && m.points[j].text == t && m.points[j].number.None?;
            assert models[0].points[j].text == t;
          } else {
            var i, j :| 0 <= i < |models[1..]| && 0 <= j < |models[1..][i].points| && models[1..][i].points[j].text == t
                     && models[1..][i].points[j].number.None?;
            assert models[i + 1].points[j].text == t;
          }
        }
      }
    }
  }

  /** A fresh configuration follows no other tags than the non-numeric texts it contains, each starting at zero. */
  lemma ConfiguredTags(schemas: Schemas, models: seq<ModelElement>)
    ensures var tags := Configured(schemas, EMPTY, models).0.tags;
            Clean(tags) && forall t :: t in tags ==> Follows(models, t)
  {
    ModelsTags(schemas, Begin(EMPTY), models);
  }
}
