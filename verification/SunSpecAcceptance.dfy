/**
 * Which lists of models the SunSpec server accepts, and which tags it then follows: exact conditions on the
 * configuration.
 */
module SunSpecAcceptance {
  import opened GoRuntime
  import opened MessageBus
  import opened SunSpecRegister
  import opened SunSpecDevice
  import opened SunSpecLayout

  // ---- the conditions ----

  /** A schema point of a known type, whose scale factor is a number, a name or absent. */
  predicate GoodPoint(q: SchemaPoint) {
    !q.scale.OtherScale? && !DataTypeOf(q).OtherDataType?
  }

  /** The type of the last of some points with a name. */
  function LastType(points: seq<SchemaPoint>, name: string): Option<DataType> {
    if points == [] then None
    else
      var q := points[|points| - 1];
      if q.name == name then Some(DataTypeOf(q)) else LastType(points[..|points| - 1], name)
  }

  /** The model has a schema of good points, and its elements name points of it or of the models before it. */
  predicate GoodModel(schemas: Schemas, before: seq<SchemaPoint>, m: ModelElement) {
    && m.id.Some? && m.id.value in schemas
    && (forall i :: 0 <= i < |schemas[m.id.value]| ==> GoodPoint(schemas[m.id.value][i]))
    && forall j :: 0 <= j < |m.points| ==> LastType(before + schemas[m.id.value], m.points[j].name).Some?
  }

  predicate GoodModels(schemas: Schemas, before: seq<SchemaPoint>, models: seq<ModelElement>)
    decreases models
  {
    models == []
    || (GoodModel(schemas, before, models[0]) && GoodModels(schemas, before + schemas[models[0].id.value], models[1..]))
  }

  /** The element makes its point follow the tag: its text is no number, and the point it names is not a string. */
  predicate Follow(points: seq<SchemaPoint>, e: PointElement, t: string) {
    e.text == t && e.number.None? && LastType(points, e.name).Some? && !IsString(LastType(points, e.name).value)
  }

  predicate ModelFollows(schemas: Schemas, before: seq<SchemaPoint>, m: ModelElement, t: string)
    requires m.id.Some? && m.id.value in schemas
  {
    exists j :: 0 <= j < |m.points| && Follow(before + schemas[m.id.value], m.points[j], t)
  }

  predicate ModelsFollow(schemas: Schemas, before: seq<SchemaPoint>, models: seq<ModelElement>, t: string)
    requires GoodModels(schemas, before, models)
    decreases models
  {
    models != []
    && (ModelFollows(schemas, before, models[0], t)
        || ModelsFollow(schemas, before + schemas[models[0].id.value], models[1..], t))
  }

  // ---- what configuration knows of the points so far ----

  ghost predicate TypeKnown(d: Device, points: seq<SchemaPoint>, n: string)
    requires d.Sound()
  {
    if n in d.points then LastType(points, n) == Some(d.registers[d.points[n]].dataType) else LastType(points, n).None?
  }

  ghost predicate Typed(d: Device, points: seq<SchemaPoint>) {
    d.Sound() && forall n :: TypeKnown(d, points, n)
  }

  lemma LastTypeMore(points: seq<SchemaPoint>, q: SchemaPoint, n: string)
    ensures LastType(points + [q], n) == if q.name == n then Some(DataTypeOf(q)) else LastType(points, n)
  {
    assert (points + [q])[..|points|] == points;
  }

  lemma PointTyped(b: Building, id: int, length: int, q: SchemaPoint, points: seq<SchemaPoint>)
    requires Typed(b.device, points)
    ensures var r := AddPoint(b, id, length, q); var d' := r.building.device;
            && (r.error.None? <==> GoodPoint(q))
            && (r.error.None? ==> Typed(d', points + [q]) && d'.tags == b.device.tags && r.building.model1 == b.model1)
  {
    InitChecks(Requested(id, length, q));
    var r := AddPoint(b, id, length, q);
    if r.error.None? {
      forall n
        ensures TypeKnown(r.building.device, points + [q], n)
      {
        assert TypeKnown(b.device, points, n);
        LastTypeMore(points, q, n);
      }
    }
  }

  lemma {:induction false} PointsTyped(b: Building, id: int, length: int, schema: Schema, points: seq<SchemaPoint>)
    requires Typed(b.device, points)
    ensures var r := AddPoints(b, id, length, schema); var d' := r.building.device;
            && (r.error.None? <==> forall i :: 0 <= i < |schema| ==> GoodPoint(schema[i]))
            && (r.error.None? ==>
                  Typed(d', points + schema) && d'.tags == b.device.tags && r.building.model1 == b.model1)
    decreases schema
  {
    hide Typed;
    TypedSound(b.device, points);
    if schema == [] {
      assert points + schema == points;
    } else {
      var q, rest := schema[0], schema[1..];
      PointTyped(b, id, length, q, points);
      if GoodPoint(q) {
        PointsTyped(AddPoint(b, id, length, q).building, id, length, rest, points + [q]);
        assert (points + [q]) + rest == points + schema;
        assert forall i :: 1 <= i < |schema| ==> schema[i] == rest[i - 1];
      }
    }
  }

  lemma OverrideTyped(b: Building, e: PointElement, points: seq<SchemaPoint>)
    requires Typed(b.device, points)
    ensures var r := Override(b, e); var d' := r.building.device;
            && (r.error.None? <==> LastType(points, e.name).Some?)
            && (r.error.None? ==> Typed(d', points) && r.building.model1 == b.model1)
            && (r.error.None? ==> forall t :: t in d'.tags <==> t in b.device.tags || Follow(points, e, t))
  {
    assert TypeKnown(b.device, points, e.name);
    var r := Override(b, e);
    if r.error.None? {
      forall n
        ensures TypeKnown(r.building.device, points, n)
      {
        assert TypeKnown(b.device, points, n);
      }
    }
  }

  predicate AnyFollows(points: seq<SchemaPoint>, elements: seq<PointElement>, t: string) {
    exists j :: 0 <= j < |elements| && Follow(points, elements[j], t)
  }

  lemma AnyFollowsFirst(points: seq<SchemaPoint>, elements: seq<PointElement>, t: string)
    requires elements != []
    ensures AnyFollows(points, elements, t) <==> Follow(points, elements[0], t) || AnyFollows(points, elements[1..], t)
  {
    assert forall j :: 1 <= j < |elements| ==> elements[j] == elements[1..][j - 1];
    if AnyFollows(points, elements[1..], t) {
      var j :| 0 <= j < |elements[1..]| && Follow(points, elements[1..][j], t);
      assert elements[j + 1] == elements[1..][j];
    }
  }

  lemma {:induction false} OverridesTyped(b: Building, elements: seq<PointElement>, points: seq<SchemaPoint>)
    requires Typed(b.device, points)
    ensures var r := Overrides(b, elements); var d' := r.building.device;
            && (r.error.None? <==> forall j :: 0 <= j < |elements| ==> LastType(points, elements[j].name).Some?)
            && (r.error.None? ==> Typed(d', points) && r.building.model1 == b.model1)
            && (r.error.None? ==> forall t :: t in d'.tags <==> t in b.device.tags || AnyFollows(points, elements, t))
    decreases elements
  {
    hide Typed, LastType, Follow;
    if elements != [] {
      TypedSound(b.device, points);
      OverrideTyped(b, elements[0], points);
      if LastType(points, elements[0].name).Some? {
        var b' := Override(b, elements[0]).building;
        OverridesTyped(b', elements[1..], points);
        assert forall j :: 1 <= j < |elements| ==> elements[j] == elements[1..][j - 1];
        forall t | Overrides(b, elements).error.None?
          ensures t in Overrides(b, elements).building.device.tags
             <==> t in b.device.tags || AnyFollows(points, elements, t)
        {
          AnyFollowsFirst(points, elements, t);
        }
      }
    }
  }

  lemma TypedSound(d: Device, points: seq<SchemaPoint>)
    requires Typed(d, points)
    ensures d.Sound()
  {
  }

  lemma ModelTyped(schemas: Schemas, b: Building, m: ModelElement, points: seq<SchemaPoint>)
    requires Typed(b.device, points)
    ensures var r := AddModel(schemas, b, m); var d' := r.building.device;
            && (r.error.None? <==> GoodModel(schemas, points, m))
            && (r.error.None? ==>
                  Typed(d', points + schemas[m.id.value]) && (r.building.model1 <==> b.model1 || m.id == Some(1)))
            && (r.error.None? ==>
                  forall t :: t in d'.tags <==> t in b.device.tags || ModelFollows(schemas, points, m, t))
  {
    hide Typed, LastType, Follow;
    TypedSound(b.device, points);
    if m.id.Some? && m.id.value in schemas {
      var schema := schemas[m.id.value];
      PointsTyped(b, m.id.value, ModelLength(schema), schema, points);
      if forall i :: 0 <= i < |schema| ==> GoodPoint(schema[i]) {
        OverridesTyped(AddPoints(b, m.id.value, ModelLength(schema), schema).building, m.points, points + schema);
      }
    }
  }

  lemma GoodModelListed(schemas: Schemas, points: seq<SchemaPoint>, m: ModelElement)
    requires GoodModel(schemas, points, m)
    ensures m.id.Some? && m.id.value in schemas
  {
  }

  lemma {:induction false} ModelsTyped(schemas: Schemas, b: Building, models: seq<ModelElement>,
                                       points: seq<SchemaPoint>)
    requires Typed(b.device, points)
    ensures var r := AddModels(schemas, b, models); var d' := r.building.device;
            && (r.error.None? <==> GoodModels(schemas, points, models))
            && (r.error.None? ==> (r.building.model1 <==> b.model1 || HasModel(models, 1)))
            && (r.error.None? ==>
                  forall t :: t in d'.tags <==> t in b.device.tags || ModelsFollow(schemas, points, models, t))
    decreases models
  {
    hide Typed, GoodModel, ModelFollows, AddModel, HasModel;
    TypedSound(b.device, points);
    if models == [] {
      NoModel(1);
    } else {
      ModelTyped(schemas, b, models[0], points);
      HasModelFirst(models, 1);
      if GoodModel(schemas, points, models[0]) {
        GoodModelListed(schemas, points, models[0]);
        ModelsTyped(schemas, AddModel(schemas, b, models[0]).building, models[1..],
                    points + schemas[models[0].id.value]);
      }
    }
  }

  lemma BeginTyped()
    ensures Typed(Begin(EMPTY).device, []) && Begin(EMPTY).device.tags == map[] && !Begin(EMPTY).model1
  {
    forall n
      ensures TypeKnown(Begin(EMPTY).device, [], n)
    {
    }
  }

  // ---- the main results ----

  /**
   * A list of models is accepted exactly if each has a schema of good points and names only points that exist by
   * then, and a model 1 is among them, wherever in the list.
   */
  lemma ConfigureAccepts(schemas: Schemas, models: seq<ModelElement>)
    ensures var error := Configured(schemas, EMPTY, models).1;
            && (error.None? <==> GoodModels(schemas, [], models) && HasModel(models, 1))
            && (error == Some(NoModel1) <==> GoodModels(schemas, [], models) && !HasModel(models, 1))
  {
    BeginTyped();
    ModelsTyped(schemas, Begin(EMPTY), models, []);
    OtherErrors(schemas, Begin(EMPTY), models);
  }

  /** Only the missing model 1 is reported after all models are done. */
  lemma {:induction false} OtherErrors(schemas: Schemas, b: Building, models: seq<ModelElement>)
    requires b.device.Sound()
    ensures AddModels(schemas, b, models).error != Some(NoModel1)
    decreases models
  {
    if models != [] {
      AddModelError(schemas, b, models[0]);
      OtherErrors(schemas, AddModel(schemas, b, models[0]).building, models[1..]);
    }
  }

  lemma AddModelError(schemas: Schemas, b: Building, m: ModelElement)
    requires b.device.Sound()
    ensures AddModel(schemas, b, m).error != Some(NoModel1)
  {
    if m.id.Some? && m.id.value in schemas {
      var schema := schemas[m.id.value];
      PointsError(b, m.id.value, ModelLength(schema), schema);
      ElementsError(AddPoints(b, m.id.value, ModelLength(schema), schema).building, m.points);
    }
  }

  lemma {:induction false} PointsError(b: Building, id: int, length: int, schema: Schema)
    requires b.device.Sound()
    ensures AddPoints(b, id, length, schema).error != Some(NoModel1)
    decreases schema
  {
    if schema != [] {
      PointsError(AddPoint(b, id, length, schema[0]).building, id, length, schema[1..]);
    }
  }

  lemma {:induction false} ElementsError(b: Building, elements: seq<PointElement>)
    requires b.device.Sound()
    ensures Overrides(b, elements).error != Some(NoModel1)
    decreases elements
  {
    if elements != [] {
      ElementsError(Override(b, elements[0]).building, elements[1..]);
    }
  }

  /** The tags of a fresh server are exactly the texts that make a point follow them, each at zero. */
  lemma FollowedTags(schemas: Schemas, models: seq<ModelElement>)
    requires GoodModels(schemas, [], models)
    ensures var tags := Configured(schemas, EMPTY, models).0.tags;
            Clean(tags) && forall t :: t in tags <==> ModelsFollow(schemas, [], models, t)
  {
    BeginTyped();
    ModelsTyped(schemas, Begin(EMPTY), models, []);
    ConfiguredTags(schemas, models);
  }
}
