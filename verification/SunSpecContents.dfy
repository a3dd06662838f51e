/**
 * What configuration puts into the registers of the SunSpec server: for every accepted list of models, the schema's
 * content of each point, changed by the elements that name it, in order. A name means the last point so far that
 * bears it, in whichever model.
 */
module SunSpecContents {
  import opened Bytes
  import opened Decimal
  import opened GoRuntime
  import opened MessageBus
  import opened SunSpecRegister
  import opened SunSpecDevice
  import opened SunSpecLayout
  import opened SunSpecAcceptance
  import opened SunSpecWire

  // ---- which elements name which point ----

  /** The last of some points with a name. */
  function LastIndex(points: seq<SchemaPoint>, name: string): (i: Option<nat>)
    ensures i.Some? ==> i.value < |points|
  {
    if points == [] then None
    else
      var n := |points| - 1;
      if points[n].name == name then Some(n) else LastIndex(points[..n], name)
  }

  /** The elements that name the i-th of some points. */
  function Naming(points: seq<SchemaPoint>, elements: seq<PointElement>, i: nat): seq<PointElement> {
    if elements == [] then []
    else (if LastIndex(points, elements[0].name) == Some(i) then [elements[0]] else [])
         + Naming(points, elements[1..], i)
  }

  /** The same over a list of models, each of whose elements see the points up to its own. */
  function NamingAll(schemas: Schemas, before: seq<SchemaPoint>, models: seq<ModelElement>, i: nat): seq<PointElement>
    requires GoodModels(schemas, before, models)
    decreases models
  {
    if models == [] then []
    else
      var points := before + schemas[models[0].id.value];
      Naming(points, models[0].points, i) + NamingAll(schemas, points, models[1..], i)
  }

  /** All points of a list of models. */
  function AllPoints(schemas: Schemas, before: seq<SchemaPoint>, models: seq<ModelElement>): seq<SchemaPoint>
    requires GoodModels(schemas, before, models)
    decreases models
  {
    if models == [] then before else AllPoints(schemas, before + schemas[models[0].id.value], models[1..])
  }

  // ---- what they make of it ----

  /** The last text that is not a number. */
  function LastText(elements: seq<PointElement>): Option<string> {
    if elements == [] then None
    else
      var e := elements[|elements| - 1];
      if e.number.None? then Some(e.text) else LastText(elements[..|elements| - 1])
  }

  function LastNumber(elements: seq<PointElement>): Option<real> {
    if elements == [] then None
    else
      var e := elements[|elements| - 1];
      if e.number.Some? then e.number else LastNumber(elements[..|elements| - 1])
  }

  /**
   * A string point has the last text. Any other follows the last text that is no number, as a tag, and has the last
   * number as its own value. What no element gives, it keeps.
   */
  ghost predicate Filled(r: Register, base: Register, elements: seq<PointElement>) {
    && r == base.(tag := r.tag, internalValue := r.internalValue, internalString := r.internalString)
    && if base.dataType == String8 || base.dataType == String16 then
         && r.internalString == (if elements == [] then base.internalString else elements[|elements| - 1].text)
         && r.tag == base.tag && r.internalValue == base.internalValue
       else
         && r.tag == (match LastText(elements) case Some(t) => t case None => base.tag)
         && r.internalValue == (match LastNumber(elements) case Some(x) => x case None => base.internalValue)
         && r.internalString == base.internalString
  }

  /** The tag that a point follows is in the tag table. */
  predicate TagKnown(tags: Tags, base: Register, elements: seq<PointElement>) {
    base.dataType == String8 || base.dataType == String16 || LastText(elements).None?
    || LastText(elements).value in tags
  }

  lemma FilledMore(r: Register, base: Register, elements: seq<PointElement>, e: PointElement)
    requires Filled(r, base, elements)
    ensures Filled(Overridden(r, e), base, elements + [e])
    ensures forall tags ::
              TagKnown(tags, base, elements) && (e.number.None? && !IsString(r.dataType) ==> e.text in tags)
              ==> TagKnown(tags, base, elements + [e])
  {
    assert (elements + [e])[..|elements|] == elements;
  }

  // ---- what configuration knows of the registers so far ----

  /** Register 1 + i is that of the i-th point, filled by the elements that named it. */
  ghost predicate Held(d: Device, points: seq<SchemaPoint>, bases: seq<Register>, named: seq<seq<PointElement>>) {
    && |d.registers| == 1 + |points| && |bases| == |named| == |points| && d.registers[0] == IDENTIFIER
    && (forall i :: 0 <= i < |points| ==> Filled(d.registers[1 + i], bases[i], named[i]))
    && (forall i :: 0 <= i < |points| ==> TagKnown(d.tags, bases[i], named[i]))
    && (forall n :: n in d.points <==> LastIndex(points, n).Some?)
    && (forall n :: n in d.points ==> d.points[n] == 1 + LastIndex(points, n).value)
  }

  lemma LastIndexMore(points: seq<SchemaPoint>, q: SchemaPoint, n: string)
    ensures LastIndex(points + [q], n) == if q.name == n then Some(|points|) else LastIndex(points, n)
  {
    assert (points + [q])[..|points|] == points;
  }

  lemma PointHeld(b: Building, id: int, length: int, q: SchemaPoint, points: seq<SchemaPoint>, bases: seq<Register>,
                  named: seq<seq<PointElement>>)
    requires b.device.Sound() && Held(b.device, points, bases, named) && GoodPoint(q)
    ensures AddPoint(b, id, length, q).error.None?
    ensures Held(AddPoint(b, id, length, q).building.device, points + [q], bases + [BaseOf(id, length, q)],
                 named + [[]])
  {
    var d, d' := b.device, AddPoint(b, id, length, q).building.device;
    forall n
      ensures LastIndex(points + [q], n) == if q.name == n then Some(|points|) else LastIndex(points, n)
    {
      LastIndexMore(points, q, n);
    }
    forall i | 0 <= i < |points| + 1
      ensures Filled(d'.registers[1 + i], (bases + [BaseOf(id, length, q)])[i], (named + [[]])[i])
    {
      if i < |points| { assert d'.registers[1 + i] == d.registers[1 + i]; }
    }
    assert LastText([]).None?;
  }

  function Nothing(n: nat): (named: seq<seq<PointElement>>)
    ensures |named| == n && forall i :: 0 <= i < n ==> named[i] == []
  {
    seq(n, _ => [])
  }

  lemma {:induction false} PointsHeld(b: Building, id: int, length: int, schema: Schema, points: seq<SchemaPoint>,
                                      bases: seq<Register>, named: seq<seq<PointElement>>)
    requires b.device.Sound() && Held(b.device, points, bases, named)
    requires forall i :: 0 <= i < |schema| ==> GoodPoint(schema[i])
    ensures AddPoints(b, id, length, schema).error.None?
    ensures Held(AddPoints(b, id, length, schema).building.device, points + schema,
                 bases + PointBases(id, length, schema), named + Nothing(|schema|))
    decreases schema
  {
    hide Held, GoodPoint, AddPoint, BaseOf, PointBases, Nothing;
    if schema == [] {
      NoneAdded(id, length, points, bases, named);
    } else {
      var q, rest := schema[0], schema[1..];
      PointHeld(b, id, length, q, points, bases, named);
      PointsHeld(AddPoint(b, id, length, q).building, id, length, rest, points + [q], bases + [BaseOf(id, length, q)],
                 named + [[]]);
      OneAdded(id, length, schema, points, bases, named);
    }
  }

  lemma NoneAdded(id: int, length: int, points: seq<SchemaPoint>, bases: seq<Register>, named: seq<seq<PointElement>>)
    ensures points + [] == points && bases + PointBases(id, length, []) == bases && named + Nothing(0) == named
  {
  }

  lemma OneAdded(id: int, length: int, schema: Schema, points: seq<SchemaPoint>, bases: seq<Register>,
                 named: seq<seq<PointElement>>)
    requires schema != []
    ensures (points + [schema[0]]) + schema[1..] == points + schema
    ensures (bases + [BaseOf(id, length, schema[0])]) + PointBases(id, length, schema[1..])
         == bases + PointBases(id, length, schema)
    ensures (named + [[]]) + Nothing(|schema[1..]|) == named + Nothing(|schema|)
  {
    hide BaseOf;
  }

  /** What an element adds to the elements of each point. */
  function WithElement(points: seq<SchemaPoint>, named: seq<seq<PointElement>>,
                       e: PointElement): (r: seq<seq<PointElement>>)
    requires |named| == |points|
    ensures |r| == |points|
  {
    match LastIndex(points, e.name)
    case Some(k) => named[k := named[k] + [e]]
    case None => named
  }

  lemma ElementHeld(b: Building, e: PointElement, points: seq<SchemaPoint>, bases: seq<Register>,
                    named: seq<seq<PointElement>>)
    requires b.device.Sound() && Held(b.device, points, bases, named) && LastIndex(points, e.name).Some?
    ensures Override(b, e).error.None?
    ensures Held(Override(b, e).building.device, points, bases, WithElement(points, named, e))
  {
    hide Overridden, Filled, TagKnown;
    var d, d' := b.device, Override(b, e).building.device;
    var k := LastIndex(points, e.name).value;
    FilledMore(d.registers[1 + k], bases[k], named[k], e);
    forall i | 0 <= i < |points| && TagKnown(d.tags, bases[i], named[i])
      ensures TagKnown(d'.tags, bases[i], named[i])
    {
      TagStaysKnown(d.tags, d'.tags, bases[i], named[i]);
    }
  }

  lemma TagStaysKnown(tags: Tags, tags': Tags, base: Register, elements: seq<PointElement>)
    requires TagKnown(tags, base, elements) && tags.Keys <= tags'.Keys
    ensures TagKnown(tags', base, elements)
  {
  }

  /** The elements of each point, and those that name it besides. */
  function Together(points: seq<SchemaPoint>, named: seq<seq<PointElement>>,
                    elements: seq<PointElement>): (r: seq<seq<PointElement>>)
    requires |named| == |points|
    ensures |r| == |points| && forall i :: 0 <= i < |r| ==> r[i] == named[i] + Naming(points, elements, i)
  {
    seq(|points|, (i: nat) requires i < |points| => named[i] + Naming(points, elements, i))
  }

  lemma TogetherFirst(points: seq<SchemaPoint>, named: seq<seq<PointElement>>, elements: seq<PointElement>)
    requires |named| == |points| && elements != []
    ensures Together(points, WithElement(points, named, elements[0]), elements[1..])
         == Together(points, named, elements)
  {
    hide LastIndex, Naming;
    var e, rest := elements[0], elements[1..];
    forall i: nat | i < |points|
      ensures WithElement(points, named, e)[i] + Naming(points, rest, i) == named[i] + Naming(points, elements, i)
    {
      NamingFirst(points, elements, i);
      assert named[i] + ([e] + Naming(points, rest, i)) == (named[i] + [e]) + Naming(points, rest, i);
    }
  }

  lemma NamingFirst(points: seq<SchemaPoint>, elements: seq<PointElement>, i: nat)
    requires elements != []
    ensures Naming(points, elements, i)
         == if LastIndex(points, elements[0].name) == Some(i) then [elements[0]] + Naming(points, elements[1..], i)
            else Naming(points, elements[1..], i)
  {
  }

  lemma {:induction false} ElementsHeld(b: Building, elements: seq<PointElement>, points: seq<SchemaPoint>,
                                        bases: seq<Register>, named: seq<seq<PointElement>>)
    requires b.device.Sound() && Held(b.device, points, bases, named) && |named| == |points|
    requires forall j :: 0 <= j < |elements| ==> LastIndex(points, elements[j].name).Some?
    ensures Overrides(b, elements).error.None?
    ensures Held(Overrides(b, elements).building.device, points, bases, Together(points, named, elements))
    decreases elements
  {
    hide Held, Override, LastIndex, WithElement;
    if elements == [] {
      var together := Together(points, named, elements);
      assert forall i :: 0 <= i < |named| ==> together[i] == named[i] + [] == named[i];
      assert together == named;
    } else {
      ElementHeld(b, elements[0], points, bases, named);
      ElementsHeld(Override(b, elements[0]).building, elements[1..], points, bases,
                   WithElement(points, named, elements[0]));
      TogetherFirst(points, named, elements);
    }
  }

  // ---- whole lists ----

  lemma {:induction false} TypeHasIndex(points: seq<SchemaPoint>, name: string)
    ensures LastType(points, name).Some? <==> LastIndex(points, name).Some?
  {
    if points != [] {
      TypeHasIndex(points[..|points| - 1], name);
    }
  }

  /** The elements of each point after some more models. */
  function AfterModels(schemas: Schemas, points: seq<SchemaPoint>, named: seq<seq<PointElement>>,
                       models: seq<ModelElement>): (r: seq<seq<PointElement>>)
    requires |named| == |points| && GoodModels(schemas, points, models)
    ensures |r| == |AllPoints(schemas, points, models)|
  {
    var n := |AllPoints(schemas, points, models)|;
    seq(n, (i: nat) requires i < n =>
      (if i < |named| then named[i] else []) + NamingAll(schemas, points, models, i))
  }

  lemma AfterFirst(schemas: Schemas, points: seq<SchemaPoint>, named: seq<seq<PointElement>>,
                   models: seq<ModelElement>)
    requires |named| == |points| && models != [] && GoodModels(schemas, points, models)
    ensures var schema := schemas[models[0].id.value];
            var here := Together(points + schema, named + Nothing(|schema|), models[0].points);
            AfterModels(schemas, points + schema, here, models[1..]) == AfterModels(schemas, points, named, models)
  {
    hide Naming;
    var schema := schemas[models[0].id.value];
    var all := points + schema;
    var here := Together(all, named + Nothing(|schema|), models[0].points);
    forall i: nat | i < |AllPoints(schemas, points, models)|
      ensures (if i < |here| then here[i] else []) + NamingAll(schemas, all, models[1..], i)
           == (if i < |named| then named[i] else []) + NamingAll(schemas, points, models, i)
    {
      var own, rest := Naming(all, models[0].points, i), NamingAll(schemas, all, models[1..], i);
      if i < |here| {
        var mine := if i < |named| then named[i] else [];
        assert here[i] == mine + own;
        assert (mine + own) + rest == mine + (own + rest);
      } else {
        NobodyNames(all, models[0].points, i);
        assert [] + rest == rest && [] + ([] + rest) == rest;
      }
    }
  }

  lemma {:induction false} NobodyNames(points: seq<SchemaPoint>, elements: seq<PointElement>, i: nat)
    requires i >= |points|
    ensures Naming(points, elements, i) == []
  {
    if elements != [] {
      NobodyNames(points, elements[1..], i);
    }
  }

  lemma ModelHeld(schemas: Schemas, b: Building, m: ModelElement, points: seq<SchemaPoint>, bases: seq<Register>,
                  named: seq<seq<PointElement>>)
    requires b.device.Sound() && Held(b.device, points, bases, named) && |named| == |points|
    requires GoodModel(schemas, points, m)
    ensures AddModel(schemas, b, m).error.None? && m.id.Some? && m.id.value in schemas
    ensures var schema := schemas[m.id.value];
            Held(AddModel(schemas, b, m).building.device, points + schema, bases + ModelBases(schemas, m),
                 Together(points + schema, named + Nothing(|schema|), m.points))
  {
    hide Held, GoodPoint, LastType, LastIndex, AddPoints, Overrides, PointBases;
    var schema := schemas[m.id.value];
    var length := ModelLength(schema);
    PointsHeld(b, m.id.value, length, schema, points, bases, named);
    forall j | 0 <= j < |m.points|
      ensures LastIndex(points + schema, m.points[j].name).Some?
    {
      TypeHasIndex(points + schema, m.points[j].name);
    }
    ElementsHeld(AddPoints(b, m.id.value, length, schema).building, m.points, points + schema,
                 bases + ModelBases(schemas, m), named + Nothing(|schema|));
  }

  lemma {:induction false} ModelsHeld(schemas: Schemas, b: Building, models: seq<ModelElement>,
                                      points: seq<SchemaPoint>, bases: seq<Register>, named: seq<seq<PointElement>>)
    requires b.device.Sound() && Held(b.device, points, bases, named) && |named| == |points|
    requires GoodModels(schemas, points, models)
    ensures AddModels(schemas, b, models).error.None?
    ensures Held(AddModels(schemas, b, models).building.device, AllPoints(schemas, points, models),
                 bases + Bases(schemas, models), AfterModels(schemas, points, named, models))
    decreases models
  {
    hide Held, AddModel, ModelBases, GoodModel;
    if models == [] {
      assert bases + Bases(schemas, models) == bases;
      var after := AfterModels(schemas, points, named, models);
      assert forall i :: 0 <= i < |named| ==> after[i] == named[i] + [] == named[i];
      assert after == named;
    } else {
      GoodModelListed(schemas, points, models[0]);
      var m, schema := models[0], schemas[models[0].id.value];
      ModelHeld(schemas, b, m, points, bases, named);
      ModelsHeld(schemas, AddModel(schemas, b, m).building, models[1..], points + schema,
                 bases + ModelBases(schemas, m), Together(points + schema, named + Nothing(|schema|), m.points));
      AfterFirst(schemas, points, named, models);
      assert (bases + ModelBases(schemas, m)) + Bases(schemas, models[1..]) == bases + Bases(schemas, models);
    }
  }

  // ---- the main results ----

  /**
   * After an accepted list, the register of every point holds what its schema gives it, filled by the elements that
   * name it; and each name leads to the last point that bears it.
   */
  lemma ConfiguredContents(schemas: Schemas, models: seq<ModelElement>)
    requires GoodModels(schemas, [], models)
    ensures var d, points := Configured(schemas, EMPTY, models).0, AllPoints(schemas, [], models);
            var bases := Bases(schemas, models);
            && |d.registers| == 1 + |points| + 2 && |bases| == |points|
            && (forall i: nat :: i < |points| ==>
                  Filled(d.registers[1 + i], bases[i], NamingAll(schemas, [], models, i))
                  && TagKnown(d.tags, bases[i], NamingAll(schemas, [], models, i)))
            && (forall n :: n in d.points <==> LastIndex(points, n).Some?)
            && (forall n :: n in d.points ==> d.points[n] == 1 + LastIndex(points, n).value)
  {
    hide AddModels, LastIndex, NamingAll, AllPoints, Bases, Filled, TagKnown, Held, Begin, Finish, GoodModels,
         AfterModels;
    BeginHeld();
    ModelsHeld(schemas, Begin(EMPTY), models, [], [], []);
    assert [] + Bases(schemas, models) == Bases(schemas, models);
    var points, named := AllPoints(schemas, [], models), AfterModels(schemas, [], [], models);
    var b, bases := AddModels(schemas, Begin(EMPTY), models).building, Bases(schemas, models);
    FinishHeld(b, points, bases, named);
    forall i: nat | i < |points|
      ensures Filled(Finish(b).registers[1 + i], bases[i], NamingAll(schemas, [], models, i))
      ensures TagKnown(Finish(b).tags, bases[i], NamingAll(schemas, [], models, i))
    {
      OnlyNamed(schemas, models, i);
    }
  }

  lemma OnlyNamed(schemas: Schemas, models: seq<ModelElement>, i: nat)
    requires GoodModels(schemas, [], models) && i < |AllPoints(schemas, [], models)|
    ensures AfterModels(schemas, [], [], models)[i] == NamingAll(schemas, [], models, i)
  {
    hide NamingAll, AllPoints, GoodModels;
    assert [] + NamingAll(schemas, [], models, i) == NamingAll(schemas, [], models, i);
  }

  lemma BeginHeld()
    ensures Held(Begin(EMPTY).device, [], [], [])
  {
  }

  /** The end marker changes none of it. */
  lemma FinishHeld(b: Building, points: seq<SchemaPoint>, bases: seq<Register>, named: seq<seq<PointElement>>)
    requires b.device.Sound() && Held(b.device, points, bases, named)
    ensures var d := Finish(b);
            && |d.registers| == 1 + |points| + 2 && |bases| == |named| == |points|
            && (forall i: nat :: i < |points| ==>
                  Filled(d.registers[1 + i], bases[i], named[i]) && TagKnown(d.tags, bases[i], named[i]))
            && (forall n :: n in d.points <==> LastIndex(points, n).Some?)
            && (forall n :: n in d.points ==> d.points[n] == 1 + LastIndex(points, n).value)
  {
    hide Filled, TagKnown, LastIndex;
    var d := Finish(b);
    forall i: nat | i < |points|
      ensures Filled(d.registers[1 + i], bases[i], named[i]) && TagKnown(d.tags, bases[i], named[i])
    {
      assert Filled(b.device.registers[1 + i], bases[i], named[i]);
    }
  }

  // ---- where configuration stops ----

  lemma {:induction false} PointsStop(b: Building, id: int, length: int, schema: Schema, j: nat)
    requires b.device.Sound() && j < |schema| && !GoodPoint(schema[j])
    requires forall i :: 0 <= i < j ==> GoodPoint(schema[i])
    ensures AddPoints(b, id, length, schema).building == AddPoints(b, id, length, schema[..j]).building
    ensures AddPoints(b, id, length, schema).error
         == Some(if schema[j].scale.OtherScale? then BadScale else UnknownType)
    decreases schema
  {
    hide GoodPoint;
    PointStops(b, id, length, schema[0]);
    if j == 0 {
      assert schema[..0] == [];
    } else {
      assert schema[..j][0] == schema[0] && schema[..j][1..] == schema[1..][..j - 1];
      PointsStop(AddPoint(b, id, length, schema[0]).building, id, length, schema[1..], j - 1);
    }
  }

  lemma PointStops(b: Building, id: int, length: int, q: SchemaPoint)
    requires b.device.Sound()
    ensures var r := AddPoint(b, id, length, q);
            && (GoodPoint(q) <==> r.error.None?)
            && (!GoodPoint(q) ==> r == Built(b, Some(if q.scale.OtherScale? then BadScale else UnknownType)))
  {
  }

  lemma {:induction false} ElementsStop(b: Building, elements: seq<PointElement>, points: seq<SchemaPoint>,
                                        bases: seq<Register>, named: seq<seq<PointElement>>, j: nat)
    requires b.device.Sound() && Held(b.device, points, bases, named) && |named| == |points| && j < |elements|
    requires LastIndex(points, elements[j].name).None?
    requires forall i :: 0 <= i < j ==> LastIndex(points, elements[i].name).Some?
    ensures Overrides(b, elements).building == Overrides(b, elements[..j]).building
    ensures Overrides(b, elements).error == Some(NoSuchPoint)
    decreases elements
  {
    hide LastIndex, WithElement;
    if j == 0 {
      assert elements[..0] == [];
    } else {
      ElementHeld(b, elements[0], points, bases, named);
      assert elements[..j][0] == elements[0] && elements[..j][1..] == elements[1..][..j - 1];
      hide Held, Override;
      ElementsStop(Override(b, elements[0]).building, elements[1..], points, bases,
                   WithElement(points, named, elements[0]), j - 1);
    }
  }

  /** Why a model is not accepted, and how many of its points and of its elements come before that. */
  ghost predicate Stops(schemas: Schemas, before: seq<SchemaPoint>, m: ModelElement, error: ConfigError, n: nat,
                        j: nat) {
    match m.id
    case None => error == MissingId && n == j == 0
    case Some(id) =>
      if id !in schemas then error == NoSchema && n == j == 0
      else
        var schema := schemas[id];
        if n < |schema| then
          && !GoodPoint(schema[n]) && (forall i :: 0 <= i < n ==> GoodPoint(schema[i])) && j == 0
          && error == if schema[n].scale == OtherScale then BadScale else UnknownType
        else
          && n == |schema| && (forall i :: 0 <= i < n ==> GoodPoint(schema[i]))
          && j < |m.points| && error == NoSuchPoint
          && LastIndex(before + schema, m.points[j].name).None?
          && forall i :: 0 <= i < j ==> LastIndex(before + schema, m.points[i].name).Some?
  }

  /** The points and the elements of a model up to where it stops. */
  function Begun(schemas: Schemas, m: ModelElement, n: nat): seq<SchemaPoint> {
    if m.id.Some? && m.id.value in schemas && n <= |schemas[m.id.value]| then schemas[m.id.value][..n] else []
  }

  function BegunBases(schemas: Schemas, m: ModelElement, n: nat): (bases: seq<Register>)
    ensures |bases| == |Begun(schemas, m, n)|
  {
    if m.id.Some? && m.id.value in schemas && n <= |schemas[m.id.value]|
    then PointBases(m.id.value, ModelLength(schemas[m.id.value]), schemas[m.id.value][..n]) else []
  }

  lemma ModelStops(schemas: Schemas, b: Building, m: ModelElement, points: seq<SchemaPoint>, bases: seq<Register>,
                   named: seq<seq<PointElement>>, error: ConfigError, n: nat, j: nat)
    requires b.device.Sound() && Held(b.device, points, bases, named) && |named| == |points|
    requires Stops(schemas, points, m, error, n, j)
    ensures AddModel(schemas, b, m).error == Some(error)
    ensures var more := Begun(schemas, m, n);
            j <= |m.points|
            && Held(AddModel(schemas, b, m).building.device, points + more, bases + BegunBases(schemas, m, n),
                    Together(points + more, named + Nothing(|more|), m.points[..j]))
  {
    hide Held, GoodPoint, LastType, LastIndex, AddPoints, Overrides, PointBases;
    var more := Begun(schemas, m, n);
    var together := Together(points + more, named + Nothing(|more|), m.points[..j]);
    if m.id.None? || m.id.value !in schemas {
      assert points + more == points && bases + BegunBases(schemas, m, n) == bases;
      assert forall i :: 0 <= i < |named| ==> together[i] == named[i] + [] == named[i];
      assert together == named;
    } else {
      var schema, length := schemas[m.id.value], ModelLength(schemas[m.id.value]);
      PointsHeld(b, m.id.value, length, more, points, bases, named);
      var built := AddPoints(b, m.id.value, length, more).building;
      if n < |schema| {
        PointsStop(b, m.id.value, length, schema, n);
        var nothing := named + Nothing(|more|);
        assert forall i :: 0 <= i < |nothing| ==> together[i] == nothing[i] + [] == nothing[i];
        assert together == nothing;
      } else {
        assert more == schema;
        ElementsHeld(built, m.points[..j], points + more, bases + BegunBases(schemas, m, n), named + Nothing(|more|));
        ElementsStop(built, m.points, points + more, bases + BegunBases(schemas, m, n), named + Nothing(|more|), j);
      }
    }
  }

  lemma {:induction false} ModelsStop(schemas: Schemas, b: Building, models: seq<ModelElement>, i: nat)
    requires b.device.Sound() && i < |models| && AddModels(schemas, b, models[..i]).error.None?
    requires AddModel(schemas, AddModels(schemas, b, models[..i]).building, models[i]).error.Some?
    ensures AddModels(schemas, b, models) == AddModel(schemas, AddModels(schemas, b, models[..i]).building, models[i])
    decreases models
  {
    hide AddModel;
    if i == 0 {
      assert models[..0] == [];
    } else {
      assert models[..i][0] == models[0] && models[..i][1..] == models[1..][..i - 1];
      ModelsStop(schemas, AddModel(schemas, b, models[0]).building, models[1..], i - 1);
    }
  }

  /** How many points are good before the first that is not. */
  function GoodPoints(schema: Schema): (n: nat)
    ensures n <= |schema| && (n < |schema| ==> !GoodPoint(schema[n])) && forall i :: 0 <= i < n ==> GoodPoint(schema[i])
  {
    if schema == [] || !GoodPoint(schema[0]) then 0 else 1 + GoodPoints(schema[1..])
  }

  /** How many elements name a point before the first that does not. */
  function KnownElements(points: seq<SchemaPoint>, elements: seq<PointElement>): (n: nat)
    ensures n <= |elements| && (n < |elements| ==> LastIndex(points, elements[n].name).None?)
    ensures forall i :: 0 <= i < n ==> LastIndex(points, elements[i].name).Some?
  {
    if elements == [] || LastIndex(points, elements[0].name).None? then 0 else 1 + KnownElements(points, elements[1..])
  }

  lemma ModelFault(schemas: Schemas, before: seq<SchemaPoint>, m: ModelElement)
    returns (error: ConfigError, n: nat, j: nat)
    requires !GoodModel(schemas, before, m)
    ensures Stops(schemas, before, m, error, n, j) && j <= |m.points|
  {
    n, j, error := 0, 0, MissingId;
    if m.id.Some? && m.id.value !in schemas {
      error := NoSchema;
    } else if m.id.Some? {
      var schema, points := schemas[m.id.value], before + schemas[m.id.value];
      n := GoodPoints(schema);
      if n < |schema| {
        error := if schema[n].scale.OtherScale? then BadScale else UnknownType;
      } else {
        error, j := NoSuchPoint, KnownElements(points, m.points);
        forall i | 0 <= i < |m.points|
          ensures LastType(points, m.points[i].name).Some? <==> LastIndex(points, m.points[i].name).Some?
        {
          TypeHasIndex(points, m.points[i].name);
        }
      }
    }
  }

  /** Every list that is not accepted for its models has a first fault. */
  lemma {:induction false} FirstFault(schemas: Schemas, before: seq<SchemaPoint>, models: seq<ModelElement>)
    returns (i: nat, error: ConfigError, n: nat, j: nat)
    requires !GoodModels(schemas, before, models)
    ensures i < |models| && j <= |models[i].points| && GoodModels(schemas, before, models[..i])
    ensures Stops(schemas, AllPoints(schemas, before, models[..i]), models[i], error, n, j)
    decreases models
  {
    hide GoodModel, Stops;
    if GoodModel(schemas, before, models[0]) {
      GoodModelListed(schemas, before, models[0]);
      i, error, n, j := FirstFault(schemas, before + schemas[models[0].id.value], models[1..]);
      i := i + 1;
      assert models[..i][0] == models[0] && models[..i][1..] == models[1..][..i - 1];
    } else {
      i := 0;
      error, n, j := ModelFault(schemas, before, models[0]);
      assert models[..0] == [];
    }
  }

  /**
   * A list that is not accepted is configured up to its first fault: the error names it, and the registers and their
   * contents are those of the models, points and elements before it, without an end marker.
   */
  lemma ConfigurationStops(schemas: Schemas, models: seq<ModelElement>, i: nat, error: ConfigError, n: nat, j: nat)
    requires i < |models| && GoodModels(schemas, [], models[..i])
    requires Stops(schemas, AllPoints(schemas, [], models[..i]), models[i], error, n, j) && j <= |models[i].points|
    ensures Configured(schemas, EMPTY, models).1 == Some(error)
    ensures var points, more := AllPoints(schemas, [], models[..i]), Begun(schemas, models[i], n);
            Held(Configured(schemas, EMPTY, models).0, points + more,
                 Bases(schemas, models[..i]) + BegunBases(schemas, models[i], n),
                 Together(points + more, AfterModels(schemas, [], [], models[..i]) + Nothing(|more|),
                          models[i].points[..j]))
  {
    hide AddModels, AddModel, NamingAll, AllPoints, Bases, Held, Begin, GoodModels, AfterModels, Stops, Together;
    BeginHeld();
    ModelsHeld(schemas, Begin(EMPTY), models[..i], [], [], []);
    assert [] + Bases(schemas, models[..i]) == Bases(schemas, models[..i]);
    var points, named := AllPoints(schemas, [], models[..i]), AfterModels(schemas, [], [], models[..i]);
    ModelStops(schemas, AddModels(schemas, Begin(EMPTY), models[..i]).building, models[i], points,
               Bases(schemas, models[..i]), named, error, n, j);
    ModelsStop(schemas, Begin(EMPTY), models, i);
  }

  // ---- what a point of the schema gives its register ----

  predicate Textual(dt: DataType) {
    dt == String8 || dt == String16
  }

  /** What a schema point gives its register, before any element. */
  ghost predicate FromSchema(r: Register, id: int, length: int, q: SchemaPoint) {
    && r.name == q.name && r.model == id && r.tag == "" && r.internalString == ""
    && r.dataType == (match q.pointType
                      case ValueType(dt) => dt
                      case StringType => if q.size == 8 then String8 else String16)
    && 2 * r.count == ByteWidth(r.dataType) > 0
    && r.scaling == (match q.scale
                     case IntScale(k) => if k < 0 then (-k) as real else k as real
                     case FloatScale(x) => if x < 0.0 then -x else x
                     case _ => 0.0)
    && r.scaleRegister == (match q.scale case NamedScale(name) => name case _ => "")
    && r.internalValue == if q.name == "ID" then id as real else if q.name == "L" then length as real else 0.0
  }

  lemma SchemaGives(id: int, length: int, q: SchemaPoint)
    requires GoodPoint(q)
    ensures FromSchema(BaseOf(id, length, q), id, length, q)
  {
    DistinctHeaders();
  }

  lemma DistinctHeaders()
    ensures "ID" != "L"
  {
    assert |"ID"| != |"L"|;
  }

  // ---- what a read then shows ----

  /** The value that a numeric point shows: that of the tag it follows, or else its own. */
  function Showing(tags: Tags, base: Register, elements: seq<PointElement>): real {
    match LastText(elements)
    case Some(t) => TagValue(tags, t)
    case None => Own(base, elements)
  }

  /** A point's own value: the last number that names it, or what its schema gives it. */
  function Own(base: Register, elements: seq<PointElement>): real {
    match LastNumber(elements) case Some(x) => x case None => base.internalValue
  }

  /** The server after configuration, whatever its tags hold since. */
  ghost predicate Serving(schemas: Schemas, models: seq<ModelElement>, d: Device) {
    var c := Configured(schemas, EMPTY, models).0;
    d == c.(tags := d.tags) && d.tags.Keys == c.tags.Keys && "" !in d.tags
  }

  /**
   * The scale factor of a point that names another one is that point's own value, whatever tag it may follow; without
   * a name it is zero, so that the point's own exponent counts; a name that no point bears is an error.
   */
  lemma ScaleFactorShown(schemas: Schemas, models: seq<ModelElement>, d: Device, i: nat)
    requires GoodModels(schemas, [], models) && Serving(schemas, models, d) && i < |AllPoints(schemas, [], models)|
    ensures d.Sound() && 1 + i < |d.registers| && |Bases(schemas, models)| == |AllPoints(schemas, [], models)|
    ensures var points, bases := AllPoints(schemas, [], models), Bases(schemas, models);
            var name := bases[i].scaleRegister;
            && (name == "" ==> d.ScalingOf(d.registers[1 + i]) == Ok(0.0))
            && (name != "" && LastIndex(points, name).None? ==> d.ScalingOf(d.registers[1 + i]) == Err)
            && (name != "" && LastIndex(points, name).Some? ==>
                  var n := LastIndex(points, name).value;
                  !Textual(bases[n].dataType) ==>
                    d.ScalingOf(d.registers[1 + i]) == Ok(Own(bases[n], NamingAll(schemas, [], models, n))))
  {
    hide Configured, LastIndex, NamingAll, AllPoints, Bases, TagKnown, LastText, LastNumber, GoodModels;
    ConfiguredContents(schemas, models);
    var points, bases := AllPoints(schemas, [], models), Bases(schemas, models);
    assert Filled(d.registers[1 + i], bases[i], NamingAll(schemas, [], models, i));
    var name := bases[i].scaleRegister;
    if LastIndex(points, name).Some? {
      var n := LastIndex(points, name).value;
      assert Filled(d.registers[1 + n], bases[n], NamingAll(schemas, [], models, n));
    }
  }

  /**
   * What the read handler encodes for a point, in figures: a numeric point its value in whole steps of the scale
   * factor, if they fit; a string point its text.
   */
  ghost predicate OnWire(p: Platform, base: Register, value: real, text: string, k: real, sent: Result<seq<byte>>) {
    && (IntegerType(base.dataType) && Range(base.dataType, InSteps(p, base, value, k)) ==>
          sent.Ok? && |sent.value| == ByteWidth(base.dataType)
          && Stored(base.dataType, sent.value) == InSteps(p, base, value, k))
    && (base.dataType == Float32 ==> sent == Ok(BigEndian(p.float32Bits(value), 4)))
    && (Textual(base.dataType) ==>
          sent.Ok? && |sent.value| == ByteWidth(base.dataType) && Shows(sent.value, p.utf8(text)))
  }

  /**
   * What a read of an accepted configuration shows: a numeric point the value of the tag it follows, or else its own;
   * a string point its last text.
   */
  lemma ContentsOnWire(p: Platform, schemas: Schemas, models: seq<ModelElement>, d: Device, i: nat)
    requires GoodModels(schemas, [], models) && Serving(schemas, models, d) && i < |AllPoints(schemas, [], models)|
    ensures d.Sound() && 1 + i < |d.registers| && i < |Bases(schemas, models)|
    ensures d.ScalingOf(d.registers[1 + i]).Ok? ==>
              var r, base, elements := d.registers[1 + i], Bases(schemas, models)[i], NamingAll(schemas, [], models, i);
              OnWire(p, base, Showing(d.tags, base, elements), Text(elements), d.ScalingOf(r).value, d.Encoded(p, r))
  {
    hide Configured, LastIndex, NamingAll, AllPoints, Bases, GoodModels, OnWire, Filled, TagKnown, Showing, Text;
    ConfiguredContents(schemas, models);
    var r, base, elements := d.registers[1 + i], Bases(schemas, models)[i], NamingAll(schemas, [], models, i);
    assert TagKnown(Configured(schemas, EMPTY, models).0.tags, base, elements);
    TagStaysKnown(Configured(schemas, EMPTY, models).0.tags, d.tags, base, elements);
    BaseUntagged(schemas, models, [], i);
    if d.ScalingOf(r).Ok? {
      FilledOnWire(p, d, r, base, elements, d.ScalingOf(r).value);
    }
  }

  function Text(elements: seq<PointElement>): string {
    if elements == [] then "" else elements[|elements| - 1].text
  }

  lemma FilledOnWire(p: Platform, d: Device, r: Register, base: Register, elements: seq<PointElement>, k: real)
    requires Filled(r, base, elements) && TagKnown(d.tags, base, elements)
    requires base.tag == base.internalString == "" && "" !in d.tags
    ensures OnWire(p, base, Showing(d.tags, base, elements), Text(elements), k, Encode(p, r, d.TagOf(r), k))
  {
    if Textual(base.dataType) {
      TextInFigures(p, r, k);
    } else {
      ValueShown(d, r, base, elements);
      if IntegerType(base.dataType) && Range(base.dataType, InSteps(p, base, Showing(d.tags, base, elements), k)) {
        EncodedInFigures(p, r, d.TagOf(r), k);
      }
    }
  }

  /** The bytes of a text from its start, cut off or filled up with zeros. */
  predicate Shows(data: seq<byte>, text: seq<byte>) {
    forall i :: 0 <= i < |data| ==> data[i] == if i < |text| then text[i] else 0
  }

  lemma ValueShown(d: Device, r: Register, base: Register, elements: seq<PointElement>)
    requires Filled(r, base, elements) && TagKnown(d.tags, base, elements) && !Textual(base.dataType)
    requires base.tag == "" && "" !in d.tags
    ensures Value(r, d.TagOf(r)) == Showing(d.tags, base, elements)
  {
  }

  lemma {:induction false} BaseUntagged(schemas: Schemas, models: seq<ModelElement>, before: seq<SchemaPoint>, i: nat)
    requires GoodModels(schemas, before, models) && i < |Bases(schemas, models)|
    ensures Bases(schemas, models)[i].tag == Bases(schemas, models)[i].internalString == ""
  {
    var m, j := PointOf(schemas, models, before, i);
  }

  /** Which point of which model the i-th register after the identifier is, and what its schema gives it. */
  lemma {:induction false} PointOf(schemas: Schemas, models: seq<ModelElement>, before: seq<SchemaPoint>, i: nat)
    returns (m: nat, j: nat)
    requires GoodModels(schemas, before, models) && i < |Bases(schemas, models)|
    ensures m < |models| && models[m].id.Some? && models[m].id.value in schemas
    ensures var id := models[m].id.value; var schema := schemas[id];
            && j < |schema| && i == |Bases(schemas, models[..m])| + j
            && FromSchema(Bases(schemas, models)[i], id, ModelLength(schema), schema[j])
            && |before| + i < |AllPoints(schemas, before, models)|
            && AllPoints(schemas, before, models)[|before| + i] == schema[j]
    decreases models
  {
    hide FromSchema, ModelLength, BaseOf, Bases, GoodModels, AllPoints, GoodPoint;
    if models == [] { NothingListed(schemas); }
    FirstGood(schemas, before, models);
    FirstOfBases(schemas, models);
    var schema, rest := schemas[models[0].id.value], models[1..];
    if i < |schema| {
      m, j := 0, i;
      SchemaGives(models[0].id.value, ModelLength(schema), schema[i]);
      PointsKept(schemas, before + schema, rest);
    } else {
      m, j := PointOf(schemas, rest, before + schema, i - |schema|);
      BasesPrefix(schemas, models, m);
      m := m + 1;
    }
  }

  lemma NothingListed(schemas: Schemas)
    ensures Bases(schemas, []) == []
  {
  }

  lemma FirstGood(schemas: Schemas, before: seq<SchemaPoint>, models: seq<ModelElement>)
    requires models != [] && GoodModels(schemas, before, models)
    ensures models[0].id.Some? && models[0].id.value in schemas
    ensures var schema := schemas[models[0].id.value];
            && (forall i :: 0 <= i < |schema| ==> GoodPoint(schema[i]))
            && GoodModels(schemas, before + schema, models[1..])
            && AllPoints(schemas, before, models) == AllPoints(schemas, before + schema, models[1..])
  {
  }

  lemma BasesPrefix(schemas: Schemas, models: seq<ModelElement>, m: nat)
    requires models != [] && m < |models[1..]|
    ensures Bases(schemas, models[..m + 1]) == ModelBases(schemas, models[0]) + Bases(schemas, models[1..][..m])
    ensures models[m + 1] == models[1..][m]
  {
    var all := models[..m + 1];
    assert all[0] == models[0] && all[1..] == models[1..][..m];
  }

  lemma FirstOfBases(schemas: Schemas, models: seq<ModelElement>)
    requires models != [] && models[0].id.Some? && models[0].id.value in schemas
    ensures var id := models[0].id.value; var schema := schemas[id]; var all := Bases(schemas, models);
            && all == ModelBases(schemas, models[0]) + Bases(schemas, models[1..])
            && |ModelBases(schemas, models[0])| == |schema|
            && forall i :: 0 <= i < |schema| ==> all[i] == BaseOf(id, ModelLength(schema), schema[i])
    ensures Bases(schemas, models[..0]) == []
  {
  }

  lemma {:induction false} PointsKept(schemas: Schemas, before: seq<SchemaPoint>, models: seq<ModelElement>)
    requires GoodModels(schemas, before, models)
    ensures var all := AllPoints(schemas, before, models); |before| <= |all| && all[..|before|] == before
    decreases models
  {
    if models != [] {
      var more := before + schemas[models[0].id.value];
      PointsKept(schemas, more, models[1..]);
      assert AllPoints(schemas, before, models)[..|more|][..|before|] == before;
    }
  }
}
