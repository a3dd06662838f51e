/**
 * What discovery makes of a server just configured, for every list of models, and three configurations on which
 * server and client part ways: model 1 not first, an empty element, and a read that the length byte cannot hold.
 */
module SunSpecCases {
  import opened Bytes
  import opened GoRuntime
  import opened MessageBus
  import opened RegisterWalk
  import opened SunSpecRegister
  import opened SunSpecDevice
  import opened SunSpecLayout
  import opened SunSpecAcceptance
  import opened SunSpecClient
  import opened SunSpecDiscovery

  /** The server that a list of models configures. */
  function Fresh(schemas: Schemas, models: seq<ModelElement>): (d: Device)
    ensures d.Sound()
  {
    Configured(schemas, EMPTY, models).0
  }

  /** The list is accepted, and the map stays within 16-bit addresses. */
  ghost predicate Accepted(schemas: Schemas, models: seq<ModelElement>) {
    && GoodModels(schemas, [], models) && HasModel(models, 1)
    && Start(Fresh(schemas, models).registers, |Fresh(schemas, models).registers|) <= 0x1_0000
  }

  lemma FreshServes(schemas: Schemas, models: seq<ModelElement>)
    requires Standard(schemas, models) && Accepted(schemas, models)
    ensures Serves(schemas, models, Fresh(schemas, models)) && Listed(schemas, models)
  {
    ConfigureAccepts(schemas, models);
    ConfigureTiles(schemas, models);
  }

  lemma FreshAccepted(schemas: Schemas, models: seq<ModelElement>)
    requires Accepted(schemas, models)
    ensures Configured(schemas, EMPTY, models).1.None?
  {
    ConfigureAccepts(schemas, models);
  }

  lemma FreshTiled(schemas: Schemas, models: seq<ModelElement>)
    requires Standard(schemas, models) && Accepted(schemas, models)
    ensures var d := Fresh(schemas, models); Tiled(d) && |d.registers| >= 1 && d.registers[0] == IDENTIFIER
  {
    ConfigureAccepts(schemas, models);
    ConfigureTiles(schemas, models);
    var d, bases := Fresh(schemas, models), [IDENTIFIER] + Bases(schemas, models);
    assert d.registers[..|bases|][0] == d.registers[0];
  }

  /**
   * Discovery of a server just configured. For every accepted list of standard models, the client reaches the end
   * marker exactly if no empty text makes a point follow a nameless tag, the list opens with model 1, and every
   * model can be read in one request with scale factors that can be followed.
   */
  lemma FreshDiscovery(p: Platform, schemas: Schemas, models: seq<ModelElement>, rounds: nat)
    requires p.ExactPowers() && Standard(schemas, models) && Accepted(schemas, models) && rounds > |models|
    ensures var d := Fresh(schemas, models); Listed(schemas, models) && Advancing(d.View(p))
    ensures var d := Fresh(schemas, models); var entries := Entries(d, schemas, models);
            Discovered(p, schemas, Link(p, d), NEW_SURVEY, rounds).end.Finished?
            <==> !ModelsFollow(schemas, [], models, "") && OpensWithModel1(entries) && AllFetchable(entries)
  {
    hide Standard, Accepted, Serves, Listed, Discovered, ConfirmIdentifier, Entries, ModelsFollow, Fresh, Tiled;
    var d := Fresh(schemas, models);
    FreshServes(schemas, models);
    FreshTags(schemas, models);
    if "" in d.tags {
      FreshTiled(schemas, models);
      NamelessTagHidesDevice(p, d);
      TruncOfZero();
      Unconfirmed(p, schemas, Link(p, d), NEW_SURVEY, rounds);
    } else {
      DiscoveryInvertsLayout(p, schemas, models, d, rounds);
    }
  }

  lemma FreshTags(schemas: Schemas, models: seq<ModelElement>)
    requires Accepted(schemas, models)
    ensures GoodModels(schemas, [], models)
    ensures var tags := Fresh(schemas, models).tags;
            Clean(tags) && forall t :: t in tags <==> ModelsFollow(schemas, [], models, t)
  {
    FollowedTags(schemas, models);
  }

  lemma TruncOfZero()
    ensures Decimal.Trunc(0.0) == 0
  {
  }

  lemma Unconfirmed(p: Platform, schemas: Schemas, remote: Remote, s: Survey, rounds: nat)
    requires p.ExactPowers() && ConfirmIdentifier(p, remote) != Ok(true)
    ensures !Discovered(p, schemas, remote, s, rounds).end.Finished?
  {
  }

  // ---- small maps fit ----

  lemma {:induction false} StartBound(registers: seq<Register>, k: nat)
    requires k <= |registers| && forall i :: 0 <= i < |registers| ==> registers[i].count <= 16
    ensures Start(registers, k) <= BASE + 16 * k
  {
    if k > 0 {
      StartBound(registers, k - 1);
    }
  }

  /** A list with few points stays within 16-bit addresses. */
  lemma FewPointsFit(schemas: Schemas, models: seq<ModelElement>)
    requires Standard(schemas, models) && GoodModels(schemas, [], models) && HasModel(models, 1)
    requires |Bases(schemas, models)| <= 1500
    ensures Accepted(schemas, models)
  {
    hide Bases, GoodModels, HasModel, Configured, Tiled, Named, AllNamed, AllKin, Shaped, Start;
    ConfigureAccepts(schemas, models);
    ConfigureTiles(schemas, models);
    var d, bases := Fresh(schemas, models), Bases(schemas, models);
    ShapeOf(d, bases);
    BasesInitialised(schemas, models);
    ShapedInitialised(d, bases);
    ShapedCount(d, bases);
    forall i | 0 <= i < |d.registers|
      ensures d.registers[i].count <= 16
    {
      WidthBound(d.registers[i].dataType);
    }
    StartBound(d.registers, |d.registers|);
  }

  lemma WidthBound(dt: DataType)
    ensures Width(dt) <= 16
  {
  }

  lemma ShapedCount(d: Device, bases: seq<Register>)
    requires Shaped(d, bases)
    ensures |d.registers| == |bases| + 3 && d.registers[0] == IDENTIFIER
  {
  }

  // ---- schemas of single words ----

  const ID_POINT := SchemaPoint("ID", ValueType(UInt16), 1, NoScale, false)
  const L_POINT := SchemaPoint("L", ValueType(UInt16), 1, NoScale, false)
  const WORD_POINT := SchemaPoint("X", ValueType(UInt16), 1, NoScale, false)
  const TEXT_POINT := SchemaPoint("Text", StringType, 16, NoScale, false)

  /** The header and n words. */
  function WordSchema(n: nat): (schema: Schema)
    ensures |schema| == n + 2
  {
    seq(n + 2, i => if i == 0 then ID_POINT else if i == 1 then L_POINT else WORD_POINT)
  }

  const TEXT_SCHEMA: Schema := [ID_POINT, L_POINT, TEXT_POINT]

  /** A model without elements. */
  function Bare(id: int): ModelElement {
    ModelElement(Some(id), [])
  }

  predicate GoodSchema(schema: Schema) {
    Headed(schema) && SizesMatch(schema) && forall i :: 0 <= i < |schema| ==> GoodPoint(schema[i])
  }

  lemma SchemasGood(n: nat)
    ensures GoodSchema(WordSchema(n)) && GoodSchema(TEXT_SCHEMA)
  {
  }

  /** A list of two bare models with good schemas. */
  lemma TwoBare(schemas: Schemas, a: int, b: int)
    requires 0 <= a < END_ID && 0 <= b < END_ID && a in schemas && b in schemas && GoodSchema(schemas[a])
    requires GoodSchema(schemas[b])
    ensures var models := [Bare(a), Bare(b)];
            && Standard(schemas, models) && GoodModels(schemas, [], models)
            && (HasModel(models, 1) <==> a == 1 || b == 1)
            && (forall t :: !ModelsFollow(schemas, [], models, t))
            && Bases(schemas, models)
               == PointBases(a, ModelLength(schemas[a]), schemas[a])
                  + PointBases(b, ModelLength(schemas[b]), schemas[b])
  {
    hide PointBases, ModelLength, SizesMatch, Headed, GoodModel, ModelFollows, LastType;
    var models := [Bare(a), Bare(b)];
    var first, points := [] + schemas[a], [] + schemas[a] + schemas[b];
    assert models[0] == Bare(a) && models[1] == Bare(b);
    assert models[1..] == [Bare(b)] && models[1..][1..] == [];
    BareGood(schemas, [], a);
    BareGood(schemas, first, b);
    assert GoodModels(schemas, points, []);
    assert GoodModels(schemas, first, models[1..]);
    forall t
      ensures !ModelsFollow(schemas, [], models, t)
    {
      assert !ModelsFollow(schemas, points, [], t);
      assert !ModelsFollow(schemas, first, models[1..], t);
    }
    TwoBases(schemas, a, b, models);
  }

  lemma TwoBases(schemas: Schemas, a: int, b: int, models: seq<ModelElement>)
    requires a in schemas && b in schemas && models == [Bare(a), Bare(b)]
    ensures Bases(schemas, models)
       == PointBases(a, ModelLength(schemas[a]), schemas[a]) + PointBases(b, ModelLength(schemas[b]), schemas[b])
  {
    hide PointBases, ModelLength;
    assert models[1..] == [Bare(b)] && models[1..][1..] == [];
    assert Bases(schemas, []) == [];
    assert Bases(schemas, models[1..]) == ModelBases(schemas, Bare(b)) + [];
  }

  lemma BareGood(schemas: Schemas, before: seq<SchemaPoint>, id: int)
    requires id in schemas && GoodSchema(schemas[id])
    ensures GoodModel(schemas, before, Bare(id)) && forall t :: !ModelFollows(schemas, before, Bare(id), t)
  {
  }

  // ---- model 1 not first ----

  /** A list that has a model 1, but not in front, is accepted by the server, and its client never gets to the end. */
  lemma Model1NotFirst(p: Platform, schemas: Schemas, models: seq<ModelElement>, rounds: nat)
    requires p.ExactPowers() && Standard(schemas, models) && Accepted(schemas, models) && rounds > |models|
    requires models[0].id != Some(1)
    ensures Configured(schemas, EMPTY, models).1.None? && Advancing(Fresh(schemas, models).View(p))
    ensures !Discovered(p, schemas, Link(p, Fresh(schemas, models)), NEW_SURVEY, rounds).end.Finished?
  {
    ConfigureAccepts(schemas, models);
    FreshDiscovery(p, schemas, models, rounds);
  }

  /** For one, a list of model 2 and then model 1. */
  lemma Model1Second(p: Platform, rounds: nat)
    requires p.ExactPowers() && rounds > 2
    ensures var schemas, models := map[1 := WordSchema(1), 2 := WordSchema(1)], [Bare(2), Bare(1)];
            && Configured(schemas, EMPTY, models).1.None? && Advancing(Fresh(schemas, models).View(p))
            && !Discovered(p, schemas, Link(p, Fresh(schemas, models)), NEW_SURVEY, rounds).end.Finished?
  {
    var schemas, models := map[1 := WordSchema(1), 2 := WordSchema(1)], [Bare(2), Bare(1)];
    SchemasGood(1);
    TwoBare(schemas, 2, 1);
    FewPointsFit(schemas, models);
    Model1NotFirst(p, schemas, models, rounds);
  }

  // ---- a nameless tag ----

  /** A single empty element on a numeric point is accepted, and hides the server from every client. */
  lemma NamelessTagArises(p: Platform, rounds: nat)
    requires p.ExactPowers() && rounds > 1
    ensures var schemas, models := map[1 := WordSchema(1)], [ModelElement(Some(1), [PointElement("X", "", None)])];
            && Configured(schemas, EMPTY, models).1.None? && "" in Fresh(schemas, models).tags
            && Advancing(Fresh(schemas, models).View(p))
            && !Discovered(p, schemas, Link(p, Fresh(schemas, models)), NEW_SURVEY, rounds).end.Finished?
  {
    var schemas, e := map[1 := WordSchema(1)], PointElement("X", "", None);
    var models := [ModelElement(Some(1), [e])];
    SchemasGood(1);
    var points := [] + schemas[1];
    assert points[|points| - 1] == WORD_POINT;
    assert LastType(points, "X") == Some(UInt16);
    assert Follow(points, e, "");
    assert models[1..] == [] && GoodModels(schemas, points, models[1..]);
    assert ModelFollows(schemas, [], models[0], "") by { assert Follow(points, models[0].points[0], ""); }
    assert models[0].id == Some(1) && HasModel(models, 1);
    assert |e.name| == 1;
    assert Standard(schemas, models);
    assert Bases(schemas, models) == ModelBases(schemas, models[0]) + Bases(schemas, []);
    FewPointsFit(schemas, models);
    ConfigureAccepts(schemas, models);
    FollowedTags(schemas, models);
    FreshDiscovery(p, schemas, models, rounds);
  }

  // ---- a length byte that wraps ----

  /** A model 1 of 108 words, and a model 2 that opens with a 16-word text. */
  const LONG: Schemas := map[1 := WordSchema(108), 2 := TEXT_SCHEMA]
  const LONG_MODELS := [Bare(1), Bare(2)]

  lemma BaseOfWord(id: int, length: int, q: SchemaPoint)
    requires q == ID_POINT || q == L_POINT || q == WORD_POINT
    ensures BaseOf(id, length, q).count == 1 && BaseOf(id, length, q).scaleRegister == ""
  {
  }

  lemma BaseOfText(id: int, length: int)
    ensures BaseOf(id, length, TEXT_POINT).count == 16 && BaseOf(id, length, TEXT_POINT).scaleRegister == ""
  {
  }

  predicate OneWord(r: Register) {
    r.count == 1 && r.scaleRegister == ""
  }

  lemma WordBases(id: int, length: int, n: nat)
    ensures forall i :: 0 <= i < n + 2 ==> OneWord(PointBases(id, length, WordSchema(n))[i])
  {
    hide BaseOf;
    forall i | 0 <= i < n + 2
      ensures OneWord(PointBases(id, length, WordSchema(n))[i])
    {
      BaseOfWord(id, length, WordSchema(n)[i]);
    }
  }

  lemma TextBases(id: int, length: int)
    ensures var bases := PointBases(id, length, TEXT_SCHEMA);
            OneWord(bases[0]) && OneWord(bases[1]) && bases[2].count == 16 && bases[2].scaleRegister == ""
  {
    hide BaseOf;
    BaseOfWord(id, length, ID_POINT);
    BaseOfWord(id, length, L_POINT);
    BaseOfText(id, length);
  }

  lemma LongBases()
    ensures var bases := Bases(LONG, LONG_MODELS);
            && |bases| == 113
            && forall i :: 0 <= i < 113 ==>
              bases[i].count == (if i < 112 then 1 else 16) && bases[i].scaleRegister == ""
  {
    hide ModelLength, Bases, BaseOf, WordSchema;
    TwoBases(LONG, 1, 2, LONG_MODELS);
    var first := PointBases(1, ModelLength(LONG[1]), WordSchema(108));
    var second := PointBases(2, ModelLength(TEXT_SCHEMA), TEXT_SCHEMA);
    WordBases(1, ModelLength(LONG[1]), 108);
    TextBases(2, ModelLength(TEXT_SCHEMA));
    JoinedBases(first, second);
  }

  lemma JoinedBases(first: seq<Register>, second: seq<Register>)
    requires |first| == 110 && |second| == 3 && forall i :: 0 <= i < 110 ==> OneWord(first[i])
    requires OneWord(second[0]) && OneWord(second[1]) && second[2].count == 16 && second[2].scaleRegister == ""
    ensures forall i :: 0 <= i < 113 ==>
              (first + second)[i].count == (if i < 112 then 1 else 16) && (first + second)[i].scaleRegister == ""
  {
    forall i | 0 <= i < 113
      ensures (first + second)[i].count == (if i < 112 then 1 else 16) && (first + second)[i].scaleRegister == ""
    {
      if i < 110 {
        assert OneWord(first[i]);
      } else {
        assert (first + second)[i] == second[i - 110];
      }
    }
  }

  lemma LongReady()
    ensures Configured(LONG, EMPTY, LONG_MODELS).1.None? && Fresh(LONG, LONG_MODELS).tags == map[]
    ensures Ready(Fresh(LONG, LONG_MODELS)) && Shaped(Fresh(LONG, LONG_MODELS), Bases(LONG, LONG_MODELS))
  {
    hide Standard, GoodModels, HasModel, ModelsFollow, Bases, WordSchema, PointBases, ModelLength, Serves, Accepted,
         Ready, Shaped, Fresh,
         GoodSchema, Configured;
    SchemasGood(108);
    TwoBare(LONG, 1, 2);
    LongBases();
    FewPointsFit(LONG, LONG_MODELS);
    FreshServes(LONG, LONG_MODELS);
    FreshTags(LONG, LONG_MODELS);
    FreshAccepted(LONG, LONG_MODELS);
    assert Fresh(LONG, LONG_MODELS).tags == map[];
    ServesReady(LONG, LONG_MODELS, Fresh(LONG, LONG_MODELS));
  }

  lemma {:induction false} LongStart(d: Device, k: nat)
    requires |d.registers| >= 114 && d.registers[0] == IDENTIFIER && 1 <= k <= 113
    requires forall i :: 1 <= i < 113 ==> d.registers[i].count == 1
    ensures Start(d.registers, k) == FIRST_MODEL + (k - 1)
  {
    if k == 1 {
      assert Start(d.registers, 0) == BASE;
    } else {
      LongStart(d, k - 1);
    }
  }

  lemma LongRegister(p: Platform, d: Device, bases: seq<Register>, k: nat)
    requires Ready(d) && Shaped(d, bases) && d.tags == map[] && 1 <= k <= |bases| && bases[k - 1].scaleRegister == ""
    ensures d.registers[k].count == bases[k - 1].count && d.Encoded(p, d.registers[k]).Ok?
  {
    var r := d.registers[k];
    assert Kin(d.registers[1 + (k - 1)], bases[k - 1]);
    assert d.ScalingOf(r) == Ok(0.0) && d.TagOf(r).None?;
    EncodedLength(p, r, None, 0.0);
  }

  lemma LongTail(p: Platform, d: Device)
    requires Ready(d) && Shaped(d, Bases(LONG, LONG_MODELS)) && d.tags == map[]
    ensures Tail(d.View(p), FIRST_MODEL, FIRST_MODEL + 112, 16)
  {
    hide Ready, Shaped, Bases, Start, Encode;
    ReadySound(d);
    LongBases();
    var bases := Bases(LONG, LONG_MODELS);
    ShapedCount(d, bases);
    forall k: nat | 1 <= k <= 113
      ensures d.registers[k].count == (if k < 113 then 1 else 16)
    {
      LongRegister(p, d, bases, k);
    }
    forall a | FIRST_MODEL <= a <= FIRST_MODEL + 112
      ensures a in d.View(p) && d.View(p)[a].bytes.Ok? && d.View(p)[a].count == if a < FIRST_MODEL + 112 then 1 else 16
    {
      var k: nat := a - FIRST_MODEL + 1;
      LongStart(d, k);
      LongRegister(p, d, bases, k);
      CellAt(p, d, k);
    }
  }

  /** This server answers a read of its first 113 registers with 256 bytes, announced as 0. */
  lemma LengthByteAt113(p: Platform)
    ensures Configured(LONG, EMPTY, LONG_MODELS).1.None? && Advancing(Fresh(LONG, LONG_MODELS).View(p))
    ensures var r := ReadResponse(Fresh(LONG, LONG_MODELS).View(p), U16(FIRST_MODEL) + U16(113));
            r.Success? && |r.data| == 257 && r.data[0] == 0
  {
    hide Fresh, Configured, Ready, Shaped, Tail, Bases, Standard, Accepted, WordSchema, Walk, Field;
    var d := Fresh(LONG, LONG_MODELS);
    LongReady();
    ReadyView(p, d);
    LongTail(p, d);
    TailResponse(d.View(p), FIRST_MODEL, 112, 16);
  }

  /** The answer to a read that ends on the first word of a long register. */
  lemma TailResponse(cells: Cells, start: nat, n: nat, words: nat)
    requires Advancing(cells) && Exact(cells) && start < 0x1_0000 && n + 1 < 0x1_0000
    requires Tail(cells, start, start + n, words)
    ensures var r := ReadResponse(cells, U16(start) + U16(n + 1));
            r.Success? && |r.data| == 1 + 2 * (n + words) && r.data[0] == 2 * (n + words) % 256
  {
    hide Walk, Field, U16, Tail;
    TailWalk(cells, start, start + n, words);
    RequestFields(start, n + 1);
  }
}
