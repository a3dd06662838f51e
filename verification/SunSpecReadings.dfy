/**
 * What a finished discovery leaves under each point name: the bytes that the server encodes for the last point of
 * that name on the walk, whichever model it belongs to.
 */
module SunSpecReadings {
  import opened Bytes
  import opened Decimal
  import opened GoRuntime
  import opened MessageBus
  import opened RegisterWalk
  import opened SunSpecRegister
  import opened SunSpecWire
  import opened SunSpecDevice
  import opened SunSpecLayout
  import opened SunSpecClient
  import opened SunSpecDiscovery

  /** A register, and its bytes or why there are none. */
  datatype Reading = Reading(register: Register, raw: Result<seq<byte>>)

  /** Readings by point name. */
  type Readings = map<string, Reading>

  function ReadingsOf(points: map<string, Found>): Readings {
    map n | n in points :: Reading(points[n].register, Ok(points[n].raw))
  }

  lemma RawsMerge(a: map<string, Found>, b: map<string, Found>)
    ensures ReadingsOf(a + b) == ReadingsOf(a) + ReadingsOf(b)
  {
  }

  // ---- what the server would send ----

  /** What a client should hold for the i-th register: the register without its contents, and its bytes. */
  ghost function ReadingOf(p: Platform, d: Device, i: nat): Reading
    requires d.Sound() && i < |d.registers|
  {
    Reading(Unfilled(d.registers[i]), d.Encoded(p, d.registers[i]))
  }

  /** What the server encodes for the registers from lo up to hi, by name; of several with one name the last counts. */
  ghost function EncodedByName(p: Platform, d: Device, lo: nat, hi: nat): Readings
    requires d.Sound() && lo <= hi <= |d.registers|
    decreases hi - lo
  {
    if lo == hi then map[]
    else EncodedByName(p, d, lo, hi - 1)[d.registers[hi - 1].name := ReadingOf(p, d, hi - 1)]
  }

  /** The registers fit behind the k-th, model by model. */
  predicate Fits(schemas: Schemas, d: Device, models: seq<ModelElement>, k: nat)
    requires Listed(schemas, models)
    decreases models
  {
    if models == [] then k <= |d.registers|
    else
      var schema := schemas[models[0].id.value];
      |schema| >= 2 && k + |schema| <= |d.registers| && Fits(schemas, d, models[1..], k + |schema|)
  }

  /** The same for all the models of a list, laid out from register k on, without their headers. */
  ghost function WalkedByName(p: Platform, schemas: Schemas, d: Device, models: seq<ModelElement>, k: nat): Readings
    requires d.Sound() && Listed(schemas, models) && Fits(schemas, d, models, k)
    decreases models
  {
    if models == [] then map[]
    else
      var n := |schemas[models[0].id.value]|;
      EncodedByName(p, d, k + 2, k + n) + WalkedByName(p, schemas, d, models[1..], k + n)
  }

  /** Register i belongs to a point, other than ID and L, of one of the models. */
  predicate OnWalk(schemas: Schemas, models: seq<ModelElement>, k: nat, i: nat)
    requires Listed(schemas, models)
    decreases models
  {
    models != []
    && (k + 2 <= i < k + |schemas[models[0].id.value]|
        || OnWalk(schemas, models[1..], k + |schemas[models[0].id.value]|, i))
  }

  /** The last register of its name on the walk. */
  ghost predicate LastOnWalk(schemas: Schemas, d: Device, models: seq<ModelElement>, k: nat, i: nat)
    requires Listed(schemas, models) && i < |d.registers|
  {
    && OnWalk(schemas, models, k, i)
    && forall j: nat :: i < j < |d.registers| && OnWalk(schemas, models, k, j) ==>
      d.registers[j].name != d.registers[i].name
  }

  lemma {:induction false} EncodedLast(p: Platform, d: Device, lo: nat, hi: nat, i: nat)
    requires d.Sound() && lo <= i < hi <= |d.registers|
    requires forall j :: i < j < hi ==> d.registers[j].name != d.registers[i].name
    ensures d.registers[i].name in EncodedByName(p, d, lo, hi)
    ensures EncodedByName(p, d, lo, hi)[d.registers[i].name] == ReadingOf(p, d, i)
    decreases hi - lo
  {
    if i < hi - 1 {
      EncodedLast(p, d, lo, hi - 1, i);
    }
  }

  lemma {:induction false} EncodedNamed(p: Platform, d: Device, lo: nat, hi: nat, n: string) returns (i: nat)
    requires d.Sound() && lo <= hi <= |d.registers| && n in EncodedByName(p, d, lo, hi)
    ensures lo <= i < hi && d.registers[i].name == n
    decreases hi - lo
  {
    if d.registers[hi - 1].name == n {
      i := hi - 1;
    } else {
      i := EncodedNamed(p, d, lo, hi - 1, n);
    }
  }

  lemma {:induction false} OnWalkAfter(schemas: Schemas, models: seq<ModelElement>, k: nat, i: nat)
    requires Listed(schemas, models) && OnWalk(schemas, models, k, i)
    ensures i >= k
    decreases models
  {
    if !(k + 2 <= i < k + |schemas[models[0].id.value]|) {
      OnWalkAfter(schemas, models[1..], k + |schemas[models[0].id.value]|, i);
    }
  }

  /** The last register of a name on the walk decides what stands under that name. */
  lemma {:induction false} WalkedLast(p: Platform, schemas: Schemas, d: Device, models: seq<ModelElement>, k: nat,
                                      i: nat)
    requires d.Sound() && Listed(schemas, models) && Fits(schemas, d, models, k) && i < |d.registers|
    requires LastOnWalk(schemas, d, models, k, i)
    ensures d.registers[i].name in WalkedByName(p, schemas, d, models, k)
    ensures WalkedByName(p, schemas, d, models, k)[d.registers[i].name] == ReadingOf(p, d, i)
    decreases models
  {
    var n := |schemas[models[0].id.value]|;
    var rest, name := models[1..], d.registers[i].name;
    if OnWalk(schemas, rest, k + n, i) {
      forall j: nat | i < j < |d.registers| && OnWalk(schemas, rest, k + n, j)
        ensures d.registers[j].name != name
      {
        assert OnWalk(schemas, models, k, j);
      }
      WalkedLast(p, schemas, d, rest, k + n, i);
    } else {
      assert forall j: nat :: i < j < k + n ==> OnWalk(schemas, models, k, j);
      EncodedLast(p, d, k + 2, k + n, i);
      if name in WalkedByName(p, schemas, d, rest, k + n) {
        var j := WalkedNamed(p, schemas, d, rest, k + n, name);
        OnWalkAfter(schemas, rest, k + n, j);
      }
    }
  }

  lemma {:induction false} WalkedNamed(p: Platform, schemas: Schemas, d: Device, models: seq<ModelElement>, k: nat,
                                       n: string)
    returns (i: nat)
    requires d.Sound() && Listed(schemas, models) && Fits(schemas, d, models, k)
    requires n in WalkedByName(p, schemas, d, models, k)
    ensures i < |d.registers| && OnWalk(schemas, models, k, i) && d.registers[i].name == n
    decreases models
  {
    hide EncodedByName;
    var size := |schemas[models[0].id.value]|;
    if n in WalkedByName(p, schemas, d, models[1..], k + size) {
      i := WalkedNamed(p, schemas, d, models[1..], k + size, n);
    } else {
      i := EncodedNamed(p, d, k + 2, k + size, n);
    }
  }

  // ---- one model ----

  /** What the client finds in a model's data is, by name, what the server encodes. */
  lemma {:induction false} SlicedByName(p: Platform, d: Device, k: nat, i: nat, found: seq<Found>)
    requires d.Sound() && k + i + |found| <= |d.registers| && Sliced(p, d, k, i, found)
    ensures ReadingsOf(ByName(found)) == EncodedByName(p, d, k + i, k + i + |found|)
    decreases |found|
  {
    hide Sliced, ReadingsOf;
    if found == [] {
      NothingRead();
    } else {
      var n := |found| - 1;
      SlicedLast(p, d, k, i, found);
      SlicedByName(p, d, k, i, found[..n]);
      RawsSet(ByName(found[..n]), found[n]);
    }
  }

  lemma NothingRead()
    ensures ReadingsOf(map[]) == map[]
  {
  }

  lemma SlicedLast(p: Platform, d: Device, k: nat, i: nat, found: seq<Found>)
    requires d.Sound() && k + i + |found| <= |d.registers| && found != [] && Sliced(p, d, k, i, found)
    ensures var n := |found| - 1;
            && Sliced(p, d, k, i, found[..n])
            && Reading(found[n].register, Ok(found[n].raw)) == ReadingOf(p, d, k + i + n)
            && found[n].register.name == d.registers[k + i + n].name
  {
  }

  lemma RawsSet(points: map<string, Found>, f: Found)
    ensures ReadingsOf(points[f.register.name := f])
         == ReadingsOf(points)[f.register.name := Reading(f.register, Ok(f.raw))]
  {
  }

  /** What the remote device answers at a model laid out at register k: its header, and its data if that can be read. */
  ghost predicate Answers(p: Platform, schemas: Schemas, d: Device, remote: Remote, id: int, k: nat)
    requires d.Sound() && id in schemas && 2 <= |schemas[id]| && k + |schemas[id]| <= |d.registers|
  {
    var a, l := Start(d.registers, k), ModelLength(schemas[id]);
    && a >= 0 && l >= 0 && Start(d.registers, k + |schemas[id]|) == a + 2 + l
    && NextModel(p, remote, a) == Ok((id, l))
    && (ModelPoints(schemas, remote, id, a + 2, l).Ok? ==>
          ReadingsOf(ModelPoints(schemas, remote, id, a + 2, l).value) == EncodedByName(p, d, k + 2, k + |schemas[id]|))
  }

  lemma ModelAnswers(p: Platform, schemas: Schemas, d: Device, id: int, k: nat)
    requires p.ExactPowers() && Ready(d) && id in schemas && ModelAt(d, k, id, schemas[id])
    ensures d.Sound() && 2 <= |schemas[id]| && k + |schemas[id]| <= |d.registers| && Advancing(d.View(p))
    ensures Answers(p, schemas, d, Link(p, d), id, k)
  {
    hide Link, NextModel, ModelAt, Start, Ready, ModelData, EncodedByName, ReadingsOf, ByName;
    ReadySound(d);
    ModelBounds(d, k, id, schemas[id]);
    AtModel(p, schemas, d, id, k);
    ModelDataRead(p, schemas, d, k, id);
    var r := ModelData(schemas, Link(p, d), id, Start(d.registers, k) + 2, ModelLength(schemas[id]));
    if r.Ok? {
      SlicedByName(p, d, k, 2, r.value);
    }
  }

  // ---- the walk ----

  lemma FirstFits(schemas: Schemas, d: Device, models: seq<ModelElement>, k: nat)
    requires models != [] && Listed(schemas, models) && Standard(schemas, models)
    requires |d.registers| == k + |Bases(schemas, models)| + 2
    ensures models[0].id.Some? && models[0].id.value in schemas && Listed(schemas, models[1..])
    ensures Standard(schemas, models[1..])
    ensures var id := models[0].id.value;
            && 2 <= |schemas[id]| && k + |schemas[id]| <= |d.registers| && 0 <= id < END_ID
            && |d.registers| == k + |schemas[id]| + |Bases(schemas, models[1..])| + 2
  {
    hide Bases;
    FirstListed(d, schemas, models);
    RestStandard(schemas, models);
  }

  lemma {:induction false} BasesFit(schemas: Schemas, d: Device, models: seq<ModelElement>, k: nat)
    requires Listed(schemas, models) && Standard(schemas, models) && |d.registers| == k + |Bases(schemas, models)| + 2
    ensures Fits(schemas, d, models, k)
    decreases models
  {
    hide Standard, Bases, Listed;
    if models == [] {
      NothingListed(d, schemas);
    } else {
      FirstFits(schemas, d, models, k);
      BasesFit(schemas, d, models[1..], k + |schemas[models[0].id.value]|);
    }
  }

  /** The readings of the first model and of the rest. */
  lemma WalkedFirst(p: Platform, schemas: Schemas, d: Device, models: seq<ModelElement>, k: nat)
    requires d.Sound() && models != [] && Listed(schemas, models) && Fits(schemas, d, models, k)
    ensures var n := |schemas[models[0].id.value]|;
            && 2 <= n && k + n <= |d.registers| && Fits(schemas, d, models[1..], k + n)
            && WalkedByName(p, schemas, d, models, k)
               == EncodedByName(p, d, k + 2, k + n) + WalkedByName(p, schemas, d, models[1..], k + n)
  {
  }

  ghost predicate AllAnswer(p: Platform, schemas: Schemas, d: Device, remote: Remote)
    requires d.Sound()
  {
    forall id, j: nat :: id in schemas && ModelAt(d, j, id, schemas[id]) ==> Answers(p, schemas, d, remote, id, j)
  }

  /** The exploration of a device laid out from a list of models collects, if it finishes, the readings of them all. */
  lemma {:induction false} ExploresReadings(p: Platform, schemas: Schemas, d: Device, remote: Remote,
                                            models: seq<ModelElement>, k: nat,
                                            model1: bool, s: Survey, rounds: nat)
    requires p.ExactPowers() && d.Sound() && 1 <= k && Listed(schemas, models) && Standard(schemas, models)
    requires rounds > |models|
    requires |d.registers| == k + |Bases(schemas, models)| + 2 && KinFrom(d, k, Bases(schemas, models))
    requires AllAnswer(p, schemas, d, remote) && MeetsEnd(p, d, remote) && Fits(schemas, d, models, k)
    ensures Start(d.registers, k) >= 0
    ensures var r := Explored(p, schemas, remote, Start(d.registers, k), model1, s, rounds);
            r.end.Finished? ==> ReadingsOf(r.points) == ReadingsOf(s.points) + WalkedByName(p, schemas, d, models, k)
    decreases models
  {
    hide KinFrom, Standard, Chain, Start, Bases, ModelBases, PointBases, Listed, ModelLength, Headed, SizesMatch,
         ModelAt, Fits,
         WalkedByName, EncodedByName, Explored, ReadingsOf, AllAnswer, NextModel, ModelPoints;
    if models == [] {
      EndReadings(p, schemas, d, remote, models, k, model1, s, rounds);
    } else {
      FirstFits(schemas, d, models, k);
      FirstListed(d, schemas, models);
      WalkedFirst(p, schemas, d, models, k);
      RestStandard(schemas, models);
      var id := models[0].id.value;
      KinSplit(d, k, ModelBases(schemas, models[0]), Bases(schemas, models[1..]));
      KinModelAt(d, k, id, schemas[id]);
      AnswersOne(p, schemas, d, remote, id, k);
      var a, l := Start(d.registers, k), ModelLength(schemas[id]);
      var data := ModelPoints(schemas, remote, id, a + 2, l);
      ExploredEnds(p, schemas, remote, a, model1, s, rounds, id, l);
      if (model1 || id == 1) && data.Ok? {
        var s' := s.(order := s.order + [id], settings := s.settings[id := Setting(a + 2, l)],
                    points := s.points + data.value);
        ExploredOn(p, schemas, remote, a, model1, s, rounds, id, l, data.value);
        ExploresReadings(p, schemas, d, remote, models[1..], k + |schemas[id]|, true, s', rounds - 1);
        RawsMerge(s.points, data.value);
        Associative(ReadingsOf(s.points), ReadingsOf(data.value),
                    WalkedByName(p, schemas, d, models[1..], k + |schemas[id]|));
      }
    }
  }

  lemma Associative(a: Readings, b: Readings, c: Readings)
    ensures (a + b) + c == a + (b + c)
  {
  }

  lemma AnswersOne(p: Platform, schemas: Schemas, d: Device, remote: Remote, id: int, k: nat)
    requires d.Sound() && AllAnswer(p, schemas, d, remote) && id in schemas && ModelAt(d, k, id, schemas[id])
    ensures 2 <= |schemas[id]| && k + |schemas[id]| <= |d.registers| && Answers(p, schemas, d, remote, id, k)
  {
  }

  lemma EndReadings(p: Platform, schemas: Schemas, d: Device, remote: Remote, models: seq<ModelElement>, k: nat,
                    model1: bool, s: Survey,
                    rounds: nat)
    requires p.ExactPowers() && d.Sound() && models == [] && rounds > 0
    requires |d.registers| == k + |Bases(schemas, models)| + 2 && MeetsEnd(p, d, remote) && Fits(schemas, d, models, k)
    ensures Start(d.registers, k) >= 0
    ensures var r := Explored(p, schemas, remote, Start(d.registers, k), model1, s, rounds);
            r.end.Finished? ==> ReadingsOf(r.points) == ReadingsOf(s.points) + WalkedByName(p, schemas, d, models, k)
  {
    hide Start, Explored, NextModel, ModelPoints;
    NothingListed(d, schemas);
    ExploredEnds(p, schemas, remote, Start(d.registers, k), model1, s, rounds, END_ID, 0);
    assert ReadingsOf(s.points) + map[] == ReadingsOf(s.points);
  }

  // ---- the main result ----

  /**
   * After a finished discovery the client has a point under exactly the names on the walk, and its raw bytes are
   * what the server encodes for the last register of that name.
   */
  lemma DiscoveredReadings(p: Platform, schemas: Schemas, models: seq<ModelElement>, d: Device, rounds: nat)
    requires p.ExactPowers() && Standard(schemas, models) && Serves(schemas, models, d) && "" !in d.tags
    requires rounds > |models|
    ensures Listed(schemas, models) && d.Sound() && Advancing(d.View(p))
    ensures var r := Discovered(p, schemas, Link(p, d), NEW_SURVEY, rounds);
            r.end.Finished? ==>
              && (forall i: nat :: i < |d.registers| && LastOnWalk(schemas, d, models, 1, i) ==>
                    Read(p, d, r.points, i))
              && (forall n :: n in r.points ==> NamedOnWalk(schemas, d, models, n))
  {
    hide Standard, Serves, Listed, Explored, Ready, Shaped, Bases, Fits, WalkedByName, LastOnWalk, OnWalk, AllAnswer,
         Start, ReadingsOf,
         ConfirmIdentifier, MeetsEnd;
    ServesReady(schemas, models, d);
    IdentifierConfirmed(p, d);
    DeviceAnswers(p, schemas, d, models);
    var r := Discovered(p, schemas, Link(p, d), NEW_SURVEY, rounds);
    ExploresReadings(p, schemas, d, Link(p, d), models, 1, false, NEW_SURVEY, rounds);
    if r.end.Finished? {
      NothingRaw();
      assert ReadingsOf(r.points) == WalkedByName(p, schemas, d, models, 1);
      RawsKeys(r.points);
      forall i: nat | i < |d.registers| && LastOnWalk(schemas, d, models, 1, i)
        ensures Read(p, d, r.points, i)
      {
        WalkedLast(p, schemas, d, models, 1, i);
      }
      forall n | n in r.points
        ensures NamedOnWalk(schemas, d, models, n)
      {
        var i := WalkedNamed(p, schemas, d, models, 1, n);
      }
    }
  }

  /** One step of a register's values. */
  function Unit(p: Platform, r: Register, k: real): real {
    match Scale(r, k) case Some(x) => p.pow10(x) case None => 1.0
  }

  /**
   * What the client makes of a point that it holds: its register is of the server's type, width and scale factor, and
   * decoding its bytes with the server's exponent gives the server's value within one step, towards zero, if the value
   * is in range.
   */
  ghost predicate Understood(p: Platform, d: Device, f: Found, i: nat)
    requires d.Sound() && i < |d.registers|
  {
    var r := d.registers[i];
    && f.register.dataType == r.dataType && f.register.count == r.count && f.register.model == r.model
    && f.register.scaling == r.scaling && f.register.scaleRegister == r.scaleRegister
    && (IntegerType(r.dataType) && d.ScalingOf(r).Ok? ==>
          var k, v := d.ScalingOf(r).value, Value(r, d.TagOf(r));
          var back := Decode(p, f.register, f.raw, k);
          back.Ok? && (Range(r.dataType, InSteps(p, r, v, k)) ==>
                         Abs(v - back.value) < Unit(p, r, k) && Between(back.value, v)))
  }

  lemma ReadUnderstood(p: Platform, d: Device, points: map<string, Found>, i: nat)
    requires p.ExactPowers() && d.Sound() && i < |d.registers| && Read(p, d, points, i) && Initialised(d.registers[i])
    ensures Understood(p, d, points[d.registers[i].name], i)
  {
    var r, f := d.registers[i], points[d.registers[i].name];
    if IntegerType(r.dataType) && d.ScalingOf(r).Ok? {
      var k, v := d.ScalingOf(r).value, Value(r, d.TagOf(r));
      SameBytes(p, r, d.TagOf(r), k);
      SunSpecRegister.ReadBack(p, r, v, k);
      FitsInFigures(p, r, v, k);
      UnfilledDecodes(p, r, f.raw, k);
    }
  }

  lemma SameBytes(p: Platform, r: Register, value: Option<real>, k: real)
    requires IntegerType(r.dataType)
    ensures Encode(p, r, value, k) == Encode(p, r, Some(Value(r, value)), k)
  {
  }

  lemma UnfilledDecodes(p: Platform, r: Register, raw: seq<byte>, k: real)
    ensures Decode(p, Unfilled(r), raw, k) == Decode(p, r, raw, k)
  {
  }

  /** So after a finished discovery the client understands the last register of every name on the walk. */
  lemma DiscoveredValues(p: Platform, schemas: Schemas, models: seq<ModelElement>, d: Device, rounds: nat, i: nat)
    requires p.ExactPowers() && Standard(schemas, models) && Serves(schemas, models, d) && "" !in d.tags
    requires rounds > |models| && i < |d.registers|
    ensures Listed(schemas, models) && d.Sound() && Advancing(d.View(p))
    ensures var r := Discovered(p, schemas, Link(p, d), NEW_SURVEY, rounds);
            r.end.Finished? && LastOnWalk(schemas, d, models, 1, i) ==>
              d.registers[i].name in r.points && Understood(p, d, r.points[d.registers[i].name], i)
  {
    hide Standard, Serves, Listed, Discovered, LastOnWalk, Understood;
    DiscoveredReadings(p, schemas, models, d, rounds);
    ServesReady(schemas, models, d);
    var r := Discovered(p, schemas, Link(p, d), NEW_SURVEY, rounds);
    if r.end.Finished? && LastOnWalk(schemas, d, models, 1, i) {
      ReadUnderstood(p, d, r.points, i);
    }
  }

  /**
   * A scale factor travels exactly: from a point that others name for it, of the type for scale factors and without a
   * tag, the client decodes the very exponent that the server scales them with, if it is a whole number of 16 bits.
   */
  lemma ScaleFactorRead(p: Platform, d: Device, points: map<string, Found>, i: nat, s: nat, k: int)
    requires p.ExactPowers() && d.Sound() && i < |d.registers| && s < |d.registers|
    requires var r := d.registers[i];
             r.scaleRegister != "" && r.scaleRegister in d.points && d.points[r.scaleRegister] == s
    requires var q := d.registers[s];
             q.dataType == Sunssf && q.name == d.registers[i].scaleRegister && q.tag !in d.tags && q.scaleRegister == ""
             && q.internalValue == k as real && -32768 <= k <= 32767
    requires Read(p, d, points, s)
    ensures var f := points[d.registers[i].scaleRegister];
            d.ScalingOf(d.registers[i]) == Ok(k as real) && Decode(p, f.register, f.raw, 0.0) == Ok(k as real)
  {
    var q, f := d.registers[s], points[d.registers[i].scaleRegister];
    TruncWhole(k);
    EncodedInFigures(p, q, None, 0.0);
    assert d.Encoded(p, q) == Encode(p, q, None, 0.0) && Ok(f.raw) == d.Encoded(p, q);
    DecodedInFigures(p, f.register, f.raw, 0.0);
    assert f.raw[..2] == f.raw;
  }

  /** Some point on the walk has the name. */
  ghost predicate NamedOnWalk(schemas: Schemas, d: Device, models: seq<ModelElement>, n: string)
    requires Listed(schemas, models)
  {
    exists i: nat :: i < |d.registers| && OnWalk(schemas, models, 1, i) && d.registers[i].name == n
  }

  /** The client holds for a register what the server encodes for it. */
  ghost predicate Read(p: Platform, d: Device, points: map<string, Found>, i: nat)
    requires d.Sound() && i < |d.registers|
  {
    d.registers[i].name in points
    && var f := points[d.registers[i].name];
       f.register == Unfilled(d.registers[i]) && Ok(f.raw) == d.Encoded(p, d.registers[i])
  }

  lemma NothingRaw()
    ensures forall r: Readings :: ReadingsOf(NEW_SURVEY.points) + r == r
  {
    assert ReadingsOf(NEW_SURVEY.points) == map[];
  }

  lemma RawsKeys(points: map<string, Found>)
    ensures forall n :: n in ReadingsOf(points) <==> n in points
    ensures forall n :: n in points ==> ReadingsOf(points)[n] == Reading(points[n].register, Ok(points[n].raw))
  {
  }

  lemma DeviceAnswers(p: Platform, schemas: Schemas, d: Device, models: seq<ModelElement>)
    requires p.ExactPowers() && Ready(d) && Listed(schemas, models) && Standard(schemas, models)
    requires Shaped(d, Bases(schemas, models))
    ensures d.Sound() && Advancing(d.View(p)) && AllAnswer(p, schemas, d, Link(p, d)) && MeetsEnd(p, d, Link(p, d))
    ensures |d.registers| == 1 + |Bases(schemas, models)| + 2 && KinFrom(d, 1, Bases(schemas, models))
    ensures Fits(schemas, d, models, 1)
    ensures Start(d.registers, 1) == FIRST_MODEL
  {
    hide Link, ModelAt, Answers, Standard, KinFrom, Bases, NextModel;
    ReadySound(d);
    ReadyView(p, d);
    forall id, j: nat | id in schemas && ModelAt(d, j, id, schemas[id])
      ensures 2 <= |schemas[id]| && j + |schemas[id]| <= |d.registers| && Answers(p, schemas, d, Link(p, d), id, j)
    {
      ModelAnswers(p, schemas, d, id, j);
    }
    var k := |d.registers| - 2;
    ModelAddress(d, k);
    HeaderRead(p, d, k, END_ID, 0);
    BasesFit(schemas, d, models, 1);
    assert Start(d.registers, 1) == Start(d.registers, 0) + IDENTIFIER.count == FIRST_MODEL;
  }
}
