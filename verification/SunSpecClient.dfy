/** The SunSpec client module's discovery: it confirms the identifier and walks the model chain of a remote device. */
module SunSpecClient {
  import opened Bytes
  import opened Decimal
  import opened GoRuntime
  import opened MessageBus
  import opened SunSpecRegister
  import opened SunSpecDevice

  /** Reading holding registers of the remote device: from an address, a quantity of words. */
  type Remote = (nat, nat) -> Result<seq<byte>>

  /** The protocol's limit on one read (MODBUS Application Protocol V1.1b3, section 6.3). */
  const MAX_READ := 125

  /** Nothing below the register map answers, and no read beyond the limit does. */
  ghost predicate Bounded(remote: Remote) {
    forall a: nat, q: nat :: remote(a, q).Ok? ==> a >= BASE && q <= MAX_READ
  }

  datatype Setting = Setting(startAddr: int, length: int)

  /**
   * A discovered point: its register, its slice of the model's data, and the address it would be written at (0 if
   * read-only).
   */
  datatype Found = Found(register: Register, raw: seq<byte>, addr: int)

  /** How discovery ended, or that it has not yet. */
  datatype End = Finished | Failed | Panicked | Unfinished

  datatype Survey = Survey(order: seq<int>, settings: map<int, Setting>, points: map<string, Found>, end: End)

  /** The register that the client reads ids and lengths with. */
  const WORD := Register(UInt16, "", 0, 1, 0.0, "", "", 0.0, "")

  // ---- one read each ----

  function ConfirmIdentifier(p: Platform, remote: Remote): Result<bool> {
    match remote(BASE, 2)
    case Ok(d) =>
      (match Decode(p, IDENTIFIER, d, 0.0)
       case Ok(v) => Ok(v == SUNSPEC_IDENTIFIER as real)
       case _ => Err)
    case Err => Err
    case Panic => Panic
  }

  /** The model id and length at an address. */
  function NextModel(p: Platform, remote: Remote, a: nat): Result<(int, int)> {
    match remote(a % 0x1_0000, 2)
    case Ok(d) =>
      if |d| < 4 then Panic
      else
        (match (Decode(p, WORD, d[0..2], 0.0), Decode(p, WORD, d[2..4], 0.0))
         case (Ok(m), Ok(l)) => Ok((Trunc(m), Trunc(l)))
         case _ => Err)
    case Err => Err
    case Panic => Panic
  }

  /** The client's register for a schema point; only a whole-number or a named scale factor is accepted. */
  function ClientRegister(m: int, q: SchemaPoint): Result<Register> {
    if q.scale.FloatScale? || q.scale.OtherScale? then Err
    else Init(Requested(m, 0, q).(internalValue := 0.0))
  }

  function Then(found: seq<Found>, r: Result<seq<Found>>): Result<seq<Found>> {
    match r
    case Ok(rest) => Ok(found + rest)
    case Err => Err
    case Panic => Panic
  }

  lemma ThenNothing(r: Result<seq<Found>>)
    ensures Then([], r) == r
  {
    if r.Ok? {
      assert [] + r.value == r.value;
    }
  }

  lemma ThenAll(found: seq<Found>)
    ensures Then(found, Ok([])) == Ok(found)
  {
    assert found + [] == found;
  }

  lemma ThenTwice(found: seq<Found>, f: Found, r: Result<seq<Found>>)
    ensures Then(found, Then([f], r)) == Then(found + [f], r)
  {
    if r.Ok? {
      assert found + ([f] + r.value) == (found + [f]) + r.value;
    }
  }

  /** The points of a model from the i-th on, each with its slice of the data from position pos. */
  function Slices(schema: Schema, m: int, a: int, d: seq<byte>, i: nat, pos: int): Result<seq<Found>>
    decreases |schema| - i
  {
    if i >= |schema| then Ok([])
    else if i < 2 then Slices(schema, m, a, d, i + 1, pos)
    else
      var q := schema[i];
      var r := ClientRegister(m, q);
      var end := pos + q.size * 2;
      if !r.Ok? then Err
      else if !(0 <= pos <= end <= |d|) then Panic
      else Then([Found(r.value, d[pos..end], if q.writable then a + pos else 0)], Slices(schema, m, a, d, i + 1, end))
  }

  function ModelData(schemas: Schemas, remote: Remote, m: int, a: nat, l: nat): Result<seq<Found>> {
    match remote(a % 0x1_0000, l % 0x1_0000)
    case Ok(d) => if m !in schemas then Err else Slices(schemas[m], m, a, d, 0, 0)
    case Err => Err
    case Panic => Panic
  }

  /** The points by name; of several with one name the last counts. */
  function ByName(found: seq<Found>): map<string, Found> {
    if found == [] then map[]
    else ByName(found[..|found| - 1])[found[|found| - 1].register.name := found[|found| - 1]]
  }

  lemma ByNameAppend(found: seq<Found>, f: Found)
    ensures ByName(found + [f]) == ByName(found)[f.register.name := f]
  {
    assert (found + [f])[..|found|] == found;
  }

  function ModelPoints(schemas: Schemas, remote: Remote, m: int, a: nat, l: nat): Result<map<string, Found>> {
    match ModelData(schemas, remote, m, a, l)
    case Ok(found) => Ok(ByName(found))
    case Err => Err
    case Panic => Panic
  }

  // ---- the walk over the model chain ----

  lemma NextModelBounds(p: Platform, remote: Remote, a: nat)
    requires p.ExactPowers() && NextModel(p, remote, a).Ok?
    ensures 0 <= NextModel(p, remote, a).value.0 <= 0xFFFF && 0 <= NextModel(p, remote, a).value.1 <= 0xFFFF
  {
    var d := remote(a % 0x1_0000, 2).value;
    WordValue(p, d[0..2]);
    WordValue(p, d[2..4]);
  }

  lemma WordValue(p: Platform, d: seq<byte>)
    requires p.ExactPowers() && |d| == 2
    ensures Decode(p, WORD, d, 0.0) == Ok(FromBigEndian(d) as real) && FromBigEndian(d) <= 0xFFFF
  {
    DecodeInteger(p, WORD, d, 0.0);
    TimesOne(FromBigEndian(d) as real);
    BytesRoundTrip(d);
    assert Words(2) == 0x1_0000;
  }

  function FailureEnd<T>(r: Result<T>): End {
    if r.Panic? then Panicked else Failed
  }

  /** Everything that some rounds of the discovery loop add to a survey from an address on. */
  function Explored(p: Platform, schemas: Schemas, remote: Remote, addr: nat, model1: bool, s: Survey,
                    rounds: nat): Survey
    requires p.ExactPowers()
    decreases rounds
  {
    if rounds == 0 then s.(end := Unfinished)
    else
      var next := NextModel(p, remote, addr);
      if !next.Ok? then s.(end := FailureEnd(next))
      else
        NextModelBounds(p, remote, addr);
        var (id, length) := next.value;
        if !model1 && id != 1 then s.(end := Failed)
        else if id == END_ID then s.(end := Finished)
        else
          var s' := s.(order := s.order + [id], settings := s.settings[id := Setting(addr + 2, length)]);
          var data := ModelPoints(schemas, remote, id, addr + 2, length);
          if !data.Ok? then s'.(end := FailureEnd(data))
          else Explored(p, schemas, remote, addr + 2 + length, true, s'.(points := s'.points + data.value), rounds - 1)
  }

  /** A model that is read in full moves the exploration past it. */
  lemma ExploredOn(p: Platform, schemas: Schemas, remote: Remote, addr: nat, model1: bool, s: Survey, rounds: nat,
                   id: int, length: int,
                   points: map<string, Found>)
    requires p.ExactPowers() && rounds > 0
    requires NextModel(p, remote, addr) == Ok((id, length)) && (model1 || id == 1) && id != END_ID && length >= 0
    requires ModelPoints(schemas, remote, id, addr + 2, length) == Ok(points)
    ensures Explored(p, schemas, remote, addr, model1, s, rounds)
         == Explored(p, schemas, remote, addr + 2 + length, true,
                     s.(order := s.order + [id], settings := s.settings[id := Setting(addr + 2, length)],
                        points := s.points + points), rounds - 1)
  {
  }

  lemma ExploredFails(p: Platform, schemas: Schemas, remote: Remote, addr: nat, model1: bool, s: Survey, rounds: nat)
    requires p.ExactPowers() && rounds > 0
    ensures var next := NextModel(p, remote, addr); var r := Explored(p, schemas, remote, addr, model1, s, rounds);
            && (!next.Ok? ==> r == s.(end := FailureEnd(next)))
            && (next.Ok? ==>
                  var (id, length) := next.value;
                  && length >= 0
                  && var data := ModelPoints(schemas, remote, id, addr + 2, length);
                  ((model1 || id == 1) && id != END_ID && !data.Ok? ==>
                     r == s.(order := s.order + [id], settings := s.settings[id := Setting(addr + 2, length)],
                             end := FailureEnd(data))))
  {
    if NextModel(p, remote, addr).Ok? {
      NextModelBounds(p, remote, addr);
    }
  }

  /** How an exploration ends: no model 1 first, a model that cannot be read, or the end marker. */
  lemma ExploredEnds(p: Platform, schemas: Schemas, remote: Remote, addr: nat, model1: bool, s: Survey, rounds: nat,
                     id: int, length: nat)
    requires p.ExactPowers() && rounds > 0
    requires NextModel(p, remote, addr) == Ok((id, length))
    ensures var r := Explored(p, schemas, remote, addr, model1, s, rounds);
            && (!model1 && id != 1 ==> r == s.(end := Failed))
            && (model1 && id == END_ID ==> r == s.(end := Finished))
            && (id != END_ID && !ModelPoints(schemas, remote, id, addr + 2, length).Ok? ==> !r.end.Finished?)
  {
  }

  function Discovered(p: Platform, schemas: Schemas, remote: Remote, s: Survey, rounds: nat): Survey
    requires p.ExactPowers()
  {
    var good := ConfirmIdentifier(p, remote);
    if !good.Ok? then s.(end := FailureEnd(good))
    else if !good.value then s.(end := Failed)
    else Explored(p, schemas, remote, FIRST_MODEL, false, s, rounds)
  }

  // ---- the module ----

  class SunSpecClient {
    const platform: Platform
    const schemas: Schemas

    var order: seq<int>
    var settings: map<int, Setting>
    var points: map<string, Found>

    constructor (platform: Platform, schemas: Schemas)
      ensures this.platform == platform && this.schemas == schemas
      ensures order == [] && settings == map[] && points == map[]
    {
      this.platform, this.schemas := platform, schemas;
      order, settings, points := [], map[], map[];
    }

    /** The slices of a model's data; the loop of modelData. */
    method ReadModel(remote: Remote, m: int, a: nat, l: nat) returns (r: Result<map<string, Found>>)
      ensures r == ModelPoints(schemas, remote, m, a, l)
    {
      var read := remote(a % 0x1_0000, l % 0x1_0000);
      if !read.Ok? { return if read.Err? then Err else Panic; }
      var d := read.value;
      if m !in schemas { return Err; }
      var schema := schemas[m];
      var pos := 0;
      var regs: map<string, Found> := map[];
      ghost var found: seq<Found> := [];
      ThenNothing(Slices(schema, m, a, d, 0, 0));
      for i := 0 to |schema|
        invariant regs == ByName(found)
        invariant Slices(schema, m, a, d, 0, 0) == Then(found, Slices(schema, m, a, d, i, pos))
      {
        if i < 2 { continue; }
        var q := schema[i];
        var r := ClientRegister(m, q);
        if !r.Ok? { return Err; }
        var end := pos + q.size * 2;
        if !(0 <= pos <= end <= |d|) { return Panic; }
        var f := Found(r.value, d[pos..end], if q.writable then a + pos else 0);
        ThenTwice(found, f, Slices(schema, m, a, d, i + 1, end));
        ByNameAppend(found, f);
        regs := regs[r.value.name := f];
        found := found + [f];
        pos := end;
      }
      ThenAll(found);
      return Ok(regs);
    }

    /** Discovery, followed for a number of rounds of its loop. */
    method Discover(remote: Remote, rounds: nat) returns (end: End)
      requires platform.ExactPowers()
      modifies this
      ensures Survey(order, settings, points, end)
           == Discovered(platform, schemas, remote, Survey(old(order), old(settings), old(points), Failed), rounds)
    {
      hide Explored, NextModel, ModelPoints, ConfirmIdentifier;
      end := Failed;
      var good := ConfirmIdentifier(platform, remote);
      if !good.Ok? { return FailureEnd(good); }
      if !good.value { return; }
      var addr: nat, model1 := FIRST_MODEL, false;
      ghost var s := Survey(order, settings, points, Failed);
      for round := 0 to rounds
        invariant end == Failed
        invariant Explored(platform, schemas, remote, FIRST_MODEL, false, s, rounds)
               == Explored(platform, schemas, remote, addr, model1, Survey(order, settings, points, Failed),
                           rounds - round)
      {
        ghost var before, start, known, left := Survey(order, settings, points, Failed), addr, model1, rounds - round;
        var next := NextModel(platform, remote, addr);
        ExploredFails(platform, schemas, remote, start, known, before, left);
        if !next.Ok? { return FailureEnd(next); }
        var (id, length) := next.value;
        ExploredEnds(platform, schemas, remote, start, known, before, left, id, length);
        if !model1 {
          if id == 1 {
            model1 := true;
          } else {
            return;
          }
        }
        if id == END_ID { return Finished; }
        addr := addr + 2;
        order := order + [id];
        settings := settings[id := Setting(addr, length)];
        var data := ReadModel(remote, id, addr, length);
        if !data.Ok? { return FailureEnd(data); }
        points := points + data.value;
        ExploredOn(platform, schemas, remote, start, known, before, left, id, length, data.value);
        addr := addr + length;
      }
      NotYet(platform, schemas, remote, addr, model1, Survey(order, settings, points, Failed));
      return Unfinished;
    }
  }

  lemma NotYet(p: Platform, schemas: Schemas, remote: Remote, addr: nat, model1: bool, s: Survey)
    requires p.ExactPowers()
    ensures Explored(p, schemas, remote, addr, model1, s, 0) == s.(end := Unfinished)
  {
  }
}
