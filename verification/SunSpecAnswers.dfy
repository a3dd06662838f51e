/**
 * What the SunSpec client makes of the answers of any remote device, whatever it is: how a model's data is cut up,
 * where its points would be written, and how discovery ends.
 */
module SunSpecAnswers {
  import opened Bytes
  import opened GoRuntime
  import opened MessageBus
  import opened RegisterWalk
  import opened SunSpecRegister
  import opened SunSpecDevice
  import opened SunSpecLayout
  import opened SunSpecAcceptance
  import opened SunSpecClient
  import opened SunSpecDiscovery
  import opened SunSpecTermination

  // ---- one model's data ----

  /** A point that the client accepts: of a known type, its scale factor absent, a whole number or a name. */
  predicate Acceptable(q: SchemaPoint) {
    GoodPoint(q) && !q.scale.FloatScale?
  }

  /** The words before the i-th point, not counting the header. */
  function Offset(schema: Schema, i: nat): int
    requires i <= |schema|
  {
    ModelLength(schema[..i])
  }

  /** The data reach as far as the i-th point. */
  predicate Reaches(schema: Schema, data: seq<byte>, i: nat)
    requires i < |schema|
  {
    0 <= Offset(schema, i) && 0 <= schema[i].size && 2 * (Offset(schema, i) + schema[i].size) <= |data|
  }

  /** What the client records for the i-th point: the schema's register, its own bytes, and a write address. */
  ghost predicate Recorded(f: Found, m: int, schema: Schema, a: int, data: seq<byte>, i: nat)
    requires i < |schema|
  {
    && Reaches(schema, data, i)
    && (forall length :: f.register == Unfilled(BaseOf(m, length, schema[i])))
    && f.raw == data[2 * Offset(schema, i)..2 * (Offset(schema, i) + schema[i].size)]
    && f.addr == if schema[i].writable then a + 2 * Offset(schema, i) else 0
  }

  lemma ClientAccepts(m: int, q: SchemaPoint)
    ensures ClientRegister(m, q).Ok? <==> Acceptable(q)
    ensures !ClientRegister(m, q).Panic?
    ensures ClientRegister(m, q).Ok? ==> forall length :: ClientRegister(m, q).value == Unfilled(BaseOf(m, length, q))
  {
  }

  lemma OffsetNext(schema: Schema, i: nat)
    requires 2 <= i < |schema|
    ensures Offset(schema, i + 1) == Offset(schema, i) + schema[i].size
  {
    assert schema[..i + 1][..i] == schema[..i];
  }

  ghost predicate RecordedAt(found: seq<Found>, m: int, schema: Schema, a: int, data: seq<byte>, i: nat, j: nat)
    requires j < |found| && i + j < |schema|
  {
    Recorded(found[j], m, schema, a, data, i + j)
  }

  ghost predicate AllRecorded(found: seq<Found>, m: int, schema: Schema, a: int, data: seq<byte>, i: nat)
    requires i <= |schema|
  {
    && |found| == |schema| - i
    && forall j: nat :: j < |found| ==> RecordedAt(found, m, schema, a, data, i, j)
  }

  /** The first point from the i-th on that the client does not accept, or that the data do not reach. */
  predicate FirstFailing(schema: Schema, data: seq<byte>, i: nat, j: nat) {
    && i <= j < |schema| && !(Acceptable(schema[j]) && Reaches(schema, data, j))
    && forall n: nat :: i <= n < j ==> Acceptable(schema[n]) && Reaches(schema, data, n)
  }

  /**
   * Cutting up a model's data succeeds exactly if every point is acceptable and reached; otherwise the first that is
   * not decides whether it is an error or a run-time panic.
   */
  lemma {:induction false} SlicesVerdict(schema: Schema, m: int, a: int, data: seq<byte>, i: nat)
    requires 2 <= i <= |schema|
    ensures var r := Slices(schema, m, a, data, i, 2 * Offset(schema, i));
            && (r.Ok? <==> forall j: nat :: i <= j < |schema| ==> Acceptable(schema[j]) && Reaches(schema, data, j))
            && (r.Ok? ==> AllRecorded(r.value, m, schema, a, data, i))
            && (!r.Ok? ==> exists j: nat :: FirstFailing(schema, data, i, j) && (r.Err? <==> !Acceptable(schema[j])))
    decreases |schema| - i
  {
    hide ModelLength, ClientRegister, BaseOf, Acceptable, Offset;
    if i < |schema| {
      var q, pos := schema[i], 2 * Offset(schema, i);
      ClientAccepts(m, q);
      OffsetNext(schema, i);
      SlicesVerdict(schema, m, a, data, i + 1);
      var r, rest := Slices(schema, m, a, data, i, pos), Slices(schema, m, a, data, i + 1, pos + q.size * 2);
      if !(Acceptable(q) && Reaches(schema, data, i)) {
        assert FirstFailing(schema, data, i, i);
      } else if rest.Ok? {
        var f := Found(ClientRegister(m, q).value, data[pos..pos + q.size * 2], if q.writable then a + pos else 0);
        assert r == Then([f], rest) && Recorded(f, m, schema, a, data, i);
        FirstRecorded(f, rest.value, m, schema, a, data, i);
      } else {
        var j: nat :| FirstFailing(schema, data, i + 1, j) && (rest.Err? <==> !Acceptable(schema[j]));
        assert FirstFailing(schema, data, i, j);
      }
    }
  }

  lemma FirstRecorded(f: Found, rest: seq<Found>, m: int, schema: Schema, a: int, data: seq<byte>, i: nat)
    requires i < |schema| && AllRecorded(rest, m, schema, a, data, i + 1)
    requires Recorded(f, m, schema, a, data, i)
    ensures AllRecorded([f] + rest, m, schema, a, data, i)
  {
    hide Recorded;
    var found := [f] + rest;
    forall j: nat | j < |found|
      ensures RecordedAt(found, m, schema, a, data, i, j)
    {
      if j > 0 {
        assert RecordedAt(rest, m, schema, a, data, i + 1, j - 1);
        assert i + 1 + (j - 1) == i + j;
      }
    }
  }

  // ---- where points would be written ----

  /**
   * The client counts the bytes before a point where the register map counts words: a writable point of a configured
   * server is recorded with its own address exactly if it is the first of its model, and otherwise further on.
   */
  lemma WriteAddress(p: Platform, schemas: Schemas, d: Device, k: nat, id: int, j: nat)
    requires Ready(d) && id in schemas && ModelAt(d, k, id, schemas[id]) && 2 <= j < |schemas[id]|
    ensures Advancing(d.View(p)) && BASE <= Start(d.registers, k) && 0 <= ModelLength(schemas[id])
    ensures var r := ModelData(schemas, Link(p, d), id, Start(d.registers, k) + 2, ModelLength(schemas[id]));
            var first, own := Start(d.registers, k + 2), Start(d.registers, k + j);
            r.Ok? ==>
              && |r.value| == |schemas[id]| - 2
              && r.value[j - 2].addr == (if schemas[id][j].writable then first + 2 * (own - first) else 0)
              && (schemas[id][j].writable ==> (r.value[j - 2].addr == own <==> j == 2))
  {
    hide Link, Ready, ModelAt, Fetchable, AllEncode, Payload, Advancing, Start, ModelLength, Slices, Recorded, Sliced;
    ReadySound(d);
    ModelBounds(d, k, id, schemas[id]);
    var schema, a := schemas[id], Start(d.registers, k) + 2;
    ModelExtent(d, k, id, schema);
    BodyRead(p, d, k, id, schema);
    var answer := Link(p, d)(a % 0x1_0000, ModelLength(schema) % 0x1_0000);
    if answer.Ok? {
      DataOf(schemas, Link(p, d), id, a, ModelLength(schema), answer.value);
      NoOffset(schema);
      SlicesVerdict(schema, id, a, answer.value, 2);
      var r := Slices(schema, id, a, answer.value, 2, 0);
      if r.Ok? {
        assert RecordedAt(r.value, id, schema, a, answer.value, 2, j - 2);
        RecordedAddress(r.value[j - 2], id, schema, a, answer.value, j);
        LengthLaid(d, k, id, schema, j);
        LaterStarts(d, k + 2, k + j);
      }
    } else {
      NoDataAtAll(schemas, Link(p, d), id, a, ModelLength(schema));
    }
  }

  lemma NoOffset(schema: Schema)
    requires |schema| >= 2
    ensures Offset(schema, 2) == 0
  {
  }

  lemma RecordedAddress(f: Found, m: int, schema: Schema, a: int, data: seq<byte>, i: nat)
    requires i < |schema| && Recorded(f, m, schema, a, data, i)
    ensures f.addr == if schema[i].writable then a + 2 * ModelLength(schema[..i]) else 0
  {
  }

  lemma LaterStarts(d: Device, j: nat, k: nat)
    requires Tiled(d) && j <= k <= |d.registers|
    ensures Start(d.registers, k) >= Start(d.registers, j) + (k - j)
  {
    StartIncreases(d.registers, j, k);
  }

  lemma NoDataAtAll(schemas: Schemas, remote: Remote, id: int, a: nat, l: nat)
    requires !remote(a % 0x1_0000, l % 0x1_0000).Ok?
    ensures !ModelData(schemas, remote, id, a, l).Ok?
  {
  }

  // ---- which models the loop gets through ----

  /** A device answers with a model of some id and length at an address, and with all of the model's data behind it. */
  predicate GetsThrough(schemas: Schemas, remote: Remote, a: nat, id: int, length: nat) {
    var header := remote(a % 0x1_0000, 2);
    && header.Ok? && |header.value| >= 4
    && id == FromBigEndian(header.value[0..2]) != 65535 && length == FromBigEndian(header.value[2..4])
    && id in schemas
    && var answer := remote((a + 2) % 0x1_0000, length % 0x1_0000);
       answer.Ok? && forall j: nat :: 2 <= j < |schemas[id]| ==>
         Acceptable(schemas[id][j]) && Reaches(schemas[id], answer.value, j)
  }

  /** A hop of the loop is exactly such an answer. */
  lemma HopMeans(p: Platform, schemas: Schemas, remote: Remote, a: nat, length: nat)
    requires p.ExactPowers()
    ensures Hop(p, schemas, remote, a) == Some(length) <==> exists id :: GetsThrough(schemas, remote, a, id, length)
  {
    hide Slices, Decode, Reaches, Acceptable;
    var header := remote(a % 0x1_0000, 2);
    if header.Ok? && |header.value| >= 4 {
      var d := header.value;
      WordValue(p, d[0..2]);
      WordValue(p, d[2..4]);
      var id, l := FromBigEndian(d[0..2]), FromBigEndian(d[2..4]);
      assert NextModel(p, remote, a) == Ok((id, l));
      var answer := remote((a + 2) % 0x1_0000, l % 0x1_0000);
      if answer.Ok? && id in schemas {
        FromStart(schemas[id], id, a + 2, answer.value);
        if |schemas[id]| >= 2 {
          NoOffset(schemas[id]);
          SlicesVerdict(schemas[id], id, a + 2, answer.value, 2);
        }
      }
      assert GetsThrough(schemas, remote, a, id, length) <==> Hop(p, schemas, remote, a) == Some(length);
    }
  }

  // ---- how discovery ends ----

  /** A read that gives an error, and one that takes the handler down with it. */
  predicate EndsBy<T>(r: Result<T>, end: End) {
    (r.Err? ==> end == Failed) && (r.Panic? ==> end == Panicked)
  }

  /** How the loop ends at an address of a device, where it does not get through a model. */
  ghost predicate EndsHere(schemas: Schemas, remote: Remote, a: nat, end: End) {
    var header := remote(a % 0x1_0000, 2);
    && EndsBy(header, end)
    && (header.Ok? && |header.value| < 4 ==> end == Panicked)
    && (header.Ok? && |header.value| >= 4 ==>
          var id, length := FromBigEndian(header.value[0..2]), FromBigEndian(header.value[2..4]);
          && (end == Finished <==> id == 65535)
          && (id != 65535 ==>
                var answer := remote((a + 2) % 0x1_0000, length);
                && EndsBy(answer, end)
                && (answer.Ok? && id !in schemas ==> end == Failed)
                && (answer.Ok? && id in schemas ==>
                      exists j: nat :: FirstFailing(schemas[id], answer.value, 2, j)
                        && end == if Acceptable(schemas[id][j]) then Panicked else Failed)))
  }

  lemma EndOfLoop(p: Platform, schemas: Schemas, remote: Remote, a: nat, s: Survey, rounds: nat)
    requires p.ExactPowers() && rounds > 0 && Hop(p, schemas, remote, a).None?
    ensures EndsHere(schemas, remote, a, Explored(p, schemas, remote, a, true, s, rounds).end)
  {
    hide Explored, Slices, Decode, FirstFailing, Acceptable;
    var header, next := remote(a % 0x1_0000, 2), NextModel(p, remote, a);
    ExploredFails(p, schemas, remote, a, true, s, rounds);
    if header.Ok? && |header.value| >= 4 {
      var d := header.value;
      WordValue(p, d[0..2]);
      WordValue(p, d[2..4]);
      var id, length := FromBigEndian(d[0..2]), FromBigEndian(d[2..4]);
      assert next == Ok((id, length));
      ExploredEnds(p, schemas, remote, a, true, s, rounds, id, length);
      if id != END_ID {
        DataEnds(schemas, remote, id, a + 2, length);
      }
    }
  }

  /** Why a model's data cannot be had. */
  lemma DataEnds(schemas: Schemas, remote: Remote, id: int, a: nat, length: nat)
    requires length < 0x1_0000 && !ModelPoints(schemas, remote, id, a, length).Ok?
    ensures var answer := remote(a % 0x1_0000, length);
            var end := FailureEnd(ModelPoints(schemas, remote, id, a, length));
            && EndsBy(answer, end)
            && (answer.Ok? && id !in schemas ==> end == Failed)
            && (answer.Ok? && id in schemas ==>
                  exists j: nat :: FirstFailing(schemas[id], answer.value, 2, j)
                    && end == if Acceptable(schemas[id][j]) then Panicked else Failed)
  {
    hide Slices, FirstFailing, Acceptable;
    var answer := remote(a % 0x1_0000, length);
    if answer.Ok? && id in schemas {
      var schema := schemas[id];
      FromStart(schema, id, a, answer.value);
      if |schema| >= 2 {
        NoOffset(schema);
        SlicesVerdict(schema, id, a, answer.value, 2);
      }
    }
  }

  lemma FromStart(schema: Schema, m: int, a: int, data: seq<byte>)
    ensures |schema| >= 2 ==> Slices(schema, m, a, data, 0, 0) == Slices(schema, m, a, data, 2, 0)
    ensures |schema| < 2 ==> Slices(schema, m, a, data, 0, 0) == Ok([])
  {
    assert |schema| >= 1 ==> Slices(schema, m, a, data, 0, 0) == Slices(schema, m, a, data, 1, 0);
  }

  /** After some models that it gets through, the loop ends as it does at the address behind them. */
  lemma {:induction false} EndAfterHops(p: Platform, schemas: Schemas, remote: Remote, a: nat, s: Survey, n: nat,
                                        rounds: nat)
    requires p.ExactPowers() && rounds > n && Hops(p, schemas, remote, a, n)
    requires Hop(p, schemas, remote, Address(p, schemas, remote, a, n)).None?
    ensures EndsHere(schemas, remote, Address(p, schemas, remote, a, n),
                     Explored(p, schemas, remote, a, true, s, rounds).end)
    decreases n
  {
    hide Explored, NextModel, ModelPoints, EndsHere;
    if n == 0 {
      EndOfLoop(p, schemas, remote, a, s, rounds);
    } else {
      var next := NextModel(p, remote, a);
      var (id, length) := next.value;
      NextModelBounds(p, remote, a);
      var data := ModelPoints(schemas, remote, id, a + 2, length);
      var s' := s.(order := s.order + [id], settings := s.settings[id := Setting(a + 2, length)],
                   points := s.points + data.value);
      ExploredOn(p, schemas, remote, a, true, s, rounds, id, length, data.value);
      EndAfterHops(p, schemas, remote, a + 2 + length, s', n - 1, rounds - 1);
    }
  }

  /** The four bytes that the client takes for the identifier: SunS. */
  predicate IsIdentifier(d: seq<byte>) {
    |d| >= 4 && d[..4] == [0x53, 0x75, 0x6E, 0x53]
  }

  /**
   * How discovery ends against any device, if it does. It fails without the identifier or without a model 1 in front;
   * otherwise what it finds behind the models that it gets through decides: the end marker finishes it, an error or a
   * point that is not accepted fails it, and answers that are too short are a run-time panic.
   */
  lemma DiscoveryOutcome(p: Platform, schemas: Schemas, remote: Remote, s: Survey, n: nat, rounds: nat)
    requires p.ExactPowers() && rounds > n
    ensures var end := Discovered(p, schemas, remote, s, rounds).end; var first := remote(40000, 2);
            && EndsBy(first, end)
            && (first.Ok? && !IsIdentifier(first.value) ==> end == Failed)
            && (first.Ok? && IsIdentifier(first.value) ==>
                  var header := remote(40002, 2);
                  && (!header.Ok? || |header.value| < 4 ==> EndsHere(schemas, remote, 40002, end))
                  && (header.Ok? && |header.value| >= 4 && header.value[..2] != [0, 1] ==> end == Failed)
                  && (header.Ok? && |header.value| >= 4 && header.value[..2] == [0, 1]
                      && Hops(p, schemas, remote, 40002, n)
                      && Hop(p, schemas, remote, Address(p, schemas, remote, 40002, n)).None? ==>
                        EndsHere(schemas, remote, Address(p, schemas, remote, 40002, n), end)))
  {
    hide Explored, NextModel, ModelPoints, EndsHere, Hops, Hop, Address, ConfirmIdentifier;
    IdentifierMeans(p, remote);
    var first := remote(40000, 2);
    if first.Ok? && IsIdentifier(first.value) {
      FirstModel(p, schemas, remote, s, rounds);
      FirstHeader(p, schemas, remote, s, rounds);
      var header := remote(40002, 2);
      if header.Ok? && |header.value| >= 4 && header.value[..2] == [0, 1] && Hops(p, schemas, remote, 40002, n)
         && Hop(p, schemas, remote, Address(p, schemas, remote, 40002, n)).None? {
        EndAfterHops(p, schemas, remote, 40002, s, n, rounds);
      }
    }
  }

  lemma IdentifierMeans(p: Platform, remote: Remote)
    requires p.ExactPowers()
    ensures var first, good := remote(40000, 2), ConfirmIdentifier(p, remote);
            && (first.Err? ==> good == Err) && (first.Panic? ==> good == Panic)
            && (first.Ok? && !IsIdentifier(first.value) ==> good == Err || good == Ok(false))
            && (first.Ok? && IsIdentifier(first.value) ==> good == Ok(true))
  {
    var first := remote(40000, 2);
    if first.Ok? && |first.value| >= 4 {
      var word := first.value[..4];
      IdentifierFrom(p, word);
      IdentifierBytes();
      assert word[..4] == word;
      assert Decode(p, IDENTIFIER, first.value, 0.0) == Decode(p, IDENTIFIER, word, 0.0);
    }
  }

  lemma IdentifierBytes()
    ensures BigEndian(SUNSPEC_IDENTIFIER, 4) == [0x53, 0x75, 0x6E, 0x53]
  {
    assert BigEndian(0x53, 1) == [0x53] && BigEndian(0x5375, 2) == [0x53, 0x75];
    assert BigEndian(0x53756E, 3) == [0x53, 0x75, 0x6E];
  }

  /** What the loop makes of the first header. */
  lemma FirstHeader(p: Platform, schemas: Schemas, remote: Remote, s: Survey, rounds: nat)
    requires p.ExactPowers() && rounds > 0
    ensures var header := remote(40002, 2); var next := NextModel(p, remote, FIRST_MODEL);
            var end := Explored(p, schemas, remote, FIRST_MODEL, false, s, rounds).end;
            && (!header.Ok? || |header.value| < 4 ==> EndsHere(schemas, remote, 40002, end))
            && (header.Ok? && |header.value| >= 4 ==>
                  next.Ok? && (next.value.0 == 1 <==> header.value[..2] == [0, 1])
                  && (next.value.0 != 1 ==> end == Failed))
  {
    hide Explored, Decode;
    ExploredFails(p, schemas, remote, FIRST_MODEL, false, s, rounds);
    var header := remote(40002, 2);
    if header.Ok? && |header.value| >= 4 {
      var d := header.value;
      WordValue(p, d[0..2]);
      WordValue(p, d[2..4]);
      PairInFigures(d[0..2]);
      assert d[0..2] == d[..2];
      ExploredEnds(p, schemas, remote, FIRST_MODEL, false, s, rounds, FromBigEndian(d[0..2]), FromBigEndian(d[2..4]));
    }
  }
}
