/**
 * Discovery inverts layout: walking the map of a configured server, the client finds exactly the configured
 * models, in order, each where it was laid out, and stops at the end marker.
 */
module SunSpecDiscovery {
  import opened Bytes
  import opened Decimal
  import opened GoRuntime
  import opened MessageBus
  import opened RegisterWalk
  import opened SunSpecRegister
  import opened SunSpecDevice
  import opened SunSpecLayout
  import opened SunSpecClient
  import opened SunSpecServer

  // ---- the wire between the two ----

  /** What the Modbus library makes of an answer: the length byte is checked and removed. */
  function Received(r: Response): Result<seq<byte>> {
    if r.Success? && r.data != [] && r.data[0] == |r.data| - 1 then Ok(r.data[1..]) else Err
  }

  /** A read through the library, which keeps to the protocol's limits on the quantity. */
  ghost function Exchange(p: Platform, d: Device, a: nat, q: nat): Result<seq<byte>>
    requires d.Sound() && Advancing(d.View(p))
  {
    if 1 <= q <= MAX_READ then Received(ReadResponse(d.View(p), U16(a) + U16(q))) else Err
  }

  /** The server as the client sees it. */
  ghost function Link(p: Platform, d: Device): Remote
    requires d.Sound() && Advancing(d.View(p))
  {
    (a: nat, q: nat) => Exchange(p, d, a, q)
  }

  /** A server as configuration leaves it, whatever its tags have become since. */
  ghost predicate Ready(d: Device) {
    && Tiled(d) && |d.registers| >= 3 && d.registers[0] == IDENTIFIER
    && (forall k :: 0 <= k < |d.registers| ==> Initialised(d.registers[k]))
    && Start(d.registers, |d.registers|) <= 0x1_0000
    && "" !in d.tags
  }

  lemma EncodedWidth(p: Platform, d: Device, k: nat)
    requires Ready(d) && k < |d.registers| && d.Encoded(p, d.registers[k]).Ok?
    ensures |d.Encoded(p, d.registers[k]).value| == 2 * d.registers[k].count
  {
    var r := d.registers[k];
    EncodedLength(p, r, d.TagOf(r), d.ScalingOf(r).value);
  }

  lemma ReadyView(p: Platform, d: Device)
    requires Ready(d)
    ensures Advancing(d.View(p)) && Exact(d.View(p))
  {
    forall a | a in d.at && d.Encoded(p, d.registers[d.at[a]]).Ok?
      ensures |d.Encoded(p, d.registers[d.at[a]]).value| == 2 * d.registers[d.at[a]].count
    {
      EncodedWidth(p, d, d.at[a]);
    }
  }

  // ---- reading whole registers ----

  predicate AllEncode(p: Platform, d: Device, j: nat, k: nat)
    requires forall a :: a in d.at ==> d.at[a] < |d.registers|
    requires forall n :: n in d.points ==> d.points[n] < |d.registers|
    requires j <= k <= |d.registers|
  {
    forall i :: j <= i < k ==> d.Encoded(p, d.registers[i]).Ok?
  }

  /** The bytes of the registers j to k. */
  ghost function Payload(p: Platform, d: Device, j: nat, k: nat): seq<byte>
    requires d.Sound() && j <= k <= |d.registers| && AllEncode(p, d, j, k)
    decreases k - j
  {
    if j == k then [] else d.Encoded(p, d.registers[j]).value + Payload(p, d, j + 1, k)
  }

  lemma CellAt(p: Platform, d: Device, k: nat)
    requires Ready(d) && k < |d.registers|
    ensures var a := Start(d.registers, k); var r := d.registers[k];
            a in d.View(p) && d.View(p)[a] == Cell(r.count, d.Encoded(p, r)) && a + r.count == Start(d.registers, k + 1)
  {
    assert FoundAt(d, k);
  }

  /** A read from the start of one register to the start of another delivers their bytes, or fails if one has none. */
  lemma {:induction false} WalkOfRegisters(p: Platform, d: Device, cells: Cells, j: nat, k: nat)
    requires Ready(d) && j <= k <= |d.registers| && Advancing(cells)
    requires forall i: nat :: i < |d.registers| ==> Mirrored(p, d, cells, i)
    ensures var w := Walk(cells, Start(d.registers, j), Start(d.registers, k));
            && (w.Done? <==> AllEncode(p, d, j, k))
            && (w.Done? ==>
                  w.data == Payload(p, d, j, k)
                  && w.size == |w.data| == 2 * (Start(d.registers, k) - Start(d.registers, j)))
            && (w.Stopped? ==> !w.response.Success?)
    decreases k - j
  {
    if j < k {
      StartIncreases(d.registers, j + 1, k);
      assert Mirrored(p, d, cells, j);
      var e := d.Encoded(p, d.registers[j]);
      AllEncodeFirst(p, d, j, k);
      WalkOneMore(cells, Start(d.registers, j), Start(d.registers, j + 1), Start(d.registers, k), e);
      if e.Ok? {
        EncodedWidth(p, d, j);
        WalkOfRegisters(p, d, cells, j + 1, k);
      }
    }
  }

  lemma AllEncodeFirst(p: Platform, d: Device, j: nat, k: nat)
    requires d.Sound() && j < k <= |d.registers|
    ensures AllEncode(p, d, j, k) <==> d.Encoded(p, d.registers[j]).Ok? && AllEncode(p, d, j + 1, k)
    ensures AllEncode(p, d, j, k) ==>
              Payload(p, d, j, k) == d.Encoded(p, d.registers[j]).value + Payload(p, d, j + 1, k)
  {
  }

  lemma WalkOneMore(cells: Cells, a: int, next: int, stop: int, e: Result<seq<byte>>)
    requires Advancing(cells) && a < next <= stop && a in cells && cells[a] == Cell(next - a, e)
    ensures Walk(cells, a, stop)
         == match e
            case Ok(data) => Prepend(data, 2 * (next - a), Walk(cells, next, stop))
            case Err => Stopped(Failure(SlaveDeviceFailure))
            case Panic => Stopped(Crash)
  {
  }

  /** The walk sees register k at its start, and the next register right after it. */
  ghost predicate Mirrored(p: Platform, d: Device, cells: Cells, k: nat)
    requires d.Sound() && k < |d.registers|
  {
    var a, r := Start(d.registers, k), d.registers[k];
    a in cells && cells[a] == Cell(r.count, d.Encoded(p, r)) && a + r.count == Start(d.registers, k + 1)
  }

  lemma WalkOfDevice(p: Platform, d: Device, j: nat, k: nat)
    requires Ready(d) && j <= k <= |d.registers|
    ensures Advancing(d.View(p))
    ensures var w := Walk(d.View(p), Start(d.registers, j), Start(d.registers, k));
            && (w.Done? <==> AllEncode(p, d, j, k))
            && (w.Done? ==>
                  w.data == Payload(p, d, j, k)
                  && w.size == |w.data| == 2 * (Start(d.registers, k) - Start(d.registers, j)))
            && (w.Stopped? ==> !w.response.Success?)
  {
    ReadyView(p, d);
    forall i: nat | i < |d.registers|
      ensures Mirrored(p, d, d.View(p), i)
    {
      CellAt(p, d, i);
    }
    WalkOfRegisters(p, d, d.View(p), j, k);
  }

  /** Registers start within the 16-bit address space, from 40000 on. */
  lemma StartRange(d: Device, j: nat, k: nat)
    requires Ready(d) && j <= k <= |d.registers|
    ensures BASE <= Start(d.registers, j) <= Start(d.registers, k) <= 0x1_0000
    ensures j < k ==> Start(d.registers, j) < 0x1_0000
  {
    StartIncreases(d.registers, 0, j);
    StartIncreases(d.registers, j, k);
    StartIncreases(d.registers, k, |d.registers|);
  }

  lemma AnswerReceived(cells: Cells, a: int, stop: int)
    requires Advancing(cells) && 0 <= a < 0x1_0000 && 1 <= stop - a <= MAX_READ
    ensures var w := Walk(cells, a, stop); var r := Received(ReadResponse(cells, U16(a) + U16(stop - a)));
            && (w.Done? && w.size == |w.data| < 256 ==> r == Ok(w.data))
            && (w.Stopped? && !w.response.Success? ==> r == Err)
  {
    hide Walk, Field, U16, Advancing;
    RequestFields(a, stop - a);
    var w := Walk(cells, a, stop);
    if w.Done? {
      assert ([w.size % 256] + w.data)[1..] == w.data;
    }
  }

  /** The same through the wire: within the protocol's limit, and with addresses that fit 16 bits. */
  lemma ReadRange(p: Platform, d: Device, j: nat, k: nat)
    requires Ready(d) && j <= k <= |d.registers|
    requires 1 <= Start(d.registers, k) - Start(d.registers, j) <= MAX_READ
    ensures Advancing(d.View(p)) && BASE <= Start(d.registers, j)
    ensures Exchange(p, d, Start(d.registers, j), Start(d.registers, k) - Start(d.registers, j))
         == if AllEncode(p, d, j, k) then Ok(Payload(p, d, j, k)) else Err
  {
    hide Ready, Walk, Received, ReadResponse, Start, Payload, AllEncode, Advancing;
    ReadySound(d);
    StartRange(d, j, k);
    WalkOfDevice(p, d, j, k);
    AnswerReceived(d.View(p), Start(d.registers, j), Start(d.registers, k));
  }

  /** Nothing answers below the register map, and no read exceeds the limit: discovery terminates. */
  lemma LinkBounded(p: Platform, d: Device)
    requires Ready(d)
    ensures Advancing(d.View(p)) && Bounded(Link(p, d))
  {
    ReadyView(p, d);
    forall a: nat, q: nat | Link(p, d)(a, q).Ok?
      ensures a >= BASE && q <= MAX_READ
    {
      if a < BASE {
        RequestFields(a, q);
        if a in d.at {
          assert IsStart(d.registers, a);
          var k: nat :| k < |d.registers| && a == Start(d.registers, k);
          StartIncreases(d.registers, 0, k);
        }
      }
    }
  }

  // ---- headers: ids and lengths ----

  predicate PlainWord(dt: DataType) {
    dt.UInt16? || dt.Acc16? || dt.Enum16? || dt.Bitfield16?
  }

  predicate HeaderPoint(q: SchemaPoint, name: string) {
    q.name == name && q.scale.NoScale? && PlainWord(DataTypeOf(q))
  }

  /** A schema that opens with one-word ID and L. */
  predicate Headed(schema: Schema) {
    |schema| >= 2 && HeaderPoint(schema[0], "ID") && HeaderPoint(schema[1], "L")
  }

  /** A register that holds v for good: no tag, no scaling. */
  predicate Holds(r: Register, v: int) {
    && PlainWord(r.dataType) && r.count == 1 && r.scaling == 0.0
    && r.tag == "" && r.scaleRegister == "" && r.internalValue == v as real && 0 <= v < 0x1_0000
  }

  lemma HeldEncodes(p: Platform, d: Device, r: Register, v: int)
    requires p.ExactPowers() && d.Sound() && "" !in d.tags && Holds(r, v)
    ensures d.Encoded(p, r) == Ok(BigEndian(v, 2))
  {
    TimesOne(v as real);
    TruncWhole(v);
    assert Words(2) == 0x1_0000;
  }

  lemma PairRead(p: Platform, remote: Remote, a: nat, v: nat, w: nat)
    requires p.ExactPowers() && v < 0x1_0000 && w < 0x1_0000
    requires remote(a % 0x1_0000, 2) == Ok(BigEndian(v, 2) + BigEndian(w, 2))
    ensures NextModel(p, remote, a) == Ok((v, w))
  {
    var x, y := BigEndian(v, 2), BigEndian(w, 2);
    assert (x + y)[0..2] == x && (x + y)[2..4] == y;
    assert Words(2) == 0x1_0000;
    WordRoundTrip(v, 2);
    WordRoundTrip(w, 2);
    WordValue(p, x);
    WordValue(p, y);
    TruncWhole(v);
    TruncWhole(w);
  }

  /** Two registers that hold v and w, one after the other, read as model id v and length w. */
  lemma HeaderRead(p: Platform, d: Device, k: nat, v: int, w: int)
    requires p.ExactPowers() && Ready(d) && k + 2 <= |d.registers|
    requires Holds(d.registers[k], v) && Holds(d.registers[k + 1], w)
    ensures Advancing(d.View(p)) && Start(d.registers, k) >= BASE
    ensures NextModel(p, Link(p, d), Start(d.registers, k)) == Ok((v, w))
  {
    hide Link, Ready, Advancing, NextModel, Start;
    ReadySound(d);
    ReadyNames(d);
    StartRange(d, k, k + 2);
    HeldEncodes(p, d, d.registers[k], v);
    HeldEncodes(p, d, d.registers[k + 1], w);
    NextStart(d, k);
    NextStart(d, k + 1);
    TwoPayload(p, d, k);
    LinkRange(p, d, k, k + 2, Start(d.registers, k), 2);
    PairRead(p, Link(p, d), Start(d.registers, k), v, w);
  }

  /** A read issued by the client, at an address and a length that it keeps in 16 bits. */
  lemma LinkRange(p: Platform, d: Device, j: nat, k: nat, a: nat, q: nat)
    requires Ready(d) && j <= k <= |d.registers| && j < |d.registers|
    requires a == Start(d.registers, j) && q == Start(d.registers, k) - a
    ensures Advancing(d.View(p))
    ensures Link(p, d)(a % 0x1_0000, q % 0x1_0000)
         == if 1 <= q <= MAX_READ && AllEncode(p, d, j, k) then Ok(Payload(p, d, j, k)) else Err
  {
    hide Received, ReadResponse, Ready, Start, Payload, AllEncode, Advancing;
    ReadySound(d);
    StartRange(d, j, k);
    StartRange(d, j, |d.registers|);
    assert a % 0x1_0000 == a && q % 0x1_0000 == q;
    if 1 <= q <= MAX_READ {
      ReadRange(p, d, j, k);
    } else {
      ReadyView(p, d);
    }
  }

  lemma NextStart(d: Device, k: nat)
    requires k < |d.registers|
    ensures Start(d.registers, k + 1) == Start(d.registers, k) + d.registers[k].count
  {
  }

  lemma TwoPayload(p: Platform, d: Device, k: nat)
    requires d.Sound() && k + 2 <= |d.registers| && AllEncode(p, d, k, k + 2)
    ensures Payload(p, d, k, k + 2) == d.Encoded(p, d.registers[k]).value + d.Encoded(p, d.registers[k + 1]).value
  {
    AllEncodeFirst(p, d, k, k + 2);
    AllEncodeFirst(p, d, k + 1, k + 2);
    assert Payload(p, d, k + 2, k + 2) == [];
  }

  // ---- one model ----

  /** The registers from k on are those of a model with this id and schema. */
  ghost predicate ModelAt(d: Device, k: nat, id: int, schema: Schema) {
    && 1 <= k && k + |schema| + 2 <= |d.registers|
    && Headed(schema) && SizesMatch(schema) && 0 <= id < END_ID
    && forall i: nat :: i < |schema| ==> KinAt(d, k, id, schema, i)
  }

  predicate KinAt(d: Device, k: nat, id: int, schema: Schema, i: nat)
    requires i < |schema| && k + i < |d.registers|
  {
    Kin(d.registers[k + i], BaseOf(id, ModelLength(schema), schema[i]))
  }

  /** A scale factor that both ends can follow. */
  predicate ScaleFound(d: Device, q: SchemaPoint) {
    !q.scale.FloatScale? && !q.scale.OtherScale?
    && (q.scale.NamedScale? ==> q.scale.name == "" || q.scale.name in d.points)
  }

  /** The models that discovery gets through: some data, within one read, with scale factors that can be followed. */
  predicate Fetchable(d: Device, schema: Schema) {
    && 1 <= ModelLength(schema) <= MAX_READ
    && forall i :: 2 <= i < |schema| ==> ScaleFound(d, schema[i])
  }

  lemma PointAt(d: Device, k: nat, id: int, schema: Schema, i: nat)
    requires ModelAt(d, k, id, schema) && i < |schema|
    ensures Init(Requested(id, ModelLength(schema), schema[i])).Ok?
    ensures Kin(d.registers[k + i], Init(Requested(id, ModelLength(schema), schema[i])).value)
    ensures d.registers[k + i].count == schema[i].size >= 1 && d.registers[k + i].name == schema[i].name
    ensures Start(d.registers, k + i + 1) == Start(d.registers, k + i) + schema[i].size
  {
    assert KinAt(d, k, id, schema, i);
    NextStart(d, k + i);
  }

  lemma {:induction false} LengthLaid(d: Device, k: nat, id: int, schema: Schema, n: nat)
    requires ModelAt(d, k, id, schema) && 2 <= n <= |schema|
    ensures Start(d.registers, k + n) - Start(d.registers, k + 2) == ModelLength(schema[..n])
  {
    if n > 2 {
      LengthLaid(d, k, id, schema, n - 1);
      PointAt(d, k, id, schema, n - 1);
      assert schema[..n][..n - 1] == schema[..n - 1];
    }
  }

  lemma HeaderHolds(d: Device, k: nat, id: int, schema: Schema)
    requires ModelAt(d, k, id, schema) && 0 <= ModelLength(schema) < 0x1_0000
    ensures Holds(d.registers[k], id) && Holds(d.registers[k + 1], ModelLength(schema))
  {
    PointAt(d, k, id, schema, 0);
    PointAt(d, k, id, schema, 1);
  }

  lemma ModelBounds(d: Device, k: nat, id: int, schema: Schema)
    requires ModelAt(d, k, id, schema)
    ensures 2 <= |schema| && 1 <= k && k + |schema| + 2 <= |d.registers| && Headed(schema) && SizesMatch(schema)
  {
  }

  lemma PlainSizes(schema: Schema)
    requires Headed(schema) && SizesMatch(schema)
    ensures schema[0].size == schema[1].size == 1
  {
  }

  lemma ModelExtent(d: Device, k: nat, id: int, schema: Schema)
    requires Ready(d) && ModelAt(d, k, id, schema)
    ensures Start(d.registers, k + 2) == Start(d.registers, k) + 2
    ensures Start(d.registers, k + |schema|) == Start(d.registers, k + 2) + ModelLength(schema)
    ensures BASE <= Start(d.registers, k) && 0 <= ModelLength(schema) && Start(d.registers, k + |schema|) < 0x1_0000
  {
    hide ModelAt, Ready, Start, ModelLength, Init, Kin, Requested, Headed, SizesMatch;
    ModelBounds(d, k, id, schema);
    PointAt(d, k, id, schema, 0);
    PointAt(d, k, id, schema, 1);
    PlainSizes(schema);
    LengthLaid(d, k, id, schema, |schema|);
    assert schema[..|schema|] == schema;
    StartRange(d, k, k + |schema|);
    StartRange(d, k + 2, k + |schema|);
    StartRange(d, k + |schema|, |d.registers|);
  }

  lemma ModelHeader(p: Platform, d: Device, k: nat, id: int, schema: Schema)
    requires p.ExactPowers() && Ready(d) && ModelAt(d, k, id, schema)
    ensures Advancing(d.View(p)) && Start(d.registers, k) >= BASE
    ensures NextModel(p, Link(p, d), Start(d.registers, k)) == Ok((id, ModelLength(schema)))
  {
    ModelExtent(d, k, id, schema);
    HeaderHolds(d, k, id, schema);
    HeaderRead(p, d, k, id, ModelLength(schema));
  }

  /** A point's register has bytes to send exactly when its scale factor can be found. */
  lemma PointEncodes(p: Platform, d: Device, k: nat, id: int, schema: Schema, i: nat)
    requires Ready(d) && ModelAt(d, k, id, schema) && i < |schema|
    requires !schema[i].scale.FloatScale? && !schema[i].scale.OtherScale?
    ensures d.Encoded(p, d.registers[k + i]).Ok? <==> ScaleFound(d, schema[i])
  {
    PointAt(d, k, id, schema, i);
    var r := d.registers[k + i];
    if d.ScalingOf(r).Ok? {
      EncodedLength(p, r, d.TagOf(r), d.ScalingOf(r).value);
    }
  }

  /** The raw slices one after the other. */
  function Raws(found: seq<Found>): seq<byte> {
    if found == [] then [] else found[0].raw + Raws(found[1..])
  }

  /** A register without what configuration has put into it: its name, model, type, width and scale factor. */
  function Unfilled(r: Register): Register {
    r.(tag := "", internalValue := 0.0, internalString := "")
  }

  /**
   * The client's registers are, point by point, the server's without their contents, and the slices of a model's data
   * the bytes the server encodes for them.
   */
  ghost predicate Sliced(p: Platform, d: Device, k: nat, i: nat, found: seq<Found>)
    requires d.Sound() && k + i + |found| <= |d.registers|
  {
    forall j :: 0 <= j < |found| ==>
      found[j].register == Unfilled(d.registers[k + i + j]) && Ok(found[j].raw) == d.Encoded(p, d.registers[k + i + j])
  }

  lemma SlicedFirst(p: Platform, d: Device, k: nat, i: nat, f: Found, rest: seq<Found>)
    requires d.Sound() && k + i + 1 + |rest| <= |d.registers| && Sliced(p, d, k, i + 1, rest)
    requires f.register == Unfilled(d.registers[k + i]) && Ok(f.raw) == d.Encoded(p, d.registers[k + i])
    ensures Sliced(p, d, k, i, [f] + rest)
  {
    var found := [f] + rest;
    forall j | 0 <= j < |found|
      ensures found[j].register == Unfilled(d.registers[k + i + j])
      ensures Ok(found[j].raw) == d.Encoded(p, d.registers[k + i + j])
    {
      if j > 0 { assert found[j] == rest[j - 1] && k + i + j == k + (i + 1) + (j - 1); }
    }
  }

  /** Together the slices are the payload, in order and without a gap. */
  lemma {:induction false} RawsArePayload(p: Platform, d: Device, k: nat, i: nat, found: seq<Found>)
    requires d.Sound() && k + i + |found| <= |d.registers| && Sliced(p, d, k, i, found)
    requires AllEncode(p, d, k + i, k + i + |found|)
    ensures Raws(found) == Payload(p, d, k + i, k + i + |found|)
    decreases found
  {
    hide Sliced, AllEncode, Payload, Encode;
    if found == [] {
      NoPayload(p, d, k + i);
    } else {
      AllEncodeFirst(p, d, k + i, k + i + |found|);
      SlicedRest(p, d, k, i, found);
      RawsArePayload(p, d, k, i + 1, found[1..]);
    }
  }

  lemma NoPayload(p: Platform, d: Device, k: nat)
    requires d.Sound() && k <= |d.registers|
    ensures AllEncode(p, d, k, k) && Payload(p, d, k, k) == []
  {
  }

  lemma SlicedRest(p: Platform, d: Device, k: nat, i: nat, found: seq<Found>)
    requires d.Sound() && k + i + |found| <= |d.registers| && found != [] && Sliced(p, d, k, i, found)
    ensures Ok(found[0].raw) == d.Encoded(p, d.registers[k + i]) && Sliced(p, d, k, i + 1, found[1..])
  {
    hide Encode;
    var rest := found[1..];
    forall j | 0 <= j < |rest|
      ensures rest[j].register == Unfilled(d.registers[k + (i + 1) + j])
      ensures Ok(rest[j].raw) == d.Encoded(p, d.registers[k + (i + 1) + j])
    {
      assert rest[j] == found[j + 1] && k + (i + 1) + j == k + i + (j + 1);
    }
  }

  lemma SplitData(data: seq<byte>, pos: nat, end: nat, e: seq<byte>, rest: seq<byte>)
    requires pos <= |data| && data[pos..] == e + rest && end == pos + |e|
    ensures end <= |data| && data[pos..end] == e && data[end..] == rest
  {
    assert |data| - pos == |e| + |rest|;
    assert data[pos..][..|e|] == e && data[pos..][|e|..] == rest;
  }

  predicate NoNumericScale(schema: Schema, i: nat) {
    forall j :: i <= j < |schema| ==> !schema[j].scale.FloatScale? && !schema[j].scale.OtherScale?
  }

  /** What the client makes of the data from point i on. */
  ghost predicate SlicedFrom(p: Platform, d: Device, k: nat, schema: Schema, i: nat, s: Result<seq<Found>>)
    requires d.Sound() && k + |schema| <= |d.registers| && i <= |schema|
  {
    && (s.Ok? <==> NoNumericScale(schema, i))
    && !s.Panic?
    && (s.Ok? ==> |s.value| == |schema| - i && Sliced(p, d, k, i, s.value))
  }

  lemma ReadySound(d: Device)
    requires Ready(d)
    ensures d.Sound() && Tiled(d)
  {
  }

  lemma ReadyNames(d: Device)
    requires Ready(d)
    ensures "" !in d.tags
  {
  }

  lemma SlicesEnd(p: Platform, d: Device, k: nat, id: int, schema: Schema, a: int, data: seq<byte>, pos: nat)
    requires d.Sound() && k + |schema| <= |d.registers|
    ensures SlicedFrom(p, d, k, schema, |schema|, Slices(schema, id, a, data, |schema|, pos))
  {
  }

  lemma {:induction false} SlicesOf(p: Platform, d: Device, k: nat, id: int, schema: Schema, a: int, data: seq<byte>,
                                    i: nat, pos: nat)
    requires Ready(d) && ModelAt(d, k, id, schema) && 2 <= i <= |schema| && pos <= |data|
    requires AllEncode(p, d, k + i, k + |schema|) && data[pos..] == Payload(p, d, k + i, k + |schema|)
    ensures SlicedFrom(p, d, k, schema, i, Slices(schema, id, a, data, i, pos))
    decreases |schema| - i
  {
    hide ModelAt, Ready, Start, Slices, Payload, SlicedFrom, Init, Kin, Requested, AllEncode;
    ReadySound(d);
    ModelBounds(d, k, id, schema);
    if i == |schema| {
      SlicesEnd(p, d, k, id, schema, a, data, pos);
    } else {
      PointAt(d, k, id, schema, i);
      AllEncodeFirst(p, d, k + i, k + |schema|);
      EncodedWidth(p, d, k + i);
      var end := pos + 2 * schema[i].size;
      var e := d.Encoded(p, d.registers[k + i]).value;
      SplitData(data, pos, end, e, Payload(p, d, k + i + 1, k + |schema|));
      SlicesOf(p, d, k, id, schema, a, data, i + 1, end);
      if ClientRegister(id, schema[i]).Ok? { ClientLike(d, k, id, schema, i); }
      SlicesStep(p, d, k, id, schema, a, data, i, pos);
    }
  }

  lemma SlicesStep(p: Platform, d: Device, k: nat, id: int, schema: Schema, a: int, data: seq<byte>, i: nat, pos: nat)
    requires d.Sound() && k + |schema| <= |d.registers| && 2 <= i < |schema|
    requires schema[i].size >= 1 && !DataTypeOf(schema[i]).OtherDataType?
    requires ClientRegister(id, schema[i]).Ok? ==>
               ClientRegister(id, schema[i]).value == Unfilled(d.registers[k + i])
    requires pos + 2 * schema[i].size <= |data|
    requires d.Encoded(p, d.registers[k + i]) == Ok(data[pos..pos + 2 * schema[i].size])
    requires SlicedFrom(p, d, k, schema, i + 1, Slices(schema, id, a, data, i + 1, pos + 2 * schema[i].size))
    ensures SlicedFrom(p, d, k, schema, i, Slices(schema, id, a, data, i, pos))
  {
    hide ClientRegister, Slices, Encode, Unfilled, Sliced;
    var q, end := schema[i], pos + 2 * schema[i].size;
    SliceOne(schema, id, a, data, i, pos);
    var rest := Slices(schema, id, a, data, i + 1, end);
    assert NoNumericScale(schema, i) <==> !q.scale.FloatScale? && !q.scale.OtherScale? && NoNumericScale(schema, i + 1);
    if ClientRegister(id, q).Ok? && rest.Ok? {
      SlicedFirst(p, d, k, i, Found(ClientRegister(id, q).value, data[pos..end], if q.writable then a + pos else 0),
                  rest.value);
    }
  }

  /** The client's register for a point of a model is the server's without its contents. */
  lemma ClientLike(d: Device, k: nat, id: int, schema: Schema, i: nat)
    requires ModelAt(d, k, id, schema) && i < |schema| && ClientRegister(id, schema[i]).Ok?
    ensures ClientRegister(id, schema[i]).value == Unfilled(d.registers[k + i])
  {
    PointAt(d, k, id, schema, i);
  }

  lemma SliceOne(schema: Schema, m: int, a: int, data: seq<byte>, i: nat, pos: nat)
    requires 2 <= i < |schema| && schema[i].size >= 1 && pos + 2 * schema[i].size <= |data|
    requires !DataTypeOf(schema[i]).OtherDataType?
    ensures var q := schema[i]; var end := pos + 2 * q.size; var rest := Slices(schema, m, a, data, i + 1, end);
            && (ClientRegister(m, q).Ok? <==> !q.scale.FloatScale? && !q.scale.OtherScale?)
            && Slices(schema, m, a, data, i, pos)
            == if ClientRegister(m, q).Ok?
               then Then([Found(ClientRegister(m, q).value, data[pos..end], if q.writable then a + pos else 0)], rest)
               else Err
  {
  }

  lemma AllPointsEncode(p: Platform, d: Device, k: nat, id: int, schema: Schema)
    requires Ready(d) && ModelAt(d, k, id, schema) && NoNumericScale(schema, 2)
    ensures AllEncode(p, d, k + 2, k + |schema|) <==> forall i :: 2 <= i < |schema| ==> ScaleFound(d, schema[i])
  {
    forall i: nat | 2 <= i < |schema|
      ensures d.Encoded(p, d.registers[k + i]).Ok? <==> ScaleFound(d, schema[i])
    {
      PointEncodes(p, d, k, id, schema, i);
    }
    if AllEncode(p, d, k + 2, k + |schema|) {
      forall i | 2 <= i < |schema|
        ensures ScaleFound(d, schema[i])
      {
        assert d.Encoded(p, d.registers[k + i]).Ok?;
      }
    }
    if forall i :: 2 <= i < |schema| ==> ScaleFound(d, schema[i]) {
      forall i | k + 2 <= i < k + |schema|
        ensures d.Encoded(p, d.registers[i]).Ok?
      {
        assert ScaleFound(d, schema[i - k]);
      }
    }
  }

  /** The read of a model's data, as the client issues it. */
  lemma BodyRead(p: Platform, d: Device, k: nat, id: int, schema: Schema)
    requires Ready(d) && ModelAt(d, k, id, schema)
    ensures Advancing(d.View(p)) && BASE <= Start(d.registers, k) && 0 <= ModelLength(schema)
    ensures var r := Link(p, d)((Start(d.registers, k) + 2) % 0x1_0000, ModelLength(schema) % 0x1_0000);
            var all := AllEncode(p, d, k + 2, k + |schema|);
            && (1 <= ModelLength(schema) <= MAX_READ && all ==> r == Ok(Payload(p, d, k + 2, k + |schema|)))
            && (!(1 <= ModelLength(schema) <= MAX_READ && all) ==> r == Err)
  {
    hide Link, AllEncode, Start, Ready, ModelLength, ModelAt, Payload, Advancing, KinAt;
    ReadySound(d);
    ModelBounds(d, k, id, schema);
    ModelExtent(d, k, id, schema);
    LinkRange(p, d, k + 2, k + |schema|, Start(d.registers, k) + 2, ModelLength(schema));
  }

  lemma DataOf(schemas: Schemas, remote: Remote, id: int, a: nat, l: nat, data: seq<byte>)
    requires id in schemas && |schemas[id]| >= 2 && remote(a % 0x1_0000, l % 0x1_0000) == Ok(data)
    ensures ModelData(schemas, remote, id, a, l) == Slices(schemas[id], id, a, data, 2, 0)
  {
    var schema := schemas[id];
    assert Slices(schema, id, a, data, 0, 0) == Slices(schema, id, a, data, 1, 0);
    assert Slices(schema, id, a, data, 1, 0) == Slices(schema, id, a, data, 2, 0);
  }

  lemma NoDataOf(schemas: Schemas, remote: Remote, id: int, a: nat, l: nat)
    requires remote(a % 0x1_0000, l % 0x1_0000) == Err
    ensures ModelData(schemas, remote, id, a, l) == Err
  {
  }

  lemma WholeBody(p: Platform, d: Device, k: nat, id: int, schema: Schema, a: int)
    requires Ready(d) && ModelAt(d, k, id, schema) && AllEncode(p, d, k + 2, k + |schema|)
    ensures SlicedFrom(p, d, k, schema, 2, Slices(schema, id, a, Payload(p, d, k + 2, k + |schema|), 2, 0))
  {
    var data := Payload(p, d, k + 2, k + |schema|);
    assert data[0..] == data;
    SlicesOf(p, d, k, id, schema, a, data, 2, 0);
  }

  lemma FetchableMeans(p: Platform, d: Device, k: nat, id: int, schema: Schema)
    requires Ready(d) && ModelAt(d, k, id, schema)
    ensures Fetchable(d, schema)
       <==> 1 <= ModelLength(schema) <= MAX_READ && AllEncode(p, d, k + 2, k + |schema|) && NoNumericScale(schema, 2)
  {
    FetchableScales(d, schema);
    if NoNumericScale(schema, 2) {
      AllPointsEncode(p, d, k, id, schema);
    }
  }

  /**
   * Reading a model's data succeeds exactly for the fetchable models, and then the client holds, point by
   * point, the bytes that the server encodes for that point, and together the whole payload.
   */
  lemma ModelDataRead(p: Platform, schemas: Schemas, d: Device, k: nat, id: int)
    requires Ready(d) && id in schemas && ModelAt(d, k, id, schemas[id])
    ensures Advancing(d.View(p)) && BASE <= Start(d.registers, k) && 0 <= ModelLength(schemas[id])
    ensures var r := ModelData(schemas, Link(p, d), id, Start(d.registers, k) + 2, ModelLength(schemas[id]));
            && (r.Ok? <==> Fetchable(d, schemas[id]))
            && (r.Ok? ==> |r.value| == |schemas[id]| - 2 && Sliced(p, d, k, 2, r.value))
            && (r.Ok? ==>
                  AllEncode(p, d, k + 2, k + |schemas[id]|) && Raws(r.value) == Payload(p, d, k + 2, k + |schemas[id]|))
  {
    hide Link, AllEncode, Start, Ready, ModelAt, ModelLength, Fetchable, Payload, ModelData, Slices, SlicedFrom,
         Advancing;
    ReadySound(d);
    ModelBounds(d, k, id, schemas[id]);
    var schema := schemas[id];
    var a := Start(d.registers, k) + 2;
    BodyRead(p, d, k, id, schema);
    FetchableMeans(p, d, k, id, schema);
    if 1 <= ModelLength(schema) <= MAX_READ && AllEncode(p, d, k + 2, k + |schema|) {
      var data := Payload(p, d, k + 2, k + |schema|);
      WholeBody(p, d, k, id, schema, a);
      DataOf(schemas, Link(p, d), id, a, ModelLength(schema), data);
      SlicedResult(p, d, k, schema, Slices(schema, id, a, data, 2, 0));
      if Slices(schema, id, a, data, 2, 0).Ok? {
        RawsArePayload(p, d, k, 2, Slices(schema, id, a, data, 2, 0).value);
      }
    } else {
      NoDataOf(schemas, Link(p, d), id, a, ModelLength(schema));
    }
  }

  lemma SlicedResult(p: Platform, d: Device, k: nat, schema: Schema, s: Result<seq<Found>>)
    requires d.Sound() && k + |schema| <= |d.registers| && 2 <= |schema| && SlicedFrom(p, d, k, schema, 2, s)
    ensures s.Ok? <==> NoNumericScale(schema, 2)
    ensures s.Ok? ==> |s.value| == |schema| - 2 && Sliced(p, d, k, 2, s.value)
  {
  }

  lemma FetchableScales(d: Device, schema: Schema)
    ensures Fetchable(d, schema) ==> NoNumericScale(schema, 2)
  {
    if Fetchable(d, schema) {
      forall j | 2 <= j < |schema|
        ensures !schema[j].scale.FloatScale? && !schema[j].scale.OtherScale?
      {
        assert ScaleFound(d, schema[j]);
      }
    }
  }

  // ---- the chain of models ----

  /** A model as the walk meets it: its id, its length, and whether its data can be read. */
  datatype Entry = Entry(id: int, length: nat, readable: bool)

  /** The remote device presents these models from an address on, and then the end marker. */
  ghost predicate Chain(p: Platform, schemas: Schemas, remote: Remote, entries: seq<Entry>, addr: int) {
    && addr >= 0
    && if entries == [] then NextModel(p, remote, addr) == Ok((END_ID, 0))
       else
         var e := entries[0];
         && e.id != END_ID && NextModel(p, remote, addr) == Ok((e.id, e.length))
         && (ModelPoints(schemas, remote, e.id, addr + 2, e.length).Ok? <==> e.readable)
         && Chain(p, schemas, remote, entries[1..], addr + 2 + e.length)
  }

  function Ids(entries: seq<Entry>): seq<int> {
    if entries == [] then [] else [entries[0].id] + Ids(entries[1..])
  }

  /** Where the client should record models that start from an address on. */
  function SettingsFrom(settings: map<int, Setting>, entries: seq<Entry>, addr: int): map<int, Setting>
    decreases entries
  {
    if entries == [] then settings
    else
      var e := entries[0];
      SettingsFrom(settings[e.id := Setting(addr + 2, e.length)], entries[1..], addr + 2 + e.length)
  }

  predicate AllFetchable(entries: seq<Entry>) {
    forall i :: 0 <= i < |entries| ==> entries[i].readable
  }

  predicate OpensWithModel1(entries: seq<Entry>) {
    entries != [] && entries[0].id == 1
  }

  /**
   * The discovery loop reaches the end marker of a chain exactly when the chain opens with model 1 and every
   * model can be read; then it has listed exactly the chain's models, in order, each at its own address.
   */
  lemma {:induction false} ExploresChain(p: Platform, schemas: Schemas, remote: Remote, entries: seq<Entry>, addr: int,
                                         model1: bool, s: Survey,
                                         rounds: nat)
    requires p.ExactPowers() && Chain(p, schemas, remote, entries, addr) && rounds > |entries|
    ensures var r := Explored(p, schemas, remote, addr, model1, s, rounds);
            && (r.end.Finished? <==> (model1 || OpensWithModel1(entries)) && AllFetchable(entries))
            && (r.end.Finished? ==>
                  r.order == s.order + Ids(entries) && r.settings == SettingsFrom(s.settings, entries, addr))
    decreases entries
  {
    hide Explored, NextModel, ModelPoints;
    if entries == [] {
      ExploredEnds(p, schemas, remote, addr, model1, s, rounds, END_ID, 0);
      assert s.order + [] == s.order;
    } else {
      var e := entries[0];
      var data := ModelPoints(schemas, remote, e.id, addr + 2, e.length);
      ExploredEnds(p, schemas, remote, addr, model1, s, rounds, e.id, e.length);
      assert AllFetchable(entries) ==> AllFetchable(entries[1..]);
      assert e.readable && AllFetchable(entries[1..]) ==>
               forall i :: 0 <= i < |entries| ==> i == 0 || entries[i] == entries[1..][i - 1];
      if (model1 || e.id == 1) && e.readable {
        var s' := s.(order := s.order + [e.id], settings := s.settings[e.id := Setting(addr + 2, e.length)],
                     points := s.points + data.value);
        ExploredOn(p, schemas, remote, addr, model1, s, rounds, e.id, e.length, data.value);
        ExploresChain(p, schemas, remote, entries[1..], addr + 2 + e.length, true, s', rounds - 1);
        assert s.order + ([e.id] + Ids(entries[1..])) == (s.order + [e.id]) + Ids(entries[1..]);
      }
    }
  }

  /** The models of a list, as the walk meets them on a device. */
  function Entries(d: Device, schemas: Schemas, models: seq<ModelElement>): seq<Entry>
    requires Listed(schemas, models)
  {
    if models == [] then []
    else
      [EntryOf(d, models[0].id.value, schemas[models[0].id.value])] + Entries(d, schemas, models[1..])
  }

  lemma {:induction false} EntriesCount(d: Device, schemas: Schemas, models: seq<ModelElement>)
    requires Listed(schemas, models)
    ensures |Entries(d, schemas, models)| == |models|
  {
    if models != [] {
      EntriesCount(d, schemas, models[1..]);
    }
  }

  function EntryOf(d: Device, id: int, schema: Schema): Entry {
    var l := ModelLength(schema);
    Entry(id, if l < 0 then 0 else l, Fetchable(d, schema))
  }

  predicate Listed(schemas: Schemas, models: seq<ModelElement>) {
    forall i :: 0 <= i < |models| ==> models[i].id.Some? && models[i].id.value in schemas
  }

  /** The walk's own address never leaves the range for which it is defined. */
  lemma ModelAddress(d: Device, k: nat)
    requires Ready(d) && 1 <= k < |d.registers|
    ensures FIRST_MODEL <= Start(d.registers, k) < 0x1_0000
  {
    assert Start(d.registers, 1) == Start(d.registers, 0) + IDENTIFIER.count;
    StartIncreases(d.registers, 1, k);
    StartRange(d, k, |d.registers|);
  }

  /** The walk at a model: where it starts, what it reads there, and where it goes next. */
  lemma AtModel(p: Platform, schemas: Schemas, d: Device, id: int, k: nat)
    requires p.ExactPowers() && Ready(d) && id in schemas && ModelAt(d, k, id, schemas[id])
    ensures Advancing(d.View(p))
    ensures var a, schema := Start(d.registers, k), schemas[id]; var l := ModelLength(schema);
            && a >= 0 && l >= 0 && Start(d.registers, k + |schema|) == a + 2 + l
            && NextModel(p, Link(p, d), a) == Ok((id, l))
            && (ModelPoints(schemas, Link(p, d), id, a + 2, l).Ok? <==> Fetchable(d, schema))
  {
    hide Link, NextModel, Start, Ready, Fetchable, ModelAt;
    ModelBounds(d, k, id, schemas[id]);
    ModelAddress(d, k);
    ModelAddress(d, k + |schemas[id]|);
    ModelHeader(p, d, k, id, schemas[id]);
    ModelExtent(d, k, id, schemas[id]);
    ModelDataRead(p, schemas, d, k, id);
  }

  // ---- a configured server is ready ----

  /** What discovery needs of a configuration: standard headers, ids of one word other than the end marker. */
  predicate Standard(schemas: Schemas, models: seq<ModelElement>) {
    && Regular(schemas, models)
    && forall i :: 0 <= i < |models| && models[i].id.Some? && models[i].id.value in schemas ==>
         Headed(schemas[models[i].id.value]) && 0 <= models[i].id.value < END_ID
  }

  lemma {:induction false} BasesInitialised(schemas: Schemas, models: seq<ModelElement>)
    ensures forall k :: 0 <= k < |Bases(schemas, models)| ==> Initialised(Bases(schemas, models)[k])
    decreases models
  {
    if models != [] {
      BasesInitialised(schemas, models[1..]);
      var m := models[0];
      if m.id.Some? && m.id.value in schemas {
        forall i | 0 <= i < |ModelBases(schemas, m)|
          ensures Initialised(ModelBases(schemas, m)[i])
        {
          InitChecks(Requested(m.id.value, ModelLength(schemas[m.id.value]), schemas[m.id.value][i]));
        }
      }
    }
  }

  ghost predicate KinFrom(d: Device, k: nat, bases: seq<Register>) {
    k + |bases| <= |d.registers| && forall i :: 0 <= i < |bases| ==> Kin(d.registers[k + i], bases[i])
  }

  lemma KinSplit(d: Device, k: nat, xs: seq<Register>, ys: seq<Register>)
    requires KinFrom(d, k, xs + ys)
    ensures KinFrom(d, k, xs) && KinFrom(d, k + |xs|, ys)
  {
    forall i | 0 <= i < |xs| ensures Kin(d.registers[k + i], xs[i]) {
      assert (xs + ys)[i] == xs[i];
    }
    forall i | 0 <= i < |ys| ensures Kin(d.registers[k + |xs| + i], ys[i]) {
      assert (xs + ys)[|xs| + i] == ys[i] && k + |xs| + i == k + (|xs| + i);
    }
  }

  lemma KinModelAt(d: Device, k: nat, id: int, schema: Schema)
    requires 1 <= k && KinFrom(d, k, PointBases(id, ModelLength(schema), schema)) && k + |schema| + 2 <= |d.registers|
    requires Headed(schema) && SizesMatch(schema) && 0 <= id < END_ID
    ensures ModelAt(d, k, id, schema)
  {
    forall i: nat | i < |schema|
      ensures KinAt(d, k, id, schema, i)
    {
      assert PointBases(id, ModelLength(schema), schema)[i] == BaseOf(id, ModelLength(schema), schema[i]);
    }
  }

  lemma RestStandard(schemas: Schemas, models: seq<ModelElement>)
    requires models != [] && Listed(schemas, models) && Standard(schemas, models)
    ensures Listed(schemas, models[1..]) && Standard(schemas, models[1..])
    ensures var id := models[0].id.value; Headed(schemas[id]) && SizesMatch(schemas[id]) && 0 <= id < END_ID
  {
    assert forall i :: 0 <= i < |models[1..]| ==> models[1..][i] == models[i + 1];
  }

  /** What the remote device answers at a model laid out at register k, as AtModel establishes. */
  ghost predicate Meets(p: Platform, schemas: Schemas, d: Device, remote: Remote, id: int, k: nat)
    requires id in schemas && k + |schemas[id]| <= |d.registers|
  {
    var a, l := Start(d.registers, k), ModelLength(schemas[id]);
    && a >= 0 && l >= 0 && Start(d.registers, k + |schemas[id]|) == a + 2 + l
    && NextModel(p, remote, a) == Ok((id, l))
    && (ModelPoints(schemas, remote, id, a + 2, l).Ok? <==> Fetchable(d, schemas[id]))
  }

  ghost predicate MeetsEnd(p: Platform, d: Device, remote: Remote)
    requires |d.registers| >= 2
  {
    var a := Start(d.registers, |d.registers| - 2);
    a >= 0 && NextModel(p, remote, a) == Ok((END_ID, 0))
  }

  lemma PresentsOne(p: Platform, schemas: Schemas, d: Device, remote: Remote, id: int, k: nat, rest: seq<Entry>)
    requires id in schemas && k + |schemas[id]| <= |d.registers| && Meets(p, schemas, d, remote, id, k) && id != END_ID
    requires Chain(p, schemas, remote, rest, Start(d.registers, k + |schemas[id]|))
    ensures Chain(p, schemas, remote, [EntryOf(d, id, schemas[id])] + rest, Start(d.registers, k))
  {
    assert ([EntryOf(d, id, schemas[id])] + rest)[1..] == rest;
  }

  lemma PresentsEnd(p: Platform, schemas: Schemas, d: Device, remote: Remote)
    requires |d.registers| >= 2 && MeetsEnd(p, d, remote)
    ensures Chain(p, schemas, remote, [], Start(d.registers, |d.registers| - 2))
  {
  }

  lemma NothingListed(d: Device, schemas: Schemas)
    ensures Bases(schemas, []) == [] && Listed(schemas, []) && Entries(d, schemas, []) == []
  {
  }

  lemma FirstListed(d: Device, schemas: Schemas, models: seq<ModelElement>)
    requires models != [] && Listed(schemas, models)
    ensures models[0].id.Some? && models[0].id.value in schemas && Listed(schemas, models[1..])
    ensures var id := models[0].id.value;
            && Bases(schemas, models) == ModelBases(schemas, models[0]) + Bases(schemas, models[1..])
            && ModelBases(schemas, models[0]) == PointBases(id, ModelLength(schemas[id]), schemas[id])
            && |ModelBases(schemas, models[0])| == |schemas[id]|
            && Entries(d, schemas, models) == [EntryOf(d, id, schemas[id])] + Entries(d, schemas, models[1..])
  {
  }

  /** A device laid out from a list of models presents exactly those models. */
  lemma {:induction false} PresentsChain(p: Platform, schemas: Schemas, d: Device, remote: Remote,
                                         models: seq<ModelElement>, k: nat,
                                         entries: seq<Entry>)
    requires 1 <= k && Listed(schemas, models) && Standard(schemas, models)
    requires |d.registers| == k + |Bases(schemas, models)| + 2 && KinFrom(d, k, Bases(schemas, models))
    requires forall id, j: nat :: id in schemas && ModelAt(d, j, id, schemas[id]) ==>
               Meets(p, schemas, d, remote, id, j)
    requires MeetsEnd(p, d, remote) && entries == Entries(d, schemas, models)
    ensures Chain(p, schemas, remote, entries, Start(d.registers, k))
    decreases models
  {
    hide Meets, MeetsEnd, ModelAt, KinFrom, Standard, Chain, EntryOf, Start, Bases, ModelBases, PointBases, Entries,
         Listed,
         ModelLength, Headed, SizesMatch;
    if models == [] {
      NothingListed(d, schemas);
      PresentsEnd(p, schemas, d, remote);
    } else {
      FirstListed(d, schemas, models);
      var id := models[0].id.value;
      RestStandard(schemas, models);
      KinSplit(d, k, ModelBases(schemas, models[0]), Bases(schemas, models[1..]));
      KinModelAt(d, k, id, schemas[id]);
      var rest := Entries(d, schemas, models[1..]);
      PresentsChain(p, schemas, d, remote, models[1..], k + |schemas[id]|, rest);
      PresentsOne(p, schemas, d, remote, id, k, rest);
    }
  }

  lemma DevicePresents(p: Platform, schemas: Schemas, d: Device, models: seq<ModelElement>)
    requires p.ExactPowers() && Ready(d) && Listed(schemas, models) && Standard(schemas, models)
    requires Shaped(d, Bases(schemas, models))
    ensures Advancing(d.View(p))
    ensures Chain(p, schemas, Link(p, d), Entries(d, schemas, models), FIRST_MODEL)
  {
    var k := |d.registers| - 2;
    ModelAddress(d, k);
    HeaderRead(p, d, k, END_ID, 0);
    forall id, j: nat | id in schemas && ModelAt(d, j, id, schemas[id])
      ensures Meets(p, schemas, d, Link(p, d), id, j)
    {
      AtModel(p, schemas, d, id, j);
    }
    assert Start(d.registers, 1) == Start(d.registers, 0) + IDENTIFIER.count == FIRST_MODEL;
    PresentsChain(p, schemas, d, Link(p, d), models, 1, Entries(d, schemas, models));
  }

  /** A device configured from a standard list, under any later values of its tags. */
  ghost predicate Serves(schemas: Schemas, models: seq<ModelElement>, d: Device) {
    var (c, error) := Configured(schemas, EMPTY, models);
    && error.None?
    && d == c.(tags := d.tags) && d.tags.Keys == c.tags.Keys
    && Start(d.registers, |d.registers|) <= 0x1_0000
  }

  lemma TiledUnderTags(c: Device, d: Device)
    requires Tiled(c) && d == c.(tags := d.tags)
    ensures Tiled(d)
  {
    forall k: nat | k < |d.registers|
      ensures FoundAt(d, k)
    {
      assert FoundAt(c, k);
    }
  }

  /** The registers of a configured device: the identifier, the kin of the bases, the end marker. */
  ghost predicate Shaped(d: Device, bases: seq<Register>) {
    && |d.registers| == 1 + |bases| + 2 && d.registers[0] == IDENTIFIER
    && KinFrom(d, 1, bases)
    && d.registers[1 + |bases|] == END_REGISTER && d.registers[1 + |bases| + 1] == END_LENGTH
  }

  lemma ShapeOf(d: Device, bases: seq<Register>)
    requires |d.registers| == 1 + |bases| + 2
    requires AllKin(d.registers[..1 + |bases|], [IDENTIFIER] + bases)
    requires d.registers[1 + |bases|..] == [END_REGISTER, END_LENGTH]
    ensures Shaped(d, bases)
  {
    var n, all := 1 + |bases|, [IDENTIFIER] + bases;
    assert d.registers[n] == d.registers[n..][0] && d.registers[n + 1] == d.registers[n..][1];
    assert d.registers[0] == d.registers[..n][0];
    forall i | 0 <= i < |bases|
      ensures Kin(d.registers[1 + i], bases[i])
    {
      assert d.registers[1 + i] == d.registers[..n][1 + i] && all[1 + i] == bases[i];
    }
  }

  lemma ShapedInitialised(d: Device, bases: seq<Register>)
    requires Shaped(d, bases) && forall k :: 0 <= k < |bases| ==> Initialised(bases[k])
    ensures forall k :: 0 <= k < |d.registers| ==> Initialised(d.registers[k])
  {
    forall k | 0 <= k < |d.registers|
      ensures Initialised(d.registers[k])
    {
      if 1 <= k <= |bases| {
        assert Kin(d.registers[1 + (k - 1)], bases[k - 1]);
      }
    }
  }

  lemma ServesReady(schemas: Schemas, models: seq<ModelElement>, d: Device)
    requires Standard(schemas, models) && Serves(schemas, models, d) && "" !in d.tags
    ensures Ready(d) && Listed(schemas, models) && Shaped(d, Bases(schemas, models))
  {
    var c, bases := Configured(schemas, EMPTY, models).0, Bases(schemas, models);
    ConfigureTiles(schemas, models);
    TiledUnderTags(c, d);
    ShapeOf(d, bases);
    BasesInitialised(schemas, models);
    ShapedInitialised(d, bases);
  }

  lemma IdentifierConfirmed(p: Platform, d: Device)
    requires p.ExactPowers() && Ready(d)
    ensures Advancing(d.View(p)) && ConfirmIdentifier(p, Link(p, d)) == Ok(true)
  {
    NextStart(d, 0);
    IdentifierEncodes(p, d);
    AllEncodeFirst(p, d, 0, 1);
    var word := BigEndian(SUNSPEC_IDENTIFIER, 4);
    assert Payload(p, d, 1, 1) == [] && word + [] == word;
    assert Start(d.registers, 0) == BASE && Start(d.registers, 1) == BASE + 2;
    LinkRange(p, d, 0, 1, BASE, 2);
    assert Link(p, d)(BASE, 2) == Ok(word);
    IdentifierDecodes(p);
  }

  lemma IdentifierEncodes(p: Platform, d: Device)
    requires p.ExactPowers() && d.Sound() && "" !in d.tags
    ensures d.Encoded(p, IDENTIFIER) == Ok(BigEndian(SUNSPEC_IDENTIFIER, 4))
  {
    TimesOne(SUNSPEC_IDENTIFIER as real);
    TruncWhole(SUNSPEC_IDENTIFIER);
    assert Words(4) == 0x1_0000_0000;
  }

  lemma IdentifierDecodes(p: Platform)
    requires p.ExactPowers()
    ensures Decode(p, IDENTIFIER, BigEndian(SUNSPEC_IDENTIFIER, 4), 0.0) == Ok(SUNSPEC_IDENTIFIER as real)
  {
    assert Words(4) == 0x1_0000_0000;
    WordRoundTrip(SUNSPEC_IDENTIFIER, 4);
    DecodeInteger(p, IDENTIFIER, BigEndian(SUNSPEC_IDENTIFIER, 4), 0.0);
    TimesOne(SUNSPEC_IDENTIFIER as real);
  }

  // ---- the main result ----

  const NEW_SURVEY := Survey([], map[], map[], Failed)

  /**
   * Discovery inverts layout. Against a server configured from a standard list of models, whatever its tags
   * hold (none of them being nameless), the client's walk reaches the end marker exactly when the list opens
   * with model 1 and every model can be read in one request with scale factors that can be followed; and then
   * it has recorded exactly the configured models, in order, each with the address and length it was laid out at.
   */
  lemma DiscoveryInvertsLayout(p: Platform, schemas: Schemas, models: seq<ModelElement>, d: Device, rounds: nat)
    requires p.ExactPowers() && Standard(schemas, models) && Serves(schemas, models, d) && "" !in d.tags
    requires rounds > |models|
    ensures Listed(schemas, models) && d.Sound() && Advancing(d.View(p))
    ensures var r := Discovered(p, schemas, Link(p, d), NEW_SURVEY, rounds); var entries := Entries(d, schemas, models);
            && (r.end.Finished? <==> OpensWithModel1(entries) && AllFetchable(entries))
            && (r.end.Finished? ==> r.order == Ids(entries) && r.settings == SettingsFrom(map[], entries, FIRST_MODEL))
  {
    hide Explored, Chain, Entries, Standard, Serves, Bases, Shaped, ConfirmIdentifier, Ids, SettingsFrom, AllFetchable,
         OpensWithModel1;
    ServesReady(schemas, models, d);
    DevicePresents(p, schemas, d, models);
    IdentifierConfirmed(p, d);
    EntriesCount(d, schemas, models);
    ExploresChain(p, schemas, Link(p, d), Entries(d, schemas, models), FIRST_MODEL, false, NEW_SURVEY, rounds);
    assert [] + Ids(Entries(d, schemas, models)) == Ids(Entries(d, schemas, models));
  }

  /**
   * The recorded addresses, spelled out: with distinct ids each model is found two words past the sum of what precedes
   * it.
   */
  lemma {:induction false} SettingsOf(settings: map<int, Setting>, entries: seq<Entry>, addr: int, i: nat)
    requires i < |entries| && forall j :: i < j < |entries| ==> entries[j].id != entries[i].id
    ensures var r := SettingsFrom(settings, entries, addr);
            entries[i].id in r && r[entries[i].id] == Setting(addr + Extent(entries, i) + 2, entries[i].length)
    decreases entries
  {
    var e := entries[0];
    var rest := entries[1..];
    var settings' := settings[e.id := Setting(addr + 2, e.length)];
    if i > 0 {
      forall j | i - 1 < j < |rest|
        ensures rest[j].id != rest[i - 1].id
      {
        assert rest[j] == entries[j + 1];
      }
      SettingsOf(settings', rest, addr + 2 + e.length, i - 1);
    } else {
      SettingsKept(settings', rest, addr + 2 + e.length, e.id);
    }
  }

  lemma {:induction false} SettingsKept(settings: map<int, Setting>, entries: seq<Entry>, addr: int, id: int)
    requires id in settings && forall j :: 0 <= j < |entries| ==> entries[j].id != id
    ensures var r := SettingsFrom(settings, entries, addr); id in r && r[id] == settings[id]
    decreases entries
  {
    if entries != [] {
      SettingsKept(settings[entries[0].id := Setting(addr + 2, entries[0].length)], entries[1..],
                   addr + 2 + entries[0].length, id);
    }
  }

  /** The words taken by the first i models, headers included. */
  function Extent(entries: seq<Entry>, i: nat): nat
    requires i <= |entries|
  {
    if i == 0 then 0 else 2 + entries[0].length + Extent(entries[1..], i - 1)
  }

  /**
   * A read of a ready server delivers 2 * count bytes or up to thirty more; its length byte is right for every count up
   * to 112.
   */
  lemma ReadLength(p: Platform, d: Device, frame: seq<byte>)
    requires Ready(d) && |frame| >= 4 && Field(frame, 1) > 0
    ensures Advancing(d.View(p))
    ensures ReadResponse(d.View(p), frame).Success? ==>
              var data := ReadResponse(d.View(p), frame).data; var count := Field(frame, 1);
              && 2 * count <= |data| - 1 <= 2 * count + 30
              && (count <= 112 ==> data[0] == |data| - 1)
              && (data[0] == |data| - 1
                <==> Landing(d.View(p), Field(frame, 0), Field(frame, 0) + count) - Field(frame, 0) <= 127)
  {
    hide Ready, ReadResponse, Landing, Field, Encode;
    ReadySound(d);
    ReadyView(p, d);
    ReadyWidths(p, d);
    if ReadResponse(d.View(p), frame).Success? {
      LengthByte(d.View(p), frame, 16);
    }
  }

  /**
   * What a client gets from a ready server: the payload of a successful answer, if it asks for 1 to 125 registers and
   * the answer ends within 127 words; with any other, the length byte is wrong and the whole read an error.
   */
  lemma LinkAnswers(p: Platform, d: Device, a: nat, q: nat)
    requires Ready(d) && a < 0x1_0000
    ensures Advancing(d.View(p))
    ensures var r, answer := ReadResponse(d.View(p), U16(a) + U16(q)), Link(p, d)(a, q);
            && (answer.Ok? <==> 1 <= q <= 125 && r.Success? && Landing(d.View(p), a, a + q) - a <= 127)
            && (answer.Ok? ==> r.data != [] && answer.value == r.data[1..])
            && !answer.Panic?
  {
    hide Ready, ReadResponse, Landing, Field, U16, Encode;
    ReadyView(p, d);
    if q < 0x1_0000 {
      RequestFields(a, q);
      if q > 0 { ReadLength(p, d, U16(a) + U16(q)); }
    }
  }

  lemma ReadyWidths(p: Platform, d: Device)
    requires Ready(d)
    ensures forall a :: a in d.View(p) ==> d.View(p)[a].count <= 16
  {
  }

  /** No status message can disturb discovery: it changes the values of known tags and nothing else. */
  lemma StatusKeepsService(schemas: Schemas, models: seq<ModelElement>, d: Device, points: seq<Point>)
    requires Serves(schemas, models, d)
    ensures Serves(schemas, models, d.(tags := Followed(d.tags, points)))
    ensures "" in Followed(d.tags, points) <==> "" in d.tags
  {
    FollowedKeys(d.tags, points);
  }

  /**
   * A nameless tag breaks discovery: every numeric register without a tag of its own, the identifier first of all,
   * then shows the value of that tag. The device is still confirmed exactly if that value happens to encode as the
   * identifier; for a value in the range of the register that is the identifier itself, with any fraction.
   */
  lemma NamelessTagHidesDevice(p: Platform, d: Device)
    requires p.ExactPowers() && Tiled(d) && |d.registers| >= 1 && d.registers[0] == IDENTIFIER && "" in d.tags
    ensures Advancing(d.View(p))
    ensures ConfirmIdentifier(p, Link(p, d)) == Ok(true)
       <==> p.PutInt(false, 4, d.tags[""]) == BigEndian(SUNSPEC_IDENTIFIER, 4)
    ensures 0 <= Trunc(d.tags[""]) < 0x1_0000_0000 ==>
              (ConfirmIdentifier(p, Link(p, d)) == Ok(true) <==> Trunc(d.tags[""]) == SUNSPEC_IDENTIFIER)
  {
    hide Walk, ReadResponse, Received, Encode, Decode, Tiled, Field;
    TiledWide(d);
    var word := p.PutInt(false, 4, d.tags[""]);
    NamelessEncodes(p, d);
    SingleWalk(d.View(p), BASE, BASE + 2, word);
    AnswerReceived(d.View(p), BASE, BASE + 2);
    assert Link(p, d)(BASE, 2) == Ok(word);
    IdentifierFrom(p, word);
    if 0 <= Trunc(d.tags[""]) < 0x1_0000_0000 {
      assert Words(4) == 0x1_0000_0000;
      WordRoundTrip(Trunc(d.tags[""]), 4);
      WordRoundTrip(SUNSPEC_IDENTIFIER, 4);
    }
  }

  /**
   * With a nameless tag, a numeric register without a tag of its own is sent as if the value of the nameless tag
   * were its own; a string register, which never has a tag, cannot be sent at all.
   */
  lemma NamelessShows(p: Platform, d: Device, k: nat)
    requires d.Sound() && k < |d.registers| && d.registers[k].tag == "" && "" in d.tags
    requires d.ScalingOf(d.registers[k]).Ok?
    ensures var r := d.registers[k]; var scaling := d.ScalingOf(r).value;
            && (!IsString(r.dataType) ==> d.Encoded(p, r) == Encode(p, r.(internalValue := d.tags[""]), None, scaling))
            && (IsString(r.dataType) ==> d.Encoded(p, r) == Panic)
  {
  }

  /** A string register stands at the address. */
  predicate UntaggedText(d: Device, a: int)
    requires d.Sound()
  {
    a in d.at && var r := d.registers[d.at[a]]; r.tag == "" && IsString(r.dataType) && d.ScalingOf(r).Ok?
  }

  /** So a read that gets as far as a string register is a crash of the handler. */
  lemma NamelessCrash(p: Platform, d: Device, frame: seq<byte>, i: nat)
    requires d.Sound() && Advancing(d.View(p)) && "" in d.tags && |frame| >= 4
    requires var path := Path(d.View(p), Field(frame, 0), Field(frame, 0) + Field(frame, 1));
             && i < |path| && UntaggedText(d, path[i]) && (forall j :: 0 <= j < i ==> Readable(d.View(p), path[j]))
    ensures ReadResponse(d.View(p), frame) == Crash
  {
    hide Encode, Field;
    var cells, start := d.View(p), Field(frame, 0);
    var stop := start + Field(frame, 1);
    var path := Path(cells, start, stop);
    NamelessShows(p, d, d.at[path[i]]);
    assert cells[path[i]].bytes == Panic && !Readable(cells, path[i]);
    WalkVerdict(cells, start, stop);
    var w := Walk(cells, start, stop);
    assert !AllReadable(cells, path);
    var n :| RefusedAt(cells, path, n) && w.response == Verdict(cells, path[n]);
    assert n == i;
  }

  /** Four bytes are taken for the identifier only if they are the identifier. */
  lemma IdentifierFrom(p: Platform, word: seq<byte>)
    requires p.ExactPowers() && |word| == 4
    ensures Decode(p, IDENTIFIER, word, 0.0).Ok?
    ensures Decode(p, IDENTIFIER, word, 0.0).value == SUNSPEC_IDENTIFIER as real
       <==> word == BigEndian(SUNSPEC_IDENTIFIER, 4)
  {
    assert Words(4) == 0x1_0000_0000;
    DecodeInteger(p, IDENTIFIER, word, 0.0);
    TimesOne(FromBigEndian(word) as real);
    BytesRoundTrip(word);
    WordRoundTrip(SUNSPEC_IDENTIFIER, 4);
  }

  lemma TiledWide(d: Device)
    requires Tiled(d) && |d.registers| >= 1
    ensures Start(d.registers, 0) == BASE
    ensures d.Sound() && (forall a :: a in d.at ==> d.registers[d.at[a]].count >= 1)
    ensures BASE in d.at && d.at[BASE] == 0
  {
    assert FoundAt(d, 0);
  }

  lemma NamelessEncodes(p: Platform, d: Device)
    requires p.ExactPowers() && d.Sound() && "" in d.tags
    ensures d.Encoded(p, IDENTIFIER) == Ok(p.PutInt(false, 4, d.tags[""]))
  {
    TimesOne(d.tags[""]);
  }

  /** A walk over a single register. */
  lemma SingleWalk(cells: Cells, a: int, stop: int, data: seq<byte>)
    requires Advancing(cells) && a < stop && a in cells && cells[a] == Cell(stop - a, Ok(data))
    ensures Walk(cells, a, stop) == Done(data, 2 * (stop - a))
  {
    assert data + [] == data;
  }
}
