/**
 * A chain of gateways: a client writes a value to a holding register, the server on the other end
 * publishes what it decoded as an update, the next client picks that update up by its tag, and so on.
 */
module Gateways {
  import opened Bytes
  import opened Decimal
  import opened GoRuntime
  import opened ModbusRegister
  import opened MessageBus
  import opened ModbusTables
  import opened RegisterWalk
  import opened ModbusLaws
  import opened ModbusWire
  import opened ModbusEffects
  import Client = ModbusClient

  /** One hop: the register the client writes and the one it reaches, each in the tables of its module. */
  datatype Gateway = Gateway(client: Register, server: Register, clients: Client.Registers, servers: Registers)

  /**
   * Both ends configured alike, one address, one integer type, one scaling, whatever else is configured beside them.
   */
  ghost predicate Matched(g: Gateway) {
    && g.client.tag in g.clients && g.clients[g.client.tag] == g.client
    && WalkableTables(g.servers) && Holding in g.servers
    && g.server.addr in g.servers[Holding] && g.servers[Holding][g.server.addr] == g.server
    && g.client.registerType == g.server.registerType == Holding
    && IntegerRegister(g.client) && IntegerRegister(g.server)
    && g.client.dataType == g.server.dataType && g.client.scaling == g.server.scaling
    && 0 <= g.client.addr == g.server.addr < 0x1_0000
  }

  /** What a server makes of a client's request. */
  ghost function Handled(p: Platform, servers: Registers, q: Client.Request): Effect
    requires WalkableTables(servers)
  {
    var frame := Client.Frame(q);
    match q
    case WriteSingleCoil(_, _) => Carried(WriteOne(p, servers, Coil, frame), frame, true, map[], [])
    case WriteMultipleRegisters(_, _, _) => Carried(WriteHoldings(p, servers, frame), frame, true, map[], [])
  }

  /** The points of the update message that the server sends out when q is updated on the client's side. */
  ghost function Relay(p: Platform, g: Gateway, q: Point): seq<Point>
    requires WalkableTables(g.servers)
  {
    var requests := Client.Requests(p, g.clients, [q]);
    if |requests| != 1 then []
    else
      var pushed := Handled(p, g.servers, requests[0]).pushed;
      if |pushed| != 1 then [] else pushed[0]
  }

  /** What is left of a value with s decimals. */
  function Rounded(v: real, s: int): real {
    Quantised(v, Power(s), Power(-s))
  }

  /** One hop leaves the value truncated to the hop's decimals, under the server's tag. */
  lemma HopRounds(p: Platform, g: Gateway, v: real)
    requires Matched(g) && Fits(g.server, v)
    ensures Relay(p, g, Point(g.client.tag, v)) == [Point(g.server.tag, Rounded(v, g.server.scaling))]
  {
    var q := Point(g.client.tag, v);
    EncodeInteger(p, g.client, v);
    var data := Encode(p, g.client, v).value;
    var request := Client.WriteMultipleRegisters(g.client.addr, g.client.count, data);
    assert Client.RequestFor(p, g.clients, q) == [request];
    assert Client.Requests(p, g.clients, [q]) == [request] + Client.Requests(p, g.clients, []);
    RequestFrame(request);
    HopWrite(p, g, v);
    assert Handled(p, g.servers, request).pushed == [] + [[Point(g.server.tag, Rounded(v, g.server.scaling))]];
  }

  lemma RequestFrame(q: Client.Request)
    requires q.WriteMultipleRegisters? && q.addr < 0x1_0000 && q.quantity < 0x1_0000
    ensures var f := Client.Frame(q);
            |f| == 5 + |q.data| && f[5..] == q.data && Field(f, 0) == q.addr && Field(f, 1) == q.quantity
  {
    U16RoundTrip(q.addr);
    U16RoundTrip(q.quantity);
    var f := Client.Frame(q);
    assert f[0..2] == U16(q.addr) && f[2..4] == U16(q.quantity);
  }

  lemma HopWrite(p: Platform, g: Gateway, v: real)
    requires Matched(g) && Fits(g.server, v)
    ensures Encode(p, g.client, v).Ok?
    ensures var data := Encode(p, g.client, v).value;
            var frame := Client.Frame(Client.WriteMultipleRegisters(g.client.addr, g.client.count, data));
            WriteHoldings(p, g.servers, frame) == Written([Point(g.server.tag, Rounded(v, g.server.scaling))], Complete)
  {
    EncodeInteger(p, g.client, v);
    EncodeInteger(p, g.server, v);
    var data := Encode(p, g.client, v).value;
    var request := Client.WriteMultipleRegisters(g.client.addr, g.client.count, data);
    var frame := Client.Frame(request);
    RequestFrame(request);
    var r, table := g.server, g.servers[Holding];
    var addr := r.addr;
    assert DecodeAt(p, r, frame, 5) == Ok(Rounded(v, r.scaling)) by {
      assert frame[5..5 + 2 * r.count] == data;
      ReadBack(p, r, v);
    }
    assert WriteWalk(p, table, frame, addr + r.count, addr + r.count, 5 + 2 * r.count) == Written([], Complete);
    assert WriteWalk(p, table, frame, addr, addr + r.count, 5).points == [Point(r.tag, Rounded(v, r.scaling))];
  }

  // ---- what is sent for an update ----

  /** The requests of an update come in the order of its points, each point's on its own. */
  lemma {:induction false} RequestsInOrder(p: Platform, registers: Client.Registers, a: seq<Point>, b: seq<Point>)
    ensures Client.Requests(p, registers, a + b) == Client.Requests(p, registers, a) + Client.Requests(p, registers, b)
  {
    if a == [] {
      assert a + b == b;
    } else {
      assert (a + b)[1..] == a[1..] + b;
      RequestsInOrder(p, registers, a[1..], b);
      Client.Concatenate(Client.RequestFor(p, registers, a[0]), Client.Requests(p, registers, a[1..]),
                         Client.Requests(p, registers, b));
    }
  }

  /**
   * For one point: nothing without a coil or holding register under its tag or without an encoding; FF 00 or 00 00 to
   * a coil; the encoding to the words of a holding register.
   */
  lemma RequestSent(p: Platform, registers: Client.Registers, q: Point)
    ensures var sent := Client.Requests(p, registers, [q]);
            && (q.tag !in registers ==> sent == [])
            && (q.tag in registers ==>
                  var r := registers[q.tag];
                  && (r.registerType == Coil ==>
                        |sent| == 1
                        && Client.Frame(sent[0])
                           == U16(r.addr % 0x1_0000) + if q.value == 0.0 then [0x00, 0x00] else [0xFF, 0x00])
                  && (r.registerType == Holding && Encode(p, r, q.value).Ok? && 0 <= r.count < 128
                      && |Encode(p, r, q.value).value| == 2 * r.count ==>
                        |sent| == 1
                        && Client.Frame(sent[0]) == U16(r.addr % 0x1_0000) + [0, r.count] + [2 * r.count]
                                                    + Encode(p, r, q.value).value)
                  && (r.registerType == Holding && !Encode(p, r, q.value).Ok? ==> sent == [])
                  && (r.registerType != Coil && r.registerType != Holding ==> sent == []))
  {
    hide Encode, U16;
    OnlyRequest(p, registers, q);
    hide Client.Requests;
    CoilWords();
    if q.tag in registers && 0 <= registers[q.tag].count < 128 {
      SmallWord(registers[q.tag].count);
    }
  }

  lemma OnlyRequest(p: Platform, registers: Client.Registers, q: Point)
    ensures Client.Requests(p, registers, [q]) == Client.RequestFor(p, registers, q)
  {
    assert Client.Requests(p, registers, [q]) == Client.RequestFor(p, registers, q) + Client.Requests(p, registers, []);
  }

  lemma CoilWords()
    ensures U16(0xFF00) == [0xFF, 0x00] && U16(0) == [0x00, 0x00]
  {
    assert BigEndian(0xFF, 1) == [0xFF] && BigEndian(0, 1) == [0];
  }

  lemma SmallWord(n: nat)
    requires n < 128
    ensures U16(n) == [0, n]
  {
    assert BigEndian(0, 1) == [0];
  }

  /** Over a coil the far side hears 1 for every value but zero, and for that 0. */
  lemma CoilHop(p: Platform, g: Gateway, v: real)
    requires g.client.tag in g.clients && g.clients[g.client.tag] == g.client && WalkableTables(g.servers)
    requires g.client.registerType == g.server.registerType == Coil && 0 <= g.client.addr == g.server.addr < 0x1_0000
    requires Coil in g.servers && g.server.addr in g.servers[Coil] && g.servers[Coil][g.server.addr] == g.server
    ensures Relay(p, g, Point(g.client.tag, v)) == [Point(g.server.tag, if v == 0.0 then 0.0 else 1.0)]
  {
    hide Decode, Encode, Carried, WriteOne, Client.Frame, Client.Requests, U16, Store;
    var q, addr := Point(g.client.tag, v), g.client.addr;
    RequestSent(p, g.clients, q);
    var sent := Client.Requests(p, g.clients, [q]);
    var frame := Client.Frame(sent[0]);
    CoilSent(p, g.clients, q);
    U16RoundTrip(addr);
    assert addr % 0x1_0000 == addr && frame[..2] == U16(addr);
    WordFields(addr, frame);
    CoilInFigures(p, g.server, 0.0, frame[2..4]);
    var points := OneWritten(p, g.servers, Coil, frame, true, map[], []);
    assert [] + [points] == [points];
  }

  lemma CoilSent(p: Platform, registers: Client.Registers, q: Point)
    requires q.tag in registers && registers[q.tag].registerType == Coil
    ensures |Client.Requests(p, registers, [q])| == 1 && Client.Requests(p, registers, [q])[0].WriteSingleCoil?
  {
    OnlyRequest(p, registers, q);
  }

  lemma WordFields(addr: nat, frame: seq<byte>)
    requires addr < 0x1_0000 && |frame| == 4 && frame[..2] == U16(addr)
    ensures Field0(frame) == addr
  {
    U16RoundTrip(addr);
    assert frame[0..2] == frame[..2];
    FieldsInFigures(frame);
  }

  // ---- chains ----

  lemma RoundedBounds(v: real, s: int)
    requires s >= 0
    ensures Between(Rounded(v, s), v) && Abs(v - Rounded(v, s)) < Power(-s)
  {
    PowerStep(s);
    QuantisedBounds(v, Power(s), Power(-s));
  }

  /** Each server publishes under the tag that the next client listens to. */
  ghost predicate Linked(gs: seq<Gateway>) {
    && (forall i :: 0 <= i < |gs| ==> Matched(gs[i]))
    && forall i :: 0 < i < |gs| ==> gs[i - 1].server.tag == gs[i].client.tag
  }

  /** What becomes of an updated point at the end of the chain; a hop that does not pick it up leaves it as it is. */
  ghost function Through(p: Platform, gs: seq<Gateway>, q: Point): Point
    requires forall i :: 0 <= i < |gs| ==> WalkableTables(gs[i].servers)
  {
    if gs == [] then q
    else
      var out := Relay(p, gs[0], q);
      if |out| != 1 then q else Through(p, gs[1..], out[0])
  }

  function CoarsestScaling(gs: seq<Gateway>): int
    requires gs != []
  {
    var s := gs[0].server.scaling;
    if |gs| == 1 then s else
      var m := CoarsestScaling(gs[1..]);
      if s < m then s else m
  }

  lemma RoundedTwice(v: real, s: int, t: int)
    requires s >= 0 && t >= 0
    ensures Rounded(Rounded(v, s), t) == Rounded(v, if s < t then s else t)
  {
    PowerStep(s);
    PowerStep(t);
    if s < t {
      PowerSplit(s, t - s);
      FinerAfterCoarser(v, Power(s), Power(-s), Power(t), Power(-t), Pow10(t - s));
    } else {
      PowerSplit(t, s - t);
      CoarserAfterFiner(v, Power(t), Power(-t), Power(s), Power(-s), Pow10(s - t));
    }
  }

  /** A value between zero and one that fits, fits. */
  lemma FitsBetween(r: Register, q: real, v: real)
    requires Between(q, v) && Fits(r, v)
    ensures Fits(r, q)
  {
    var k := Power(r.scaling);
    if v >= 0.0 {
      TimesLe(0.0, q, k);
      TimesLe(q, v, k);
    }
    if v <= 0.0 {
      TimesLe(v, q, k);
      TimesLe(q, 0.0, k);
    }
    TruncBounds(Times(q, k));
    TruncBounds(Times(v, k));
  }

  /** What each hop receives fits its type. */
  predicate InRangeAlong(gs: seq<Gateway>, v: real) {
    gs == [] || (Fits(gs[0].server, v) && InRangeAlong(gs[1..], Rounded(v, gs[0].server.scaling)))
  }

  /** A value that fits every type along the chain is in range at each hop. */
  lemma {:induction false} FitsAll(gs: seq<Gateway>, v: real)
    requires Linked(gs) && forall i :: 0 <= i < |gs| ==> Fits(gs[i].server, v)
    ensures InRangeAlong(gs, v)
  {
    if gs != [] {
      var q := Rounded(v, gs[0].server.scaling);
      RoundedBounds(v, gs[0].server.scaling);
      forall i | 0 <= i < |gs[1..]|
        ensures Fits(gs[1..][i].server, q)
      {
        FitsBetween(gs[i + 1].server, q, v);
      }
      FitsAll(gs[1..], q);
    }
  }

  lemma {:induction false} CoarsestIsLeast(gs: seq<Gateway>)
    requires gs != [] && Linked(gs)
    ensures 0 <= CoarsestScaling(gs)
    ensures forall i :: 0 <= i < |gs| ==> CoarsestScaling(gs) <= gs[i].server.scaling
  {
    if |gs| > 1 {
      CoarsestIsLeast(gs[1..]);
      assert forall i :: 1 <= i < |gs| ==> gs[i] == gs[1..][i - 1];
    }
  }

  /** Any chain of gateways does to a value exactly what its coarsest hop alone would do, however long it is. */
  lemma {:induction false} ChainCollapses(p: Platform, gs: seq<Gateway>, v: real)
    requires gs != [] && Linked(gs) && InRangeAlong(gs, v)
    ensures Through(p, gs, Point(gs[0].client.tag, v))
       == Point(gs[|gs| - 1].server.tag, Rounded(v, CoarsestScaling(gs)))
  {
    var s := gs[0].server.scaling;
    var q := Rounded(v, s);
    HopRounds(p, gs[0], v);
    if |gs| == 1 {
      assert Through(p, gs[1..], Point(gs[0].server.tag, q)) == Point(gs[0].server.tag, q);
    } else {
      ChainCollapses(p, gs[1..], q);
      CoarsestIsLeast(gs[1..]);
      RoundedTwice(v, s, CoarsestScaling(gs[1..]));
    }
  }

  /** So the error of a chain stays below one step of its coarsest hop, and on the side of zero. */
  lemma ChainError(p: Platform, gs: seq<Gateway>, v: real)
    requires gs != [] && Linked(gs) && InRangeAlong(gs, v)
    ensures var out := Through(p, gs, Point(gs[0].client.tag, v)).value;
            Abs(v - out) < Power(-CoarsestScaling(gs)) && Between(out, v)
  {
    hide Fits, Quantised, Through, Power, Relay, Linked, InRangeAlong, WalkableTables;
    var m := CoarsestScaling(gs);
    ChainCollapses(p, gs, v);
    CoarsestIsLeast(gs);
    RoundedBounds(v, m);
  }

  // ---- the other direction ----

  lemma ReadRounds(p: Platform, client: Register, server: Register, v: real)
    requires IntegerRegister(client) && client == server.(tag := client.tag) && Fits(server, v)
    ensures Encode(p, server, v).Ok? && Decode(p, client, Encode(p, server, v).value) == Ok(Rounded(v, server.scaling))
  {
    EncodeInteger(p, client, v);
    EncodeInteger(p, server, v);
    ReadBack(p, client, v);
  }

  lemma PollResponse(p: Platform, table: Table, tags: Tags, addr: nat)
    requires addr < 0x1_0000 && WordTable(table) && addr in table
    ensures Walkable(table)
    ensures var r := table[addr]; var e := Encode(p, r, TagValue(tags, r.tag));
            e.Ok? && |e.value| == 2 * r.count
            && ReadResponse(View(p, table, tags), U16(addr) + U16(r.count)) == Success([2 * r.count] + e.value)
  {
    hide Encode, Walk, Field, U16;
    RequestFields(addr, table[addr].count);
    ReadOne(p, table, tags, addr);
  }

  /** A client that polls a register configured like the server's publishes the server's value, rounded the same way. */
  lemma PollRounds(p: Platform, client: Register, server: Register, table: Table, tags: Tags)
    requires IntegerRegister(client) && client == server.(tag := client.tag) && 0 <= server.addr < 0x1_0000
    requires WordTable(table) && server.addr in table && table[server.addr] == server
    requires Fits(server, TagValue(tags, server.tag))
    ensures Walkable(table)
    ensures var r := ReadResponse(View(p, table, tags), U16(client.addr) + U16(client.count));
            && r.Success? && |r.data| >= 1 && r.data[0] == |r.data| - 1
            && Decode(p, client, r.data[1..]) == Ok(Rounded(TagValue(tags, server.tag), server.scaling))
  {
    var v := TagValue(tags, server.tag);
    PollResponse(p, table, tags, server.addr);
    ReadRounds(p, client, server, v);
    var data := Encode(p, server, v).value;
    assert ([2 * server.count] + data)[1..] == data;
  }
}
