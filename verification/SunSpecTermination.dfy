/**
 * Whether the SunSpec client's discovery loop ends. It counts its address upwards without limit, but asks for it
 * in 16 bits, so that it ends within 65536 models or goes around in a circle forever.
 */
module SunSpecTermination {
  import opened Bytes
  import opened Decimal
  import opened GoRuntime
  import opened MessageBus
  import opened SunSpecRegister
  import opened SunSpecDevice
  import opened SunSpecClient

  const SPACE := 0x1_0000

  // ---- one hop ----

  /** The length of the model at an address, if the loop gets through it. */
  function Hop(p: Platform, schemas: Schemas, remote: Remote, a: nat): (length: Option<nat>)
    requires p.ExactPowers()
  {
    var next := NextModel(p, remote, a);
    if !next.Ok? then None
    else
      NextModelBounds(p, remote, a);
      var (id, length) := next.value;
      if id == END_ID || !ModelPoints(schemas, remote, id, a + 2, length).Ok? then None else Some(length)
  }

  /** The loop gets through n models from an address on. */
  function Hops(p: Platform, schemas: Schemas, remote: Remote, a: nat, n: nat): bool
    requires p.ExactPowers()
    decreases n
  {
    n == 0
    || (Hop(p, schemas, remote, a).Some? && Hops(p, schemas, remote, a + 2 + Hop(p, schemas, remote, a).value, n - 1))
  }

  /** The address after n models. */
  function Address(p: Platform, schemas: Schemas, remote: Remote, a: nat, n: nat): nat
    requires p.ExactPowers() && Hops(p, schemas, remote, a, n)
    decreases n
  {
    if n == 0 then a else Address(p, schemas, remote, a + 2 + Hop(p, schemas, remote, a).value, n - 1)
  }

  /** Where the points of a model would be written does not matter for whether it can be read. */
  lemma {:induction false} SlicesAnywhere(schema: Schema, m: int, a: int, b: int, d: seq<byte>, i: nat, pos: int)
    ensures Slices(schema, m, a, d, i, pos).Ok? <==> Slices(schema, m, b, d, i, pos).Ok?
    decreases |schema| - i
  {
    if i < |schema| {
      if i < 2 {
        SlicesAnywhere(schema, m, a, b, d, i + 1, pos);
      } else {
        SlicesAnywhere(schema, m, a, b, d, i + 1, pos + schema[i].size * 2);
      }
    }
  }

  /** The device sees only the lower 16 bits of an address. */
  lemma HopWraps(p: Platform, schemas: Schemas, remote: Remote, a: nat, b: nat)
    requires p.ExactPowers() && a % SPACE == b % SPACE
    ensures Hop(p, schemas, remote, a) == Hop(p, schemas, remote, b)
  {
    var next := NextModel(p, remote, a);
    assert next == NextModel(p, remote, b);
    if next.Ok? {
      NextModelBounds(p, remote, a);
      var (id, length) := next.value;
      assert (a + 2) % SPACE == (b + 2) % SPACE;
      var r := remote((a + 2) % SPACE, length % SPACE);
      if r.Ok? && id in schemas {
        SlicesAnywhere(schemas[id], id, a + 2, b + 2, r.value, 0, 0);
      }
    }
  }

  lemma {:induction false} HopsWrap(p: Platform, schemas: Schemas, remote: Remote, a: nat, b: nat, n: nat)
    requires p.ExactPowers() && a % SPACE == b % SPACE
    ensures Hops(p, schemas, remote, a, n) <==> Hops(p, schemas, remote, b, n)
    decreases n
  {
    hide Hop;
    if n > 0 {
      HopWraps(p, schemas, remote, a, b);
      if Hop(p, schemas, remote, a).Some? {
        var l := Hop(p, schemas, remote, a).value;
        assert (a + 2 + l) % SPACE == (b + 2 + l) % SPACE;
        HopsWrap(p, schemas, remote, a + 2 + l, b + 2 + l, n - 1);
      }
    }
  }

  // ---- many hops ----

  /** The first m of n hops, and the rest of them. */
  lemma {:induction false} HopsSplit(p: Platform, schemas: Schemas, remote: Remote, a: nat, m: nat, n: nat)
    requires p.ExactPowers()
    ensures Hops(p, schemas, remote, a, m + n)
       <==> Hops(p, schemas, remote, a, m) && Hops(p, schemas, remote, Address(p, schemas, remote, a, m), n)
    ensures Hops(p, schemas, remote, a, m + n) ==>
              Address(p, schemas, remote, a, m + n) == Address(p, schemas, remote, Address(p, schemas, remote, a, m), n)
    decreases m
  {
    hide Hop;
    if m > 0 && Hop(p, schemas, remote, a).Some? {
      HopsSplit(p, schemas, remote, a + 2 + Hop(p, schemas, remote, a).value, m - 1, n);
    }
  }

  /** Some hops lead back to an address that the device takes for the same. */
  ghost predicate Circle(p: Platform, schemas: Schemas, remote: Remote, a: nat, n: nat)
    requires p.ExactPowers()
  {
    n > 0 && Hops(p, schemas, remote, a, n) && Address(p, schemas, remote, a, n) % SPACE == a % SPACE
  }

  /** A circle can be gone around any number of times. */
  lemma {:induction false} CircleGoesOn(p: Platform, schemas: Schemas, remote: Remote, a: nat, c: nat, n: nat)
    requires p.ExactPowers() && Circle(p, schemas, remote, a, c)
    ensures Hops(p, schemas, remote, a, n)
    decreases n
  {
    hide Hops, Address;
    if n <= c {
      HopsSplit(p, schemas, remote, a, n, c - n);
    } else {
      CircleGoesOn(p, schemas, remote, a, c, n - c);
      HopsWrap(p, schemas, remote, a, Address(p, schemas, remote, a, c), n - c);
      HopsSplit(p, schemas, remote, a, c, n - c);
    }
  }

  // ---- more addresses than there are ----

  /** Among more than m numbers below m, two are equal. */
  lemma {:induction false} Pigeonhole(xs: seq<nat>, m: nat) returns (j: nat, k: nat)
    requires |xs| > m > 0 && forall i :: 0 <= i < |xs| ==> xs[i] < m
    ensures j < k < |xs| && xs[j] == xs[k]
    decreases m
  {
    if m == 1 {
      assert xs[0] < 1 && xs[1] < 1;
      j, k := 0, 1;
    } else if i: nat :| i < |xs| && xs[i] == m - 1 {
      if n: nat :| n < |xs| && n != i && xs[n] == m - 1 {
        j, k := if n < i then n else i, if n < i then i else n;
      } else {
        var rest := xs[..i] + xs[i + 1..];
        j, k := Pigeonhole(rest, m - 1);
        j, k := if j < i then j else j + 1, if k < i then k else k + 1;
      }
    } else {
      j, k := Pigeonhole(xs, m - 1);
    }
  }

  /** The loop returns to an address of the device, seen from a start address. */
  ghost predicate Returns(p: Platform, schemas: Schemas, remote: Remote, a: nat)
    requires p.ExactPowers()
  {
    exists j: nat, c: nat ::
      Hops(p, schemas, remote, a, j) && Circle(p, schemas, remote, Address(p, schemas, remote, a, j), c)
  }

  /** 65536 hops force a return. */
  lemma ManyHopsReturn(p: Platform, schemas: Schemas, remote: Remote, a: nat)
    requires p.ExactPowers() && Hops(p, schemas, remote, a, SPACE)
    ensures Returns(p, schemas, remote, a)
  {
    hide Hops, Address;
    forall n: nat | n <= SPACE
      ensures Hops(p, schemas, remote, a, n)
    {
      HopsSplit(p, schemas, remote, a, n, SPACE - n);
    }
    var seen := seq(SPACE + 1, n requires 0 <= n <= SPACE => Address(p, schemas, remote, a, n) % SPACE);
    var j, k := Pigeonhole(seen, SPACE);
    HopsSplit(p, schemas, remote, a, j, k - j);
    assert Circle(p, schemas, remote, Address(p, schemas, remote, a, j), k - j);
  }

  /** A return makes hops without end. */
  lemma ReturnGoesOn(p: Platform, schemas: Schemas, remote: Remote, a: nat, n: nat)
    requires p.ExactPowers() && Returns(p, schemas, remote, a)
    ensures Hops(p, schemas, remote, a, n)
  {
    hide Hops, Address, Circle;
    var j: nat, c: nat :| Hops(p, schemas, remote, a, j)
        && Circle(p, schemas, remote, Address(p, schemas, remote, a, j), c);
    CircleGoesOn(p, schemas, remote, Address(p, schemas, remote, a, j), c, n);
    HopsSplit(p, schemas, remote, a, j, n);
    HopsSplit(p, schemas, remote, a, n, j);
  }

  // ---- the loop ----

  /** Some rounds of the loop are not its end exactly if it gets through that many models. */
  lemma {:induction false} UnfinishedIsHops(p: Platform, schemas: Schemas, remote: Remote, a: nat, s: Survey,
                                            rounds: nat)
    requires p.ExactPowers()
    ensures Explored(p, schemas, remote, a, true, s, rounds).end.Unfinished? <==> Hops(p, schemas, remote, a, rounds)
    decreases rounds
  {
    hide Explored, NextModel, ModelPoints;
    if rounds == 0 {
      NotYet(p, schemas, remote, a, true, s);
    } else {
      ExploredFails(p, schemas, remote, a, true, s, rounds);
      var next := NextModel(p, remote, a);
      if next.Ok? {
        var (id, length) := next.value;
        NextModelBounds(p, remote, a);
        ExploredEnds(p, schemas, remote, a, true, s, rounds, id, length);
        var data := ModelPoints(schemas, remote, id, a + 2, length);
        if id != END_ID && data.Ok? {
          var s' := s.(order := s.order + [id], settings := s.settings[id := Setting(a + 2, length)],
                      points := s.points + data.value);
          ExploredOn(p, schemas, remote, a, true, s, rounds, id, length, data.value);
          UnfinishedIsHops(p, schemas, remote, a + 2 + length, s', rounds - 1);
        }
      }
    }
  }

  /** The device has the identifier, and a model 1 in front. */
  predicate Opens(p: Platform, remote: Remote)
    requires p.ExactPowers()
  {
    ConfirmIdentifier(p, remote) == Ok(true) && NextModel(p, remote, FIRST_MODEL).Ok?
    && NextModel(p, remote, FIRST_MODEL).value.0 == 1
  }

  /**
   * Some rounds, at least one, are not the end of discovery exactly if the device opens with model 1 and has that many
   * models to get through.
   */
  lemma StillGoing(p: Platform, schemas: Schemas, remote: Remote, s: Survey, rounds: nat)
    requires p.ExactPowers() && rounds > 0
    ensures Discovered(p, schemas, remote, s, rounds).end.Unfinished?
       <==> Opens(p, remote) && Hops(p, schemas, remote, FIRST_MODEL, rounds)
  {
    hide Hops, NextModel, ModelPoints, ConfirmIdentifier;
    var good := ConfirmIdentifier(p, remote);
    if good == Ok(true) {
      FirstModel(p, schemas, remote, s, rounds);
      UnfinishedIsHops(p, schemas, remote, FIRST_MODEL, s, rounds);
    }
  }

  /** Past its check of the first model the loop does not care which it was. */
  lemma FirstModel(p: Platform, schemas: Schemas, remote: Remote, s: Survey, rounds: nat)
    requires p.ExactPowers() && rounds > 0
    ensures var next := NextModel(p, remote, FIRST_MODEL);
            var r := Explored(p, schemas, remote, FIRST_MODEL, false, s, rounds);
            if next.Ok? && next.value.0 == 1 then r == Explored(p, schemas, remote, FIRST_MODEL, true, s, rounds)
            else !r.end.Unfinished?
  {
    hide NextModel, ModelPoints;
  }

  // ---- the main result ----

  /** However many rounds it is given, discovery has not ended. */
  ghost predicate NeverEnds(p: Platform, schemas: Schemas, remote: Remote, s: Survey)
    requires p.ExactPowers()
  {
    forall rounds: nat :: Discovered(p, schemas, remote, s, rounds).end.Unfinished?
  }

  /**
   * Discovery never ends exactly if the device has the identifier and a model 1 in front, and the walk comes back
   * to an address modulo 65536; so it ends within 65536 rounds or never.
   */
  lemma EndlessIffReturns(p: Platform, schemas: Schemas, remote: Remote, s: Survey)
    requires p.ExactPowers()
    ensures NeverEnds(p, schemas, remote, s) <==> Opens(p, remote) && Returns(p, schemas, remote, FIRST_MODEL)
    ensures Discovered(p, schemas, remote, s, SPACE).end.Unfinished? ==> NeverEnds(p, schemas, remote, s)
  {
    hide Discovered, Hops, Returns;
    StillGoing(p, schemas, remote, s, SPACE);
    if Opens(p, remote) && Hops(p, schemas, remote, FIRST_MODEL, SPACE) {
      ManyHopsReturn(p, schemas, remote, FIRST_MODEL);
    }
    if Opens(p, remote) && Returns(p, schemas, remote, FIRST_MODEL) {
      forall rounds: nat
        ensures Discovered(p, schemas, remote, s, rounds).end.Unfinished?
      {
        ReturnGoesOn(p, schemas, remote, FIRST_MODEL, rounds);
        if rounds > 0 {
          StillGoing(p, schemas, remote, s, rounds);
        } else {
          NoRounds(p, schemas, remote, s);
        }
      }
    }
  }

  lemma NoRounds(p: Platform, schemas: Schemas, remote: Remote, s: Survey)
    requires p.ExactPowers() && Opens(p, remote)
    ensures Discovered(p, schemas, remote, s, 0).end.Unfinished?
  {
  }

  // ---- devices on which it ends ----

  lemma NextModelAnswered(p: Platform, remote: Remote, a: nat)
    requires Bounded(remote) && NextModel(p, remote, a).Ok?
    ensures a % 0x1_0000 >= BASE
  {
  }

  lemma ModelDataBounds(schemas: Schemas, remote: Remote, m: int, a: nat, l: nat)
    requires Bounded(remote) && l <= 0xFFFF && ModelPoints(schemas, remote, m, a, l).Ok?
    ensures l <= MAX_READ
  {
  }

  /**
   * Against a device that answers nothing below the register map, the loop ends before its address leaves the 16-bit
   * range.
   */
  lemma {:induction false} ExplorationEnds(p: Platform, schemas: Schemas, remote: Remote, addr: nat, model1: bool,
                                           s: Survey, rounds: nat)
    requires p.ExactPowers() && Bounded(remote) && FIRST_MODEL <= addr < 66000 && 2 * rounds >= 66000 - addr
    ensures !Explored(p, schemas, remote, addr, model1, s, rounds).end.Unfinished?
    decreases rounds
  {
    hide Explored, NextModel, ModelPoints, Bounded;
    ExploredFails(p, schemas, remote, addr, model1, s, rounds);
    var next := NextModel(p, remote, addr);
    if next.Ok? {
      var (id, length) := next.value;
      NextModelBounds(p, remote, addr);
      NextModelAnswered(p, remote, addr);
      ExploredEnds(p, schemas, remote, addr, model1, s, rounds, id, length);
      var data := ModelPoints(schemas, remote, id, addr + 2, length);
      if (model1 || id == 1) && id != END_ID && data.Ok? {
        ModelDataBounds(schemas, remote, id, addr + 2, length);
        ExploredOn(p, schemas, remote, addr, model1, s, rounds, id, length, data.value);
        ExplorationEnds(p, schemas, remote, addr + 2 + length, true,
                        s.(order := s.order + [id], settings := s.settings[id := Setting(addr + 2, length)],
                           points := s.points + data.value), rounds - 1);
      }
    }
  }

  /** So discovery of such a device ends within 13000 rounds. */
  lemma DiscoveryEnds(p: Platform, schemas: Schemas, remote: Remote, s: Survey, rounds: nat)
    requires p.ExactPowers() && Bounded(remote) && rounds >= 13000
    ensures !Discovered(p, schemas, remote, s, rounds).end.Unfinished?
  {
    var good := ConfirmIdentifier(p, remote);
    if good.Ok? && good.value {
      ExplorationEnds(p, schemas, remote, FIRST_MODEL, false, s, rounds);
    }
  }

  // ---- a device on which it does not ----

  /** A device with the identifier, and with the header of a two-word model 1 wherever else it is asked. */
  const ENDLESS: Remote :=
    (a: nat, q: nat) => if a == BASE then Ok(BigEndian(SUNSPEC_IDENTIFIER, 4)) else Ok([0, 1, 0, 2])

  const TWO_WORDS: Schemas := map[1 := [
    SchemaPoint("ID", ValueType(UInt16), 1, NoScale, false), SchemaPoint("L", ValueType(UInt16), 1, NoScale, false),
    SchemaPoint("X", ValueType(UInt32), 2, NoScale, false)]]

  lemma EndlessModel(p: Platform, a: nat)
    requires p.ExactPowers() && a % 4 == 2
    ensures NextModel(p, ENDLESS, a) == Ok((1, 2)) && ModelPoints(TWO_WORDS, ENDLESS, 1, a + 2, 2).Ok?
  {
    var d: seq<byte> := [0, 1, 0, 2];
    assert a % 0x1_0000 != BASE && ENDLESS(a % 0x1_0000, 2) == Ok(d);
    assert d[0..2] == [0, 1] && d[2..4] == [0, 2];
    WordValue(p, d[0..2]);
    WordValue(p, d[2..4]);
    assert FromBigEndian([0, 1]) == 1 && FromBigEndian([0, 2]) == 2 by {
      assert [0, 1][..1] == [0] && [0, 2][..1] == [0] && [0][..0] == [];
    }
    TruncWhole(1);
    TruncWhole(2);
    EndlessSlices(a + 2, ENDLESS((a + 2) % 0x1_0000, 2).value);
  }

  lemma EndlessSlices(a: int, d: seq<byte>)
    requires |d| == 4
    ensures Slices(TWO_WORDS[1], 1, a, d, 0, 0).Ok?
  {
    var schema := TWO_WORDS[1];
    assert Slices(schema, 1, a, d, 3, 4) == Ok([]);
    assert Slices(schema, 1, a, d, 2, 0).Ok?;
    assert Slices(schema, 1, a, d, 1, 0).Ok?;
  }

  /** Such a device keeps the loop going forever: four words on from each model it shows the next. */
  lemma EndlessDevice(p: Platform, s: Survey)
    requires p.ExactPowers()
    ensures Opens(p, ENDLESS) && Returns(p, TWO_WORDS, ENDLESS, FIRST_MODEL) && NeverEnds(p, TWO_WORDS, ENDLESS, s)
  {
    WordRoundTrip(SUNSPEC_IDENTIFIER, 4);
    assert Words(4) == 0x1_0000_0000;
    DecodeInteger(p, IDENTIFIER, BigEndian(SUNSPEC_IDENTIFIER, 4), 0.0);
    TimesOne(SUNSPEC_IDENTIFIER as real);
    EndlessModel(p, FIRST_MODEL);
    EndlessHops(p, FIRST_MODEL, SPACE);
    ManyHopsReturn(p, TWO_WORDS, ENDLESS, FIRST_MODEL);
    EndlessIffReturns(p, TWO_WORDS, ENDLESS, s);
  }

  lemma {:induction false} EndlessHops(p: Platform, a: nat, n: nat)
    requires p.ExactPowers() && a % 4 == 2
    ensures Hops(p, TWO_WORDS, ENDLESS, a, n)
    decreases n
  {
    hide NextModel, ModelPoints;
    if n > 0 {
      EndlessModel(p, a);
      EndlessHops(p, a + 4, n - 1);
    }
  }
}
