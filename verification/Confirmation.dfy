/**
 * Requests over the bus and their confirmations, as a step machine. A request registers a channel of its own
 * under an id, sends its message, and waits for the channel or a timeout; the subscriber's one dispatch loop
 * hands each confirmation to the channel registered under its id, and blocks until it is taken.
 */
module Confirmation {
  import opened MessageBus

  /** A request: sending its message, waiting for the confirmation, done with it, or gone without it. */
  datatype Phase<T> = Sending | Waiting | Received(payload: T) | Gone

  datatype Waiter<T> = Waiter(id: string, phase: Phase<T>)

  /** The dispatch loop: ready for the next message, or blocked handing a confirmation to a waiter. */
  datatype Loop<T> = Ready | Handing(waiter: nat, id: string, payload: T)

  datatype Delivery<T> = Delivery(waiter: nat, id: string, payload: T)

  /**
   * Waiters, and their channels with them, are numbered as they come; handlers gives the channel registered under an
   * id.
   */
  datatype Bus<T> = Bus(waiters: seq<Waiter<T>>, handlers: map<string, nat>, loop: Loop<T>, delivered: seq<Delivery<T>>)

  datatype Event<T> =
    | Request(id: string)
    | Sent(w: nat, ok: bool)
    | Timeout(w: nat)
    | Confirm(id: string, payload: T)
    | Other
    | HandOver

  function New<T>(): Bus<T> {
    Bus([], map[], Ready, [])
  }

  predicate InPhase<T(==)>(b: Bus<T>, w: nat, phase: Phase<T>) {
    w < |b.waiters| && b.waiters[w].phase == phase
  }

  function Turn<T>(b: Bus<T>, w: nat, phase: Phase<T>): Bus<T>
    requires w < |b.waiters|
  {
    b.(waiters := b.waiters[w := b.waiters[w].(phase := phase)])
  }

  /**
   * One step; None where it is not possible. Other stands for a message of any other kind, which the loop deals with at
   * once.
   */
  ghost function Step<T>(b: Bus<T>, e: Event<T>): Option<Bus<T>> {
    match e
    case Request(id) =>
      Some(b.(waiters := b.waiters + [Waiter(id, Sending)], handlers := b.handlers[id := |b.waiters|]))
    case Sent(w, ok) => if InPhase(b, w, Sending) then Some(Turn(b, w, if ok then Waiting else Gone)) else None
    case Timeout(w) => if InPhase(b, w, Waiting) then Some(Turn(b, w, Gone)) else None
    case Confirm(id, payload) =>
      if !b.loop.Ready? then None
      else Some(if id in b.handlers then b.(loop := Handing(b.handlers[id], id, payload)) else b)
    case Other => if b.loop.Ready? then Some(b) else None
    case HandOver =>
      if b.loop.Handing? && InPhase(b, b.loop.waiter, Waiting) then
        var (w, id, payload) := (b.loop.waiter, b.loop.id, b.loop.payload);
        Some(Turn(b, w, Received(payload)).(handlers := b.handlers - {id}, loop := Ready,
                                            delivered := b.delivered + [Delivery(w, id, payload)]))
      else None
  }

  ghost function After<T>(events: seq<Event<T>>): Option<Bus<T>> {
    if events == [] then Some(New())
    else
      var before := After(events[..|events| - 1]);
      if before.Some? then Step(before.value, events[|events| - 1]) else None
  }

  // ---- delivery ----

  /** A confirmation under this id was received in the run. */
  ghost predicate Confirmed<T>(events: seq<Event<T>>, id: string, payload: T) {
    Confirm(id, payload) in events
  }

  /** The waiter asked under the delivery's id, and has got exactly this. */
  ghost predicate Rightly<T>(b: Bus<T>, d: Delivery<T>) {
    d.waiter < |b.waiters| && b.waiters[d.waiter] == Waiter(d.id, Received(d.payload))
  }

  ghost predicate Once<T>(delivered: seq<Delivery<T>>) {
    forall i, j :: 0 <= i < j < |delivered| ==> delivered[i].waiter != delivered[j].waiter
  }

  /** Handlers, and the loop when it is handing over, refer to a waiter under the same id that has got nothing yet. */
  ghost predicate Registered<T>(b: Bus<T>, id: string, w: nat) {
    w < |b.waiters| && b.waiters[w].id == id && !b.waiters[w].phase.Received?
  }

  ghost predicate Addressed<T>(b: Bus<T>, events: seq<Event<T>>) {
    && (forall id :: id in b.handlers ==> Registered(b, id, b.handlers[id]))
    && (b.loop.Handing? ==> Registered(b, b.loop.id, b.loop.waiter) && Confirmed(events, b.loop.id, b.loop.payload))
    && (forall d :: d in b.delivered ==> Rightly(b, d) && Confirmed(events, d.id, d.payload))
    && Once(b.delivered)
    && (forall w :: 0 <= w < |b.waiters| && b.waiters[w].phase.Received? ==>
          exists d :: d in b.delivered && d.waiter == w)
  }

  /** How often this payload was delivered under this id. */
  ghost function Deliveries<T>(delivered: seq<Delivery<T>>, id: string, payload: T): nat {
    if delivered == [] then 0
    else
      var d := delivered[|delivered| - 1];
      Deliveries(delivered[..|delivered| - 1], id, payload) + if d.id == id && d.payload == payload then 1 else 0
  }

  /** How often it is being handed over just now. */
  ghost function InHand<T>(loop: Loop<T>, id: string, payload: T): nat {
    if loop.Handing? && loop.id == id && loop.payload == payload then 1 else 0
  }

  /**
   * In every run a confirmation reaches only a waiter that asked under its id, and no waiter gets two; whoever has
   * received something has received just what was sent under its id; and each confirmation that came in is
   * delivered, or is being handed over, at most once.
   */
  lemma {:induction false} DeliveredRightly<T>(events: seq<Event<T>>)
    requires After(events).Some?
    ensures Addressed(After(events).value, events)
    ensures forall id, payload ::
              Deliveries(After(events).value.delivered, id, payload) + InHand(After(events).value.loop, id, payload)
              <= multiset(events)[Confirm(id, payload)]
  {
    if events != [] {
      var before, e := events[..|events| - 1], events[|events| - 1];
      DeliveredRightly(before);
      StepAddressed(After(before).value, before, e);
      assert before + [e] == events;
      forall id, payload
        ensures Deliveries(After(events).value.delivered, id, payload) + InHand(After(events).value.loop, id, payload)
             <= multiset(events)[Confirm(id, payload)]
      {
        assert Deliveries(After(before).value.delivered, id, payload) + InHand(After(before).value.loop, id, payload)
            <= multiset(before)[Confirm(id, payload)];
        StepDelivers(After(before).value, e, id, payload);
      }
    } else {
      assert forall id, payload: T :: Deliveries<T>([], id, payload) == 0;
    }
  }

  /** Only a confirmation that comes in adds to what is delivered or in hand. */
  lemma StepDelivers<T>(b: Bus<T>, e: Event<T>, id: string, payload: T)
    requires Step(b, e).Some?
    ensures var b' := Step(b, e).value;
            Deliveries(b'.delivered, id, payload) + InHand(b'.loop, id, payload)
            <= Deliveries(b.delivered, id, payload) + InHand(b.loop, id, payload)
               + if e == Confirm(id, payload) then 1 else 0
  {
    if e.HandOver? {
      var b' := Step(b, e).value;
      assert b'.delivered[..|b.delivered|] == b.delivered;
    }
  }

  lemma StepAddressed<T>(b: Bus<T>, events: seq<Event<T>>, e: Event<T>)
    requires Addressed(b, events) && Step(b, e).Some?
    ensures Addressed(Step(b, e).value, events + [e])
  {
    assert forall x :: x in events ==> x in events + [e];
    if e.HandOver? {
      HandOverAddressed(b, events);
    } else {
      OthersAddressed(b, events, e);
    }
  }

  lemma OthersAddressed<T>(b: Bus<T>, events: seq<Event<T>>, e: Event<T>)
    requires Addressed(b, events) && Step(b, e).Some? && !e.HandOver?
    ensures Addressed(Step(b, e).value, events + [e])
  {
    assert forall x :: x in events ==> x in events + [e];
    var b' := Step(b, e).value;
    forall id | id in b'.handlers
      ensures Registered(b', id, b'.handlers[id])
    {
      if id in b.handlers { assert Registered(b, id, b.handlers[id]); }
    }
    forall d | d in b'.delivered
      ensures Rightly(b', d) && Confirmed(events + [e], d.id, d.payload)
    {
      assert Rightly(b, d);
    }
  }

  lemma HandOverAddressed<T>(b: Bus<T>, events: seq<Event<T>>)
    requires Addressed(b, events) && Step(b, HandOver).Some?
    ensures Addressed(Step(b, HandOver).value, events + [HandOver])
  {
    assert forall x :: x in events ==> x in events + [HandOver];
    var b', w := Step(b, HandOver).value, b.loop.waiter;
    assert forall d :: d in b.delivered ==> Rightly(b, d) && d.waiter != w;
    forall id | id in b'.handlers
      ensures Registered(b', id, b'.handlers[id])
    {
      assert Registered(b, id, b.handlers[id]);
    }
    forall v | 0 <= v < |b'.waiters| && b'.waiters[v].phase.Received?
      ensures exists d :: d in b'.delivered && d.waiter == v
    {
      if v != w {
        var d :| d in b.delivered && d.waiter == v;
        assert d in b'.delivered;
      } else {
        assert b'.delivered[|b.delivered|].waiter == w;
      }
    }
  }

  // ---- progress ----

  /** The loop hands a confirmation to somebody who has left. */
  ghost predicate Stuck<T>(b: Bus<T>) {
    b.loop.Handing? && InPhase(b, b.loop.waiter, Gone)
  }

  /** A confirmation comes in after its waiter has left, or a waiter leaves while the loop is handing to it. */
  ghost predicate Late<T>(b: Bus<T>, e: Event<T>) {
    match e
    case Confirm(id, _) => b.loop.Ready? && id in b.handlers && InPhase(b, b.handlers[id], Gone)
    case Timeout(w) => b.loop.Handing? && b.loop.waiter == w
    case Sent(w, ok) => !ok && b.loop.Handing? && b.loop.waiter == w
    case _ => false
  }

  lemma StepSticks<T>(b: Bus<T>, events: seq<Event<T>>, e: Event<T>)
    requires Addressed(b, events) && Step(b, e).Some?
    ensures Stuck(Step(b, e).value) <==> Stuck(b) || Late(b, e)
  {
    if e.Confirm? && e.id in b.handlers {
      assert Registered(b, e.id, b.handlers[e.id]);
    }
  }

  ghost predicate EverStuck<T>(events: seq<Event<T>>)
    requires After(events).Some?
  {
    Stuck(After(events).value) || (events != [] && EverStuck(events[..|events| - 1]))
  }

  ghost predicate EverLate<T>(events: seq<Event<T>>)
    requires After(events).Some?
  {
    events != []
    && (Late(After(events[..|events| - 1]).value, events[|events| - 1]) || EverLate(events[..|events| - 1]))
  }

  /** The dispatch loop gets stuck in a run exactly if some confirmation in it is late. */
  lemma {:induction false} StuckIffLate<T>(events: seq<Event<T>>)
    requires After(events).Some?
    ensures EverStuck(events) <==> EverLate(events)
  {
    if events != [] {
      var before, e := events[..|events| - 1], events[|events| - 1];
      StuckIffLate(before);
      DeliveredRightly(before);
      StepSticks(After(before).value, before, e);
    }
  }

  ghost function Run<T>(b: Bus<T>, events: seq<Event<T>>): Option<Bus<T>>
    decreases events
  {
    if events == [] then Some(b) else match Step(b, events[0]) case Some(b') => Run(b', events[1..]) case None => None
  }

  /** Once stuck, the loop never takes another message of any kind, whatever else happens. */
  lemma {:induction false} StuckForever<T>(b: Bus<T>, events: seq<Event<T>>)
    requires Stuck(b) && Run(b, events).Some?
    ensures Stuck(Run(b, events).value) && Run(b, events).value.delivered == b.delivered
    ensures Step(Run(b, events).value, Other).None?
    decreases events
  {
    if events != [] {
      StuckForever(Step(b, events[0]).value, events[1..]);
    }
  }

  /** While it is not stuck, at most the waiter's next step stands between the loop and the next message. */
  lemma LoopGoesOn<T>(events: seq<Event<T>>)
    requires After(events).Some? && !Stuck(After(events).value)
    ensures var b := After(events).value;
            || b.loop.Ready?
            || (Step(b, HandOver).Some? && Step(b, HandOver).value.loop.Ready?)
            || (Step(b, Sent(b.loop.waiter, true)).Some?
                && Step(Step(b, Sent(b.loop.waiter, true)).value, HandOver).Some?)
  {
    DeliveredRightly(events);
  }

  // ---- unique ids ----

  ghost predicate FreshIds<T>(events: seq<Event<T>>) {
    forall i, j :: 0 <= i < j < |events| && events[i].Request? && events[j].Request? ==> events[i].id != events[j].id
  }

  /** Every waiter that has not received its confirmation is the one registered under its id. */
  ghost predicate AllRegistered<T>(b: Bus<T>) {
    forall w :: 0 <= w < |b.waiters| && !b.waiters[w].phase.Received? ==>
      b.waiters[w].id in b.handlers && b.handlers[b.waiters[w].id] == w
  }

  lemma {:induction false} IdsOfWaiters<T>(events: seq<Event<T>>, w: nat)
    requires After(events).Some? && w < |After(events).value.waiters|
    ensures Request(After(events).value.waiters[w].id) in events
  {
    var before, e := events[..|events| - 1], events[|events| - 1];
    assert events == before + [e];
    if w < |After(before).value.waiters| {
      IdsOfWaiters(before, w);
    }
  }

  /** With unique ids nobody can be overlooked: each confirmation in time finds its waiter. */
  lemma {:induction false} NobodyOverlooked<T>(events: seq<Event<T>>)
    requires After(events).Some? && FreshIds(events)
    ensures AllRegistered(After(events).value)
  {
    if events != [] {
      var before, e := events[..|events| - 1], events[|events| - 1];
      NobodyOverlooked(before);
      DeliveredRightly(before);
      var b := After(before).value;
      if e.Request? {
        forall w: nat | w < |b.waiters|
          ensures b.waiters[w].id != e.id
        {
          IdsOfWaiters(before, w);
          var i :| 0 <= i < |before| && before[i] == Request(b.waiters[w].id);
          assert events[i] == before[i];
        }
      }
    }
  }

  /** A request under an id for which somebody has not yet received anything. */
  ghost predicate Clash<T>(b: Bus<T>, e: Event<T>) {
    e.Request? && exists w :: 0 <= w < |b.waiters| && b.waiters[w].id == e.id && !b.waiters[w].phase.Received?
  }

  ghost predicate AlwaysRegistered<T>(events: seq<Event<T>>)
    requires After(events).Some?
  {
    AllRegistered(After(events).value) && (events == [] || AlwaysRegistered(events[..|events| - 1]))
  }

  ghost predicate NeverClash<T>(events: seq<Event<T>>)
    requires After(events).Some?
  {
    events == []
    || (!Clash(After(events[..|events| - 1]).value, events[|events| - 1]) && NeverClash(events[..|events| - 1]))
  }

  /**
   * Throughout a run every waiter that has received nothing can be found under its id exactly if no id is used
   * again before the one who asked under it has received its confirmation.
   */
  lemma {:induction false} OverlookedIffClash<T>(events: seq<Event<T>>)
    requires After(events).Some?
    ensures AlwaysRegistered(events) <==> NeverClash(events)
  {
    if events != [] {
      var before, e := events[..|events| - 1], events[|events| - 1];
      OverlookedIffClash(before);
      DeliveredRightly(before);
      if AllRegistered(After(before).value) {
        StepRegisters(After(before).value, before, e);
      }
    }
  }

  lemma StepRegisters<T>(b: Bus<T>, events: seq<Event<T>>, e: Event<T>)
    requires Addressed(b, events) && Step(b, e).Some? && AllRegistered(b)
    ensures AllRegistered(Step(b, e).value) <==> !Clash(b, e)
  {
    var b' := Step(b, e).value;
    if Clash(b, e) {
      var w :| 0 <= w < |b.waiters| && b.waiters[w].id == e.id && !b.waiters[w].phase.Received?;
      assert b'.waiters[w] == b.waiters[w] && b'.handlers[e.id] != w;
    }
  }

  /** With a repeated id the first waiter is overlooked: its confirmation goes to the second. */
  lemma RepeatedIdOverlooks<T>(id: string, payload: T)
    ensures var run := [Request(id), Request(id), Sent(0, true), Sent(1, true), Confirm(id, payload), HandOver];
            var b := Run(New(), run);
            b.Some? && b.value.waiters == [Waiter(id, Waiting), Waiter(id, Received(payload))]
            && b.value.handlers == map[]
  {
    var run: seq<Event<T>> := [Request(id), Request(id), Sent(0, true), Sent(1, true), Confirm(id, payload), HandOver];
    var b1 := Step(New(), run[0]).value;
    var b2 := Step(b1, run[1]).value;
    var b3 := Step(b2, run[2]).value;
    var b4 := Step(b3, run[3]).value;
    var b5 := Step(b4, run[4]).value;
    var b6 := Step(b5, run[5]).value;
    assert Run(b6, []) == Some(b6);
    assert run[5..] == [run[5]] && run[5..][1..] == [];
    assert Run(b5, run[5..]) == Some(b6);
    assert run[4..][1..] == run[5..] && Run(b4, run[4..]) == Some(b6);
    assert run[3..][1..] == run[4..] && Run(b3, run[3..]) == Some(b6);
    assert run[2..][1..] == run[3..] && Run(b2, run[2..]) == Some(b6);
    assert run[1..][1..] == run[2..] && Run(b1, run[1..]) == Some(b6);
  }

  // ---- the way out of a request ----

  /** A waiter sends exactly once, and gives up only while it waits; neither touches the loop or anybody else. */
  lemma WaiterSteps<T>(b: Bus<T>, w: nat, ok: bool)
    ensures Step(b, Sent(w, ok)).Some? <==> w < |b.waiters| && b.waiters[w].phase == Sending
    ensures Step(b, Timeout(w)).Some? <==> w < |b.waiters| && b.waiters[w].phase == Waiting
    ensures Step(b, Sent(w, ok)).Some? ==>
              Step(b, Sent(w, ok)).value
              == b.(waiters := b.waiters[w := Waiter(b.waiters[w].id, if ok then Waiting else Gone)])
    ensures Step(b, Timeout(w)).Some? ==>
              Step(b, Timeout(w)).value == b.(waiters := b.waiters[w := Waiter(b.waiters[w].id, Gone)])
  {
  }

  /** Getting stuck happens: the confirmation arrives, and its waiter times out before it is handed over. */
  lemma StuckArises<T>(id: string, payload: T)
    ensures var run := [Request(id), Sent(0, true), Confirm(id, payload), Timeout(0)];
            After(run).Some? && Stuck(After(run).value)
  {
    var run := [Request(id), Sent(0, true), Confirm(id, payload), Timeout(0)];
    var one, two, three := [run[0]], [run[0], run[1]], [run[0], run[1], run[2]];
    assert one[..0] == [] && two[..1] == one && three[..2] == two && run[..3] == three;
    var b1 := Bus([Waiter(id, Sending)], map[id := 0], Ready, []);
    assert Step(New<T>(), run[0]) == Some(b1) by {
      assert New<T>().waiters + [Waiter(id, Sending)] == [Waiter(id, Sending)];
    }
    assert After<T>([]) == Some(New()) && After(one) == Some(b1);
    assert Step(b1, run[1]) == Some(b1.(waiters := [Waiter(id, Waiting)])) by {
      assert b1.waiters[0 := Waiter(id, Waiting)] == [Waiter(id, Waiting)];
    }
    assert After(two) == Some(b1.(waiters := [Waiter(id, Waiting)]));
    assert After(three) == Some(b1.(waiters := [Waiter(id, Waiting)], loop := Handing(0, id, payload)));
  }
}
