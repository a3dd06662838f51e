/**
 * The CPU module's supervision of one module's process, as a step machine. The control handler and every
 * supervisor are separate goroutines that share the module's canceler, a channel or nil; their steps interleave
 * in any order. One step is what lies between two points where a goroutine can be overtaken.
 */
module Supervisor {
  import opened MessageBus

  /**
   * Where a supervisor is in its loop: about to start a child; child started, canceler not yet made; waiting on both;
   * waiting for the end.
   */
  datatype Phase = Starting | Started(child: nat) | Running(child: nat, ch: nat) | Draining(child: nat)

  /**
   * The shared state. Supervisors, children and channels are numbered as they come; unreaped maps a child to its
   * supervisor.
   */
  datatype Module = Module(
    supervisors: map<nat, Phase>, canceler: Option<nat>, closed: set<nat>, unreaped: map<nat, nat>,
    waiter: int, next: nat, stopping: bool, crashed: bool)

  const NEW := Module(map[], None, {}, map[], 0, 0, false, false)

  datatype Event =
    | Enable(found: bool)
    | Disable
    | Stop
    | Start(i: nat, ok: bool)
    | Install(i: nat)
    | Died(i: nat, noRestart: bool)
    | Cancelled(i: nat)
    | Stopped(i: nat)
    | Drained(i: nat, reaped: bool)

  datatype Reply = Enabled | AlreadyEnabled | NoExecutable | Disabled | AlreadyDisabled

  /** What the control handler answers to a request. */
  function Answer(m: Module, e: Event): Option<Reply> {
    match e
    case Enable(found) => Some(if m.canceler.Some? then AlreadyEnabled else if found then Enabled else NoExecutable)
    case Disable => Some(if m.canceler.Some? then Disabled else AlreadyDisabled)
    case _ => None
  }

  function Leave(m: Module, i: nat): Module {
    m.(supervisors := m.supervisors - {i}, waiter := m.waiter - 1)
  }

  function Turn(m: Module, i: nat, phase: Phase): Module {
    m.(supervisors := m.supervisors[i := phase])
  }

  /** One step; None where the step is not possible. Closing a closed channel ends the whole process. */
  function Step(m: Module, e: Event): Option<Module> {
    if m.crashed then None
    else match e
      case Enable(found) =>
        if m.canceler.Some? || !found then Some(m)
        else Some(Turn(m, m.next, Starting).(waiter := m.waiter + 1, next := m.next + 1))
      case Disable =>
        if m.canceler.None? then Some(m)
        else if m.canceler.value in m.closed then Some(m.(crashed := true))
        else Some(m.(closed := m.closed + {m.canceler.value}))
      case Stop => Some(m.(stopping := true))
      case _ =>
        if e.i !in m.supervisors then None
        else match (e, m.supervisors[e.i])
          case (Start(i, ok), Starting) =>
            Some(if ok then Turn(m, i, Started(m.next)).(unreaped := m.unreaped[m.next := i], next := m.next + 1)
                 else Leave(m, i))
          case (Install(i), Started(child)) =>
            Some(Turn(m, i, Running(child, m.next)).(canceler := Some(m.next), next := m.next + 1))
          case (Died(i, noRestart), Running(child, _)) =>
            var m' := m.(unreaped := m.unreaped - {child});
            Some(if noRestart then Leave(m', i) else Turn(m', i, Starting))
          case (Cancelled(i), Running(child, ch)) =>
            if ch in m.closed then Some(Turn(m, i, Draining(child)).(canceler := None)) else None
          case (Stopped(i), Running(child, _)) =>
            if m.stopping then Some(Turn(m, i, Draining(child))) else None
          case (Drained(i, reaped), Draining(child)) =>
            Some(Leave(if reaped then m.(unreaped := m.unreaped - {child}) else m, i))
          case _ => None
  }

  /** The state after a run; None if some step of it is not possible. */
  function After(events: seq<Event>): Option<Module> {
    if events == [] then Some(NEW)
    else
      var before := After(events[..|events| - 1]);
      if before.Some? then Step(before.value, events[|events| - 1]) else None
  }

  // ---- what every run keeps ----

  function ChildOf(phase: Phase): Option<nat> {
    if phase.Starting? then None else Some(phase.child)
  }

  /** A child that is not reaped belongs to its supervisor as the current one, or the supervisor is gone. */
  predicate Owned(m: Module, c: nat)
    requires c in m.unreaped
  {
    c < m.next && m.unreaped[c] < m.next
    && (m.unreaped[c] in m.supervisors ==> ChildOf(m.supervisors[m.unreaped[c]]) == Some(c))
  }

  predicate Placed(m: Module, i: nat)
    requires i in m.supervisors
  {
    var phase := m.supervisors[i];
    && i < m.next
    && (ChildOf(phase).Some? ==> ChildOf(phase).value in m.unreaped && m.unreaped[ChildOf(phase).value] == i)
  }

  /**
   * The count that the process waits for at exit is the number of supervisors; children and channels are nobody else's.
   */
  predicate Accounted(m: Module) {
    && m.waiter == |m.supervisors|
    && (forall i :: i in m.supervisors ==> Placed(m, i))
    && (forall c :: c in m.unreaped ==> Owned(m, c))
  }

  lemma LeaveCounts(m: Module, i: nat)
    requires i in m.supervisors
    ensures |Leave(m, i).supervisors| == |m.supervisors| - 1
  {
    assert (m.supervisors - {i}).Keys == m.supervisors.Keys - {i};
  }

  lemma TurnCounts(m: Module, i: nat, phase: Phase)
    ensures |Turn(m, i, phase).supervisors| == |m.supervisors| + if i in m.supervisors then 0 else 1
  {
    assert Turn(m, i, phase).supervisors.Keys == m.supervisors.Keys + {i};
  }

  /** A supervisor keeps its child, gets a fresh one, or has reaped it when it starts over or leaves. */
  lemma TurnAccounts(m: Module, m': Module, i: nat)
    requires Accounted(m) && i in m.supervisors && i in m'.supervisors && m'.next >= m.next
    requires m'.supervisors == m.supervisors[i := m'.supervisors[i]] && m'.waiter == m.waiter
    requires var was, now := ChildOf(m.supervisors[i]), ChildOf(m'.supervisors[i]);
             || (now == was && m'.unreaped == m.unreaped)
             || (was.None? && now == Some(m.next) && m'.unreaped == m.unreaped[m.next := i] && m'.next == m.next + 1)
             || (was.Some? && now.None? && m'.unreaped == m.unreaped - {was.value})
    ensures Accounted(m')
  {
    TurnCounts(m, i, m'.supervisors[i]);
    assert Placed(m, i);
    forall j | j in m'.supervisors
      ensures Placed(m', j)
    {
      assert Placed(m, j);
    }
    forall c | c in m'.unreaped
      ensures Owned(m', c)
    {
      if c in m.unreaped { assert Owned(m, c); }
    }
  }

  lemma LeaveAccounts(m: Module, i: nat, unreaped: map<nat, nat>)
    requires Accounted(m) && i in m.supervisors
    requires unreaped == m.unreaped
             || (ChildOf(m.supervisors[i]).Some? && unreaped == m.unreaped - {ChildOf(m.supervisors[i]).value})
    ensures Accounted(Leave(m.(unreaped := unreaped), i))
  {
    var m' := Leave(m.(unreaped := unreaped), i);
    LeaveCounts(m, i);
    assert Placed(m, i);
    forall j | j in m'.supervisors
      ensures Placed(m', j)
    {
      assert Placed(m, j);
    }
    forall c | c in m'.unreaped
      ensures Owned(m', c)
    {
      assert Owned(m, c);
    }
  }

  lemma EnableAccounts(m: Module, e: Event)
    requires Accounted(m) && e.Enable? && Step(m, e).Some?
    ensures Accounted(Step(m, e).value)
  {
    var m' := Step(m, e).value;
    TurnCounts(m, m.next, Starting);
    assert m.next !in m.supervisors by {
      forall i | i in m.supervisors ensures i < m.next { assert Placed(m, i); }
    }
    forall j | j in m'.supervisors
      ensures Placed(m', j)
    {
      if j in m.supervisors { assert Placed(m, j); }
    }
    forall c | c in m'.unreaped
      ensures Owned(m', c)
    {
      assert Owned(m, c);
    }
  }

  /** What a supervisor's step leaves: its new phase and its child, or its absence. */
  lemma SupervisorStep(m: Module, e: Event)
    requires Step(m, e).Some? && !e.Enable? && !e.Disable? && !e.Stop?
    ensures e.i in m.supervisors
    ensures var m' := Step(m, e).value; var was := ChildOf(m.supervisors[e.i]);
            if e.i in m'.supervisors then
              var now := ChildOf(m'.supervisors[e.i]);
              && m'.supervisors == m.supervisors[e.i := m'.supervisors[e.i]] && m'.waiter == m.waiter
              && m'.next >= m.next
              && (|| (now == was && m'.unreaped == m.unreaped)
                  || (was.None? && now == Some(m.next) && m'.unreaped == m.unreaped[m.next := e.i]
                      && m'.next == m.next + 1)
                  || (was.Some? && now.None? && m'.unreaped == m.unreaped - {was.value}))
            else
              && m'.supervisors == m.supervisors - {e.i} && m'.waiter == m.waiter - 1 && m'.next == m.next
              && (m'.unreaped == m.unreaped || (was.Some? && m'.unreaped == m.unreaped - {was.value}))
  {
  }

  lemma StepAccounts(m: Module, e: Event)
    requires Accounted(m) && Step(m, e).Some?
    ensures Accounted(Step(m, e).value)
  {
    var m' := Step(m, e).value;
    if e.Enable? {
      EnableAccounts(m, e);
    } else if e.Disable? || e.Stop? {
      SameSupervisors(m, m');
    } else {
      OwnStepAccounts(m, m', e.i, e);
    }
  }

  lemma OwnStepAccounts(m: Module, m': Module, i: nat, e: Event)
    requires Accounted(m) && Step(m, e) == Some(m') && !e.Enable? && !e.Disable? && !e.Stop? && i == e.i
    ensures Accounted(m')
  {
    hide Step, Accounted;
    SupervisorStep(m, e);
    if i in m'.supervisors {
      TurnAccounts(m, m', i);
    } else {
      LeaveAccounts(m, i, m'.unreaped);
      SameSupervisors(Leave(m.(unreaped := m'.unreaped), i), m');
    }
  }

  lemma SameSupervisors(m: Module, m': Module)
    requires Accounted(m) && m'.supervisors == m.supervisors && m'.unreaped == m.unreaped && m'.waiter == m.waiter
    requires m'.next == m.next
    ensures Accounted(m')
  {
    forall j | j in m'.supervisors ensures Placed(m', j) { assert Placed(m, j); }
    forall c | c in m'.unreaped ensures Owned(m', c) { assert Owned(m, c); }
  }

  /**
   * In every reachable state: as many supervisors as the process will wait for; every supervisor about to
   * start a child has none left to reap, and any other has exactly its current one.
   */
  lemma {:induction false} EveryRunAccounts(events: seq<Event>)
    requires After(events).Some?
    ensures Accounted(After(events).value)
    ensures var m := After(events).value;
            forall c :: c in m.unreaped && m.unreaped[c] in m.supervisors ==>
              ChildOf(m.supervisors[m.unreaped[c]]) == Some(c)
  {
    if events != [] {
      EveryRunAccounts(events[..|events| - 1]);
      StepAccounts(After(events[..|events| - 1]).value, events[|events| - 1]);
    }
    assert forall c :: c in After(events).value.unreaped ==> Owned(After(events).value, c);
  }

  // ---- one supervisor at a time ----

  predicate Undrained(m: Module, i: nat) {
    i in m.supervisors && !m.supervisors[i].Draining?
  }

  ghost predicate AtMostOne(m: Module) {
    forall i, j :: Undrained(m, i) && Undrained(m, j) ==> i == j
  }

  /** A request to start the module that comes while a supervisor has not yet made its canceler. */
  ghost predicate Premature(m: Module, e: Event) {
    e == Enable(true) && m.canceler.None? && exists i :: Undrained(m, i)
  }

  lemma PrematureDoubles(m: Module, e: Event)
    requires Accounted(m) && Step(m, e).Some? && Premature(m, e)
    ensures !AtMostOne(Step(m, e).value)
  {
    var i :| Undrained(m, i);
    assert Placed(m, i);
    var m' := Step(m, e).value;
    assert Undrained(m', i) && Undrained(m', m.next);
  }

  lemma OthersKeepOne(m: Module, e: Event)
    requires Step(m, e).Some? && AtMostOne(m) && !Premature(m, e)
    ensures AtMostOne(Step(m, e).value)
  {
    var m' := Step(m, e).value;
    forall i, j | Undrained(m', i) && Undrained(m', j)
      ensures i == j
    {
      if e == Enable(true) && m.canceler.None? {
        assert !Undrained(m, i) && !Undrained(m, j);
      } else {
        assert Undrained(m, i) && Undrained(m, j);
      }
    }
  }

  /** Each prefix of the run ends with at most one supervisor that is not draining. */
  ghost predicate AlwaysOne(events: seq<Event>)
    requires After(events).Some?
  {
    AtMostOne(After(events).value) && (events == [] || AlwaysOne(events[..|events| - 1]))
  }

  ghost predicate NeverPremature(events: seq<Event>)
    requires After(events).Some?
  {
    events == []
    || (!Premature(After(events[..|events| - 1]).value, events[|events| - 1]) && NeverPremature(events[..|events| - 1]))
  }

  /**
   * Safety over whole runs. There is at most one supervisor outside its drain phase at any time exactly when
   * no request to start the module comes between an accepted one and the supervisor's making its canceler.
   */
  lemma {:induction false} OneSupervisor(events: seq<Event>)
    requires After(events).Some?
    ensures AlwaysOne(events) <==> NeverPremature(events)
  {
    if events != [] {
      var before := events[..|events| - 1];
      OneSupervisor(before);
      EveryRunAccounts(before);
      var m, e := After(before).value, events[|events| - 1];
      if Premature(m, e) {
        PrematureDoubles(m, e);
      } else if AtMostOne(m) {
        OthersKeepOne(m, e);
      }
    }
  }

  // ---- modules that never come back ----

  /** Nobody is left to serve the canceler that says the module is enabled. */
  ghost predicate Dead(m: Module) {
    m.canceler.Some? && forall i :: !Undrained(m, i)
  }

  function Run(m: Module, events: seq<Event>): Option<Module>
    decreases events
  {
    if events == [] then Some(m) else match Step(m, events[0]) case Some(m') => Run(m', events[1..]) case None => None
  }

  predicate Starts(events: seq<Event>) {
    exists k :: 0 <= k < |events| && events[k].Start?
  }

  lemma DeadStays(m: Module, e: Event)
    requires Dead(m) && Step(m, e).Some?
    ensures Dead(Step(m, e).value) && !e.Start?
  {
    var m' := Step(m, e).value;
    if i :| Undrained(m', i) {
      assert !Undrained(m, i);
    }
    if e.Start? || e.Install? || e.Cancelled? {
      AtWork(m, e);
    }
  }

  lemma AtWork(m: Module, e: Event)
    requires Step(m, e).Some? && (e.Start? || e.Install? || e.Cancelled?)
    ensures Undrained(m, e.i)
  {
  }

  /**
   * A dead module stays dead: whatever is requested later, no child is started again, and every request to start it is
   * refused.
   */
  lemma {:induction false} DeadForever(m: Module, events: seq<Event>)
    requires Dead(m) && Run(m, events).Some?
    ensures Dead(Run(m, events).value) && !Starts(events)
    ensures Answer(Run(m, events).value, Enable(true)) == Some(AlreadyEnabled)
    decreases events
  {
    if events != [] {
      DeadStays(m, events[0]);
      DeadForever(Step(m, events[0]).value, events[1..]);
      forall k | 0 <= k < |events|
        ensures !events[k].Start?
      {
        if k > 0 { assert events[k] == events[1..][k - 1]; }
      }
    }
  }

  /** Where at most one supervisor is not draining, a running one has made the canceler in force. */
  ghost predicate InForce(m: Module) {
    forall i :: i in m.supervisors && m.supervisors[i].Running? ==> m.canceler == Some(m.supervisors[i].ch)
  }

  lemma {:induction false} CancelerInForce(events: seq<Event>)
    requires After(events).Some? && AlwaysOne(events)
    ensures InForce(After(events).value)
  {
    if events != [] {
      var before := events[..|events| - 1];
      CancelerInForce(before);
      var m, e := After(before).value, events[|events| - 1];
      var m' := Step(m, e).value;
      forall i | i in m'.supervisors && m'.supervisors[i].Running?
        ensures m'.canceler == Some(m'.supervisors[i].ch)
      {
        assert Undrained(m', i);
        if e.Install? || e.Cancelled? {
          assert Undrained(m, e.i);
          if i != e.i { assert Undrained(m, i); }
        }
      }
    }
  }

  /** Supervisor i alone is left to serve the canceler in force. */
  ghost predicate OnlyOne(m: Module, i: nat) {
    m.canceler.Some? && forall j :: Undrained(m, j) ==> j == i
  }

  /** The module can be started again. */
  ghost predicate CanStart(m: Module) {
    exists later :: Run(m, later).Some? && Starts(later)
  }

  /**
   * A module whose process asks not to be restarted never runs again, under any later requests, exactly when no
   * other supervisor is left and its canceler is still in force.
   */
  lemma NoRestartIsForever(m: Module, i: nat)
    requires Accounted(m) && Step(m, Died(i, true)).Some?
    ensures !CanStart(Step(m, Died(i, true)).value) <==> OnlyOne(m, i)
    ensures OnlyOne(m, i) ==> Dead(Step(m, Died(i, true)).value)
  {
    var m' := Step(m, Died(i, true)).value;
    if OnlyOne(m, i) {
      forall j
        ensures !Undrained(m', j)
      {
        if Undrained(m', j) { assert Undrained(m, j); }
      }
      forall later | Run(m', later).Some?
        ensures !Starts(later)
      {
        DeadForever(m', later);
      }
    } else if j :| Undrained(m, j) && j != i {
      assert m'.supervisors[j] == m.supervisors[j];
      RemainingStarts(m', j);
    } else {
      assert Step(m, Died(i, true)).value.canceler.None?;
      StepAccounts(m, Died(i, true));
      EnabledStarts(m');
    }
  }

  lemma RunOne(m: Module, e: Event, rest: seq<Event>)
    requires Step(m, e).Some?
    ensures Run(m, [e] + rest) == Run(Step(m, e).value, rest)
    ensures Starts([e] + rest) <==> e.Start? || Starts(rest)
  {
    var all := [e] + rest;
    assert all[1..] == rest;
    if Starts(rest) {
      var k :| 0 <= k < |rest| && rest[k].Start?;
      assert all[k + 1].Start?;
    }
    if e.Start? {
      assert all[0].Start?;
    }
    if Starts(all) && !e.Start? {
      var k :| 0 <= k < |all| && all[k].Start?;
      assert rest[k - 1].Start?;
    }
  }

  lemma StartingStarts(m: Module, j: nat)
    requires !m.crashed && j in m.supervisors && m.supervisors[j].Starting?
    ensures CanStart(m)
  {
    RunOne(m, Start(j, true), []);
    assert Run(m, [Start(j, true)] + []).Some? && Starts([Start(j, true)] + []);
  }

  lemma LaterStarts(m: Module, e: Event)
    requires Step(m, e).Some? && CanStart(Step(m, e).value)
    ensures CanStart(m)
  {
    var later :| Run(Step(m, e).value, later).Some? && Starts(later);
    RunOne(m, e, later);
  }

  lemma RemainingStarts(m: Module, j: nat)
    requires !m.crashed && Undrained(m, j)
    ensures CanStart(m)
    decreases if m.supervisors[j].Started? then 2 else if m.supervisors[j].Running? then 1 else 0
  {
    var phase := m.supervisors[j];
    if phase.Starting? {
      StartingStarts(m, j);
    } else {
      var e := if phase.Started? then Install(j) else Died(j, false);
      RemainingStarts(Step(m, e).value, j);
      LaterStarts(m, e);
    }
  }

  lemma EnabledStarts(m: Module)
    requires !m.crashed && m.canceler.None?
    ensures CanStart(m)
  {
    StartingStarts(Step(m, Enable(true)).value, m.next);
    LaterStarts(m, Enable(true));
  }

  /** A first start already leads there: the module runs, and its process may ask not to be restarted. */
  lemma NoRestartArises()
    ensures var run := [Enable(true), Start(0, true), Install(0)];
            && After(run).Some? && Accounted(After(run).value) && OnlyOne(After(run).value, 0)
            && Step(After(run).value, Died(0, true)).Some?
  {
    var run := [Enable(true), Start(0, true), Install(0)];
    var m1 := Step(NEW, run[0]).value;
    var m2 := Step(m1, run[1]).value;
    var one, two := [run[0]], [run[0], run[1]];
    assert one[..0] == [] && two[..1] == one && run[..2] == two;
    assert After([]) == Some(NEW) && After(one) == Some(m1) && After(two) == Some(m2);
    EveryRunAccounts(run);
  }

  /** In a run with one supervisor at a time, a running one is always the only one to serve the canceler. */
  lemma OneServes(events: seq<Event>, i: nat)
    requires After(events).Some? && AlwaysOne(events)
    requires i in After(events).value.supervisors && After(events).value.supervisors[i].Running?
    ensures OnlyOne(After(events).value, i)
  {
    CancelerInForce(events);
    assert Undrained(After(events).value, i);
  }

  // ---- disabling ----

  /** Channels are numbered in the order they are made. */
  ghost predicate Aged(m: Module) {
    && (forall ch :: ch in m.closed ==> ch < m.next)
    && (m.canceler.Some? ==> m.canceler.value < m.next)
    && (forall i :: i in m.supervisors && m.supervisors[i].Running? ==> m.supervisors[i].ch < m.next)
  }

  lemma StepAges(m: Module, e: Event)
    requires Aged(m) && Step(m, e).Some?
    ensures Aged(Step(m, e).value)
  {
  }

  lemma {:induction false} EveryRunAges(events: seq<Event>)
    requires After(events).Some?
    ensures Aged(After(events).value)
  {
    if events != [] {
      EveryRunAges(events[..|events| - 1]);
      StepAges(After(events[..|events| - 1]).value, events[|events| - 1]);
    }
  }

  /** No supervisor has a request to stop waiting for it. */
  ghost predicate Unasked(m: Module) {
    forall i :: i in m.supervisors && m.supervisors[i].Running? ==> m.supervisors[i].ch !in m.closed
  }

  predicate Cancels(events: seq<Event>) {
    exists k :: 0 <= k < |events| && events[k].Cancelled?
  }

  lemma {:induction false} UnaskedGoesOn(m: Module, later: seq<Event>)
    requires Aged(m) && Unasked(m) && Run(m, later).Some? && Disable !in later
    ensures !Cancels(later)
    decreases later
  {
    if later != [] {
      var e, rest := later[0], later[1..];
      StepAges(m, e);
      UnaskedGoesOn(Step(m, e).value, rest);
      forall k | 0 <= k < |later|
        ensures !later[k].Cancelled?
      {
        if k > 0 { assert later[k] == rest[k - 1]; }
      }
    }
  }

  /** Without another request, some supervisor stops because of the requests made so far. */
  ghost predicate ServedLater(m: Module) {
    exists later :: Run(m, later).Some? && Disable !in later && Cancels(later)
  }

  /**
   * A request to disable the module that is answered as done is ever served exactly if the supervisor is waiting
   * just then; one that is restarting its child never sees it, and goes on until it is asked again.
   */
  lemma DisableServed(events: seq<Event>, i: nat)
    requires After(events).Some? && AlwaysOne(events) && Undrained(After(events).value, i)
    requires Answer(After(events).value, Disable) == Some(Disabled)
    requires Step(After(events).value, Disable).Some? && !Step(After(events).value, Disable).value.crashed
    ensures ServedLater(Step(After(events).value, Disable).value) <==> After(events).value.supervisors[i].Running?
  {
    var m := After(events).value;
    var m' := Step(m, Disable).value;
    CancelerInForce(events);
    if m.supervisors[i].Running? {
      RunOne(m', Cancelled(i), []);
      var later := [Cancelled(i)] + [];
      assert later[0].Cancelled? && Disable !in later && Run(m', later).Some?;
      assert Cancels(later);
    } else {
      EveryRunAges(events);
      StepAges(m, Disable);
      forall j | j in m'.supervisors && m'.supervisors[j].Running?
        ensures false
      {
        assert Undrained(m, j);
      }
      forall later | Run(m', later).Some? && Disable !in later
        ensures !Cancels(later)
      {
        UnaskedGoesOn(m', later);
      }
    }
  }

  /** Such a loss happens: a request that comes right after a child died is answered as done. */
  lemma DisableLost()
    ensures var run := [Enable(true), Start(0, true), Install(0), Died(0, false)];
            && After(run).Some? && AlwaysOne(run) && Undrained(After(run).value, 0)
            && After(run).value.supervisors[0].Starting?
            && Answer(After(run).value, Disable) == Some(Disabled) && Step(After(run).value, Disable).Some?
            && !ServedLater(Step(After(run).value, Disable).value)
  {
    var run := [Enable(true), Start(0, true), Install(0), Died(0, false)];
    var m1 := Step(NEW, run[0]).value;
    var m2 := Step(m1, run[1]).value;
    var m3 := Step(m2, run[2]).value;
    var m4 := Step(m3, run[3]).value;
    var one, two, three := [run[0]], [run[0], run[1]], [run[0], run[1], run[2]];
    assert one[..0] == [] && two[..1] == one && three[..2] == two && run[..3] == three;
    assert After([]) == Some(NEW) && After(one) == Some(m1) && After(two) == Some(m2) && After(three) == Some(m3)
           && After(run) == Some(m4);
    assert NeverPremature([]) && NeverPremature(one) && NeverPremature(two) && NeverPremature(three)
           && NeverPremature(run);
    OneSupervisor(run);
    DisableServed(run, 0);
  }

  /** The canceler was served, or replaced by a supervisor that started over. */
  predicate Renewed(events: seq<Event>) {
    exists k :: 0 <= k < |events| && (events[k].Cancelled? || events[k].Install?)
  }

  lemma {:induction false} CancelerAfter(m: Module, later: seq<Event>)
    requires Aged(m) && !m.crashed && Run(m, later).Some? && Disable !in later
    ensures var end := Run(m, later).value;
            && !end.crashed
            && (!Renewed(later) ==> end.canceler == m.canceler && end.closed == m.closed)
            && (Renewed(later) || m.canceler.None? || m.canceler.value !in m.closed ==>
                  end.canceler.None? || end.canceler.value !in end.closed)
    decreases later
  {
    if later != [] {
      var e, rest := later[0], later[1..];
      StepAges(m, e);
      CancelerAfter(Step(m, e).value, rest);
      assert Renewed(later) <==> e.Cancelled? || e.Install? || Renewed(rest) by {
        assert forall k :: 1 <= k < |later| ==> later[k] == rest[k - 1];
        if Renewed(rest) {
          var k :| 0 <= k < |rest| && (rest[k].Cancelled? || rest[k].Install?);
          assert later[k + 1] == rest[k];
        }
      }
    }
  }

  /**
   * After an accepted request to disable, the next one closes a closed channel, which ends the CPU process with
   * all its supervisors, exactly if nothing has served or replaced the canceler in between.
   */
  lemma SecondDisableCrashes(events: seq<Event>, later: seq<Event>)
    requires After(events).Some? && Answer(After(events).value, Disable) == Some(Disabled)
    requires Step(After(events).value, Disable).Some? && !Step(After(events).value, Disable).value.crashed
    requires Run(Step(After(events).value, Disable).value, later).Some? && Disable !in later
    ensures var end := Run(Step(After(events).value, Disable).value, later).value;
            Step(end, Disable).Some? && (Step(end, Disable).value.crashed <==> !Renewed(later))
  {
    EveryRunAges(events);
    StepAges(After(events).value, Disable);
    CancelerAfter(Step(After(events).value, Disable).value, later);
  }

  // ---- the life of a supervisor ----

  /** When a supervisor ends: its child does not start, its child asks not to be restarted, or it has stopped it. */
  predicate Ends(e: Event, i: nat) {
    e == Start(i, false) || e == Died(i, true) || e == Drained(i, true) || e == Drained(i, false)
  }

  /** A supervisor is there from the request that is granted until it ends, and never again after that. */
  lemma SupervisorLives(m: Module, e: Event, i: nat)
    requires Accounted(m) && Step(m, e).Some?
    ensures var m' := Step(m, e).value;
            && (i in m.supervisors ==> (i in m'.supervisors <==> !Ends(e, i)))
            && (i !in m.supervisors ==>
                  (i in m'.supervisors <==> e == Enable(true) && m.canceler == None && i == m.next))
            && (i in m'.supervisors && i !in m.supervisors ==> m'.supervisors[i] == Starting)
            && m.next <= m'.next && (i !in m.supervisors && i in m'.supervisors ==> i < m'.next)
  {
    forall j | j in m.supervisors
      ensures j < m.next
    {
      assert Placed(m, j);
    }
  }

  lemma {:induction false} GoneForever(m: Module, later: seq<Event>, i: nat)
    requires Accounted(m) && i !in m.supervisors && i < m.next && Run(m, later).Some?
    ensures i !in Run(m, later).value.supervisors
    decreases later
  {
    if later != [] {
      SupervisorLives(m, later[0], i);
      StepAccounts(m, later[0]);
      GoneForever(Step(m, later[0]).value, later[1..], i);
    }
  }

  /** A child that dies is started again, unless it asked not to be. */
  lemma DeathRestarts(m: Module, i: nat, noRestart: bool)
    requires Accounted(m) && Step(m, Died(i, noRestart)).Some?
    ensures var m' := Step(m, Died(i, noRestart)).value;
            && (noRestart ==> i !in m'.supervisors)
            && (!noRestart ==> Step(m', Start(i, true)).Some? && Step(m', Start(i, false)).Some?)
  {
  }

  // ---- which canceler is in force ----

  /** The channel made by the last step that made one, if nothing has been stopped by request since. */
  ghost function LastMade(events: seq<Event>): Option<nat> {
    if events == [] then None
    else
      var rest, e := events[..|events| - 1], events[|events| - 1];
      match e
      case Install(_) => if After(rest).Some? then Some(After(rest).value.next) else None
      case Cancelled(_) => None
      case _ => LastMade(rest)
  }

  /** In every run the canceler is that channel: neither deaths, nor failed starts, nor a stop take it back. */
  lemma {:induction false} CancelerIsLastMade(events: seq<Event>)
    requires After(events).Some?
    ensures After(events).value.canceler == LastMade(events)
  {
    if events != [] {
      CancelerIsLastMade(events[..|events| - 1]);
    }
  }

  /** Supervisors stop for the process only after it was asked to. */
  lemma {:induction false} StoppedAfterStop(events: seq<Event>)
    requires After(events).Some?
    ensures After(events).value.stopping <==> Stop in events
    ensures forall k: nat, i :: k < |events| && events[k] == Stopped(i) ==> Stop in events[..k]
  {
    if events != [] {
      var n := |events| - 1;
      var rest, e := events[..n], events[n];
      StoppedAfterStop(rest);
      StopStep(After(rest).value, e);
      hide Step;
      assert events == rest + [e];
      forall k: nat, i | k < |events| && events[k] == Stopped(i)
        ensures Stop in events[..k]
      {
        if k < n { assert rest[k] == Stopped(i) && events[..k] == rest[..k]; }
      }
    }
  }

  lemma StopStep(m: Module, e: Event)
    requires Step(m, e).Some?
    ensures Step(m, e).value.stopping <==> m.stopping || e == Stop
    ensures e.Stopped? ==> m.stopping
  {
  }

  /** The k-th event is a request to disable, and the channel is the canceler in force. */
  ghost predicate ClosedAt(events: seq<Event>, k: nat, ch: nat)
    requires k < |events|
  {
    events[k] == Disable && LastMade(events[..k]) == Some(ch)
  }

  /** The channels closed are those in force at some request to disable. */
  lemma {:induction false} ClosedByRequest(events: seq<Event>, ch: nat)
    requires After(events).Some?
    ensures ch in After(events).value.closed <==> exists k: nat :: k < |events| && ClosedAt(events, k, ch)
  {
    hide LastMade;
    if events != [] {
      var n := |events| - 1;
      var rest := events[..n];
      ClosedByRequest(rest, ch);
      CancelerIsLastMade(rest);
      forall k: nat | k < n
        ensures ClosedAt(events, k, ch) <==> ClosedAt(rest, k, ch)
      {
        assert events[k] == rest[k] && events[..k] == rest[..k];
      }
      assert ch in After(events).value.closed <==> ch in After(rest).value.closed || ClosedAt(events, n, ch);
    }
  }

  // ---- children ----

  /** How many children a run has started, and how many of them have been reaped. */
  function Born(events: seq<Event>): nat {
    if events == [] then 0
    else
      var e := events[|events| - 1];
      Born(events[..|events| - 1]) + if e.Start? && e.ok then 1 else 0
  }

  function Reaped(events: seq<Event>): nat {
    if events == [] then 0
    else
      var e := events[|events| - 1];
      Reaped(events[..|events| - 1]) + if e.Died? || (e.Drained? && e.reaped) then 1 else 0
  }

  lemma StepReaps(m: Module, e: Event)
    requires Accounted(m) && Step(m, e).Some?
    ensures |Step(m, e).value.unreaped| + (if e.Died? || (e.Drained? && e.reaped) then 1 else 0)
         == |m.unreaped| + if e.Start? && e.ok then 1 else 0
  {
    hide Step;
    UnreapedAfter(m, e);
    if e.Start? || e.Died? || e.Drained? {
      assert Placed(m, e.i);
      var child := ChildOf(m.supervisors[e.i]);
      if e.Start? && e.ok {
        forall c | c in m.unreaped
          ensures c < m.next
        {
          assert Owned(m, c);
        }
        assert m.unreaped[m.next := e.i].Keys == m.unreaped.Keys + {m.next};
      } else if child.Some? {
        assert (m.unreaped - {child.value}).Keys == m.unreaped.Keys - {child.value};
      }
    }
  }

  lemma UnreapedAfter(m: Module, e: Event)
    requires Step(m, e).Some?
    ensures !(e.Start? || e.Died? || e.Drained?) ==> Step(m, e).value.unreaped == m.unreaped
    ensures e.Start? || e.Died? || e.Drained? ==>
            e.i in m.supervisors
            && var was, now := m.unreaped, Step(m, e).value.unreaped; var child := ChildOf(m.supervisors[e.i]);
            && (e.Start? ==> now == if e.ok then was[m.next := e.i] else was)
            && (e.Died? ==> child.Some? && now == was - {child.value})
            && (e.Drained? ==> child.Some? && now == if e.reaped then was - {child.value} else was)
  {
  }

  /** Every child that was started is reaped by its supervisor's waiting for it, or still to be reaped. */
  lemma {:induction false} ChildrenConserved(events: seq<Event>)
    requires After(events).Some?
    ensures |After(events).value.unreaped| + Reaped(events) == Born(events)
  {
    hide Step, Accounted;
    if events != [] {
      var before := events[..|events| - 1];
      ChildrenConserved(before);
      EveryRunAccounts(before);
      StepReaps(After(before).value, events[|events| - 1]);
    }
  }

  // ---- the way out ----

  /** Every supervisor can be brought to an end, whether its child can be reaped in time or not. */
  ghost predicate CanFinish(m: Module) {
    exists later :: Run(m, later).Some? && Run(m, later).value.waiter == 0 && Enable(true) !in later
                    && Disable !in later
  }

  lemma LaterFinishes(m: Module, e: Event)
    requires Step(m, e).Some? && CanFinish(Step(m, e).value) && e != Enable(true) && e != Disable
    ensures CanFinish(m)
  {
    var later :| Run(Step(m, e).value, later).Some? && Run(Step(m, e).value, later).value.waiter == 0
        && Enable(true) !in later && Disable !in later;
    RunOne(m, e, later);
    assert Enable(true) !in [e] + later && Disable !in [e] + later;
  }

  /** How far a supervisor is from its end, once the process is asked to stop. */
  function StepsLeft(phase: Phase): nat {
    match phase
    case Starting => 3
    case Started(_) => 2
    case Running(_, _) => 1
    case Draining(_) => 0
  }

  lemma FinishOne(m: Module, i: nat)
    requires Accounted(m) && m.stopping && !m.crashed && i in m.supervisors
    ensures CanFinish(m)
    decreases |m.supervisors|, 1, StepsLeft(m.supervisors[i])
  {
    var e := match m.supervisors[i]
             case Starting => Start(i, true)
             case Started(_) => Install(i)
             case Running(_, _) => Stopped(i)
             case Draining(_) => Drained(i, false);
    StepAccounts(m, e);
    var m' := Step(m, e).value;
    if i in m'.supervisors {
      TurnCounts(m, i, m'.supervisors[i]);
      assert m'.supervisors == m.supervisors[i := m'.supervisors[i]];
      FinishOne(m', i);
    } else {
      LeaveCounts(m, i);
      FinishAll(m');
    }
    LaterFinishes(m, e);
  }

  lemma FinishAll(m: Module)
    requires Accounted(m) && m.stopping && !m.crashed
    ensures CanFinish(m)
    decreases |m.supervisors|, 2
  {
    if i: nat :| i in m.supervisors {
      FinishOne(m, i);
    } else {
      assert m.supervisors == map[];
      assert Run(m, []) == Some(m) && m.waiter == 0;
    }
  }

  /** Once asked to stop, in whatever state it is, the process can bring all its supervisors to an end and leave. */
  lemma StopFinishes(events: seq<Event>)
    requires After(events).Some? && !After(events).value.crashed
    ensures Step(After(events).value, Stop).Some? && CanFinish(Step(After(events).value, Stop).value)
  {
    EveryRunAccounts(events);
    StepAccounts(After(events).value, Stop);
    FinishAll(Step(After(events).value, Stop).value);
  }
}
