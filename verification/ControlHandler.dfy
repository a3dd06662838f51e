/**
 * The CPU module's handling of one control message: a list request, modules to enable, modules to disable, in that
 * order.
 */
module ControlHandler {
  import opened MessageBus
  import opened Supervisor

  /** One requested change of one module. */
  datatype Request = On(name: string) | Off(name: string)

  datatype Outcome =
    Outcome(modules: map<string, Module>, results: map<string, Reply>, errors: map<string, Fault>, crashed: bool)

  datatype Fault = Refused(reply: Reply) | Unknown

  /** Which modules have an executable to start. */
  type Executables = string -> bool

  function EventOf(q: Request, found: Executables): Event {
    match q
    case On(name) => Enable(found(name))
    case Off(_) => Disable
  }

  predicate Granted(r: Reply) {
    r.Enabled? || r.Disabled?
  }

  function ReplyTo(m: Module, q: Request, found: Executables): Reply {
    Answer(m, EventOf(q, found)).value
  }

  ghost predicate Alive(modules: map<string, Module>) {
    forall n :: n in modules ==> !modules[n].crashed
  }

  /** One request: the module's own step, and an entry among the results or the errors. */
  function Served(o: Outcome, q: Request, found: Executables): Outcome {
    if o.crashed then o
    else if q.name !in o.modules then o.(errors := o.errors[q.name := Unknown])
    else
      var m, reply := o.modules[q.name], ReplyTo(o.modules[q.name], q, found);
      var m' := Step(m, EventOf(q, found));
      if m'.None? || m'.value.crashed then o.(crashed := true)
      else if Granted(reply) then o.(modules := o.modules[q.name := m'.value], results := o.results[q.name := reply])
      else o.(modules := o.modules[q.name := m'.value], errors := o.errors[q.name := Refused(reply)])
  }

  function ServedAll(o: Outcome, requests: seq<Request>, found: Executables): Outcome
    decreases requests
  {
    if requests == [] then o else ServedAll(Served(o, requests[0], found), requests[1..], found)
  }

  /** What a list request reports: a module counts as enabled iff it has a canceler. */
  function Listing(modules: map<string, Module>): map<string, Reply> {
    map n | n in modules :: if modules[n].canceler.None? then Disabled else Enabled
  }

  function Requests(enable: seq<string>, disable: seq<string>): seq<Request> {
    seq(|enable|, i requires 0 <= i < |enable| => On(enable[i]))
    + seq(|disable|, i requires 0 <= i < |disable| => Off(disable[i]))
  }

  function Handled(modules: map<string, Module>, list: bool, enable: seq<string>, disable: seq<string>,
                   found: Executables): Outcome {
    ServedAll(Outcome(modules, if list then Listing(modules) else map[], map[], false),
              Requests(enable, disable), found)
  }

  // ---- what a message means for one module ----

  /** The events that a list of requests is for one module. */
  function Own(requests: seq<Request>, n: string, found: Executables): seq<Event>
    decreases requests
  {
    if requests == [] then []
    else (if requests[0].name == n then [EventOf(requests[0], found)] else []) + Own(requests[1..], n, found)
  }

  /** Modules are independent: a message does to each exactly what the requests that name it do, in order. */
  lemma {:induction false} EachModuleItsOwn(o: Outcome, requests: seq<Request>, found: Executables, n: string)
    requires n in o.modules && !ServedAll(o, requests, found).crashed
    ensures var after := ServedAll(o, requests, found);
            n in after.modules && Run(o.modules[n], Own(requests, n, found)) == Some(after.modules[n])
    decreases requests
  {
    hide Served, Step, EventOf;
    if requests != [] {
      var o' := Served(o, requests[0], found);
      if o'.crashed {
        CrashedStays(o', requests[1..], found);
      }
      ServedModule(o, requests[0], found, n);
      EachModuleItsOwn(o', requests[1..], found, n);
      if requests[0].name == n {
        var e, rest := EventOf(requests[0], found), Own(requests[1..], n, found);
        assert ([e] + rest)[1..] == rest;
      } else {
        assert [] + Own(requests[1..], n, found) == Own(requests[1..], n, found);
      }
    }
  }

  lemma {:induction false} CrashedStays(o: Outcome, requests: seq<Request>, found: Executables)
    requires o.crashed
    ensures ServedAll(o, requests, found) == o
    decreases requests
  {
    if requests != [] {
      CrashedStays(o, requests[1..], found);
    }
  }

  predicate Names(requests: seq<Request>, n: string) {
    exists i :: 0 <= i < |requests| && requests[i].name == n
  }

  /** Unless the process ends, everything that is asked for is answered, and nothing else. */
  lemma {:induction false} AllAnswered(o: Outcome, requests: seq<Request>, found: Executables, n: string)
    requires !ServedAll(o, requests, found).crashed
    ensures var after := ServedAll(o, requests, found);
            n in after.results || n in after.errors <==> n in o.results || n in o.errors || Names(requests, n)
    decreases requests
  {
    if requests != [] {
      var o' := Served(o, requests[0], found);
      if o'.crashed {
        CrashedStays(o', requests[1..], found);
      }
      AllAnswered(o', requests[1..], found, n);
      assert Names(requests, n) <==> requests[0].name == n || Names(requests[1..], n) by {
        assert forall i :: 1 <= i < |requests| ==> requests[i] == requests[1..][i - 1];
        if Names(requests[1..], n) {
          var i :| 0 <= i < |requests[1..]| && requests[1..][i].name == n;
          assert requests[i + 1].name == n;
        }
      }
    }
  }

  lemma OtherKept(o: Outcome, q: Request, found: Executables, n: string)
    requires q.name != n
    ensures var after := Served(o, q, found);
            && (n in after.modules <==> n in o.modules) && (n in o.modules ==> after.modules[n] == o.modules[n])
            && (n in after.results <==> n in o.results) && (n in o.results ==> after.results[n] == o.results[n])
            && (n in after.errors <==> n in o.errors) && (n in o.errors ==> after.errors[n] == o.errors[n])
  {
    hide Step;
  }

  lemma {:induction false} UnnamedKept(o: Outcome, requests: seq<Request>, found: Executables, n: string)
    requires !ServedAll(o, requests, found).crashed && !Names(requests, n)
    ensures var after := ServedAll(o, requests, found);
            && (n in after.modules <==> n in o.modules) && (n in o.modules ==> after.modules[n] == o.modules[n])
            && (n in after.results <==> n in o.results) && (n in o.results ==> after.results[n] == o.results[n])
            && (n in after.errors <==> n in o.errors) && (n in o.errors ==> after.errors[n] == o.errors[n])
    decreases requests
  {
    if requests != [] {
      var o' := Served(o, requests[0], found);
      if o'.crashed {
        CrashedStays(o', requests[1..], found);
      }
      assert requests[0].name != n && forall i :: 1 <= i < |requests| ==> requests[i] == requests[1..][i - 1];
      OtherKept(o, requests[0], found, n);
      hide Served;
      UnnamedKept(o', requests[1..], found, n);
    }
  }

  /**
   * A list request reports every module: as enabled if it has a canceler, as disabled if it has none. What the message
   * asks of other modules changes nothing in that.
   */
  lemma EveryModuleListed(modules: map<string, Module>, enable: seq<string>, disable: seq<string>, found: Executables,
                          n: string)
    requires n in modules && n !in enable && n !in disable
    requires !Handled(modules, true, enable, disable, found).crashed
    ensures var after := Handled(modules, true, enable, disable, found);
            && n !in after.errors && n in after.results
            && (modules[n].canceler == None ==> after.results[n] == Disabled)
            && (modules[n].canceler != None ==> after.results[n] == Enabled)
            && n in after.modules && after.modules[n] == modules[n]
  {
    hide ServedAll;
    var requests := Requests(enable, disable);
    forall i | 0 <= i < |requests|
      ensures requests[i].name != n
    {
      assert requests[i] == if i < |enable| then On(enable[i]) else Off(disable[i - |enable|]);
    }
    UnnamedKept(Outcome(modules, Listing(modules), map[], false), requests, found, n);
  }

  /** What a request is answered, by the module's canceler just then. */
  ghost predicate AnsweredAs(o: Outcome, q: Request, m: Module, found: Executables) {
    match q
    case On(n) =>
      if m.canceler != None then n in o.errors && o.errors[n] == Refused(AlreadyEnabled)
      else if found(n) then n in o.results && o.results[n] == Enabled
      else n in o.errors && o.errors[n] == Refused(NoExecutable)
    case Off(n) =>
      if m.canceler != None then n in o.results && o.results[n] == Disabled
      else n in o.errors && o.errors[n] == Refused(AlreadyDisabled)
  }

  /**
   * The last request that names a module is answered by the state that the requests before it have left the module in;
   * one that names no module, that it does not exist.
   */
  lemma {:induction false} LastAnswer(o: Outcome, requests: seq<Request>, found: Executables, i: nat)
    requires i < |requests| && !Names(requests[i + 1..], requests[i].name) && !ServedAll(o, requests, found).crashed
    ensures var after, n := ServedAll(o, requests, found), requests[i].name;
            && (n in o.modules ==>
                  Run(o.modules[n], Own(requests[..i], n, found)).Some?
                  && AnsweredAs(after, requests[i], Run(o.modules[n], Own(requests[..i], n, found)).value, found))
            && (n !in o.modules ==> n in after.errors && after.errors[n] == Unknown)
    decreases requests
  {
    hide Served, Step, Run, AnsweredAs, Own;
    var n, o' := requests[i].name, Served(o, requests[0], found);
    if o'.crashed {
      CrashedStays(o', requests[1..], found);
    }
    if i == 0 {
      assert requests[..0] == [];
      UnnamedKept(o', requests[1..], found, n);
      FirstAnswer(o, requests[0], found);
      NothingOwn(o, n, found);
      SameAnswer(o', ServedAll(o, requests, found), requests[0], found);
    } else {
      var rest := requests[1..];
      assert rest[i - 1] == requests[i] && rest[i - 1 + 1..] == requests[i + 1..];
      LastAnswer(o', rest, found, i - 1);
      OwnRun(o, requests, found, i, n);
    }
  }

  lemma NothingOwn(o: Outcome, n: string, found: Executables)
    ensures n in o.modules ==> Run(o.modules[n], Own([], n, found)) == Some(o.modules[n])
  {
  }

  lemma SameAnswer(o: Outcome, o': Outcome, q: Request, found: Executables)
    requires var n := q.name;
             && (n in o'.results <==> n in o.results) && (n in o.results ==> o'.results[n] == o.results[n])
             && (n in o'.errors <==> n in o.errors) && (n in o.errors ==> o'.errors[n] == o.errors[n])
    ensures forall m :: AnsweredAs(o, q, m, found) <==> AnsweredAs(o', q, m, found)
  {
  }

  lemma FirstAnswer(o: Outcome, q: Request, found: Executables)
    requires !Served(o, q, found).crashed
    ensures var after := Served(o, q, found);
            && (q.name in o.modules ==> AnsweredAs(after, q, o.modules[q.name], found))
            && (q.name !in o.modules ==> q.name in after.errors && after.errors[q.name] == Unknown)
  {
  }

  /** A request is a step of the module that it names. */
  lemma ServedModule(o: Outcome, q: Request, found: Executables, n: string)
    requires !Served(o, q, found).crashed
    ensures var o' := Served(o, q, found);
            && (n in o'.modules <==> n in o.modules)
            && (n in o.modules ==>
                  if q.name == n then Step(o.modules[n], EventOf(q, found)) == Some(o'.modules[n])
                  else o'.modules[n] == o.modules[n])
  {
    hide Step;
  }

  /** After the first request, what the others are for a module is what is left of its own. */
  lemma OwnRun(o: Outcome, requests: seq<Request>, found: Executables, i: nat, n: string)
    requires 0 < i <= |requests| && !Served(o, requests[0], found).crashed
    ensures var o', rest := Served(o, requests[0], found), requests[1..];
            && (n in o'.modules <==> n in o.modules)
            && (n in o.modules ==>
                  Run(o.modules[n], Own(requests[..i], n, found)) == Run(o'.modules[n], Own(rest[..i - 1], n, found)))
  {
    hide Step, Served, EventOf;
    ServedModule(o, requests[0], found, n);
    var first, rest := requests[0], requests[1..];
    assert requests[..i][0] == first && requests[..i][1..] == rest[..i - 1];
    var own := Own(rest[..i - 1], n, found);
    if first.name == n {
      assert ([EventOf(first, found)] + own)[1..] == own;
    } else {
      assert [] + own == own;
    }
  }

  /** The process ends in the middle of a message exactly if a request to disable meets a canceler already closed. */
  lemma {:induction false} CrashMeans(o: Outcome, requests: seq<Request>, found: Executables)
    requires !o.crashed && Alive(o.modules)
    ensures ServedAll(o, requests, found).crashed
       <==> exists i: nat :: i < |requests| && ClosesAgain(o, requests, found, i)
    decreases requests
  {
    if requests != [] {
      var o', rest := Served(o, requests[0], found), requests[1..];
      FirstCloses(o, requests, found);
      if o'.crashed {
        CrashedStays(o', rest, found);
      } else {
        CrashMeans(o', rest, found);
        if i: nat :| i < |rest| && ClosesAgain(o', rest, found, i) {
          LaterCloses(o, requests, found, i + 1);
          assert ClosesAgain(o, requests, found, i + 1);
        }
        if i: nat :| i < |requests| && ClosesAgain(o, requests, found, i) {
          if i > 0 { LaterCloses(o, requests, found, i); }
        }
      }
    }
  }

  /** Request i asks to disable a module whose canceler the requests before it have left closed, but in force. */
  ghost predicate ClosesAgain(o: Outcome, requests: seq<Request>, found: Executables, i: nat)
    requires i < |requests|
  {
    var n := requests[i].name;
    requests[i].Off? && n in o.modules
    && var m := Run(o.modules[n], Own(requests[..i], n, found));
       m.Some? && !m.value.crashed && m.value.canceler.Some? && m.value.canceler.value in m.value.closed
  }

  lemma FirstCloses(o: Outcome, requests: seq<Request>, found: Executables)
    requires requests != [] && !o.crashed && Alive(o.modules)
    ensures Served(o, requests[0], found).crashed <==> ClosesAgain(o, requests, found, 0)
    ensures !Served(o, requests[0], found).crashed ==> Alive(Served(o, requests[0], found).modules)
  {
    assert requests[..0] == [];
  }

  lemma LaterCloses(o: Outcome, requests: seq<Request>, found: Executables, i: nat)
    requires 0 < i < |requests| && !o.crashed && !Served(o, requests[0], found).crashed
    ensures ClosesAgain(o, requests, found, i)
       <==> ClosesAgain(Served(o, requests[0], found), requests[1..], found, i - 1)
  {
    hide Served, Run, Own;
    assert requests[1..][i - 1] == requests[i];
    OwnRun(o, requests, found, i, requests[i].name);
  }

  /** No request takes back an answer: a module can stand among the results and among the errors of one message. */
  lemma {:induction false} AnswersStay(o: Outcome, requests: seq<Request>, found: Executables)
    ensures var after := ServedAll(o, requests, found);
            o.results.Keys <= after.results.Keys && o.errors.Keys <= after.errors.Keys
    decreases requests
  {
    if requests != [] {
      OneAnswerMore(o, requests[0], found);
      hide Served;
      AnswersStay(Served(o, requests[0], found), requests[1..], found);
    }
  }

  lemma OneAnswerMore(o: Outcome, q: Request, found: Executables)
    ensures o.results.Keys <= Served(o, q, found).results.Keys && o.errors.Keys <= Served(o, q, found).errors.Keys
  {
  }

  /** A module named twice in one message is started twice, and both times reported as enabled. */
  lemma NamedTwiceStartsTwice(modules: map<string, Module>, n: string, found: Executables)
    requires n in modules && !modules[n].crashed && modules[n].canceler.None? && found(n) && Accounted(modules[n])
    ensures var after := Handled(modules, false, [n, n], [], found);
            !after.crashed && after.results == map[n := Enabled] && after.errors == map[] && n in after.modules
            && !AtMostOne(after.modules[n])
  {
    var m := modules[n];
    var m1 := Step(m, Enable(true)).value;
    var m2 := Step(m1, Enable(true)).value;
    var o := Outcome(modules, map[], map[], false);
    assert Requests([n, n], []) == [On(n), On(n)];
    assert [On(n), On(n)][1..] == [On(n)] && [On(n)][1..] == [];
    var o1 := Served(o, On(n), found);
    var o2 := Served(o1, On(n), found);
    assert ServedAll(o2, [], found) == o2;
    assert ServedAll(o1, [On(n)], found) == o2;
    assert Undrained(m2, m.next) && Undrained(m2, m.next + 1);
  }

  /**
   * A module whose process asked not to be restarted is listed as enabled ever after, and a request to enable it
   * is refused, although no supervisor runs it any more.
   */
  lemma DeadListedEnabled(m: Module, i: nat, later: seq<Event>, modules: map<string, Module>, n: string,
                          found: Executables)
    requires Accounted(m) && OnlyOne(m, i) && Step(m, Died(i, true)).Some?
    requires Run(Step(m, Died(i, true)).value, later).Some?
    requires n in modules && modules[n] == Run(Step(m, Died(i, true)).value, later).value && !modules[n].crashed
    ensures forall j :: !Undrained(modules[n], j)
    ensures var listed := Handled(modules, true, [], [], found); n in listed.results && listed.results[n] == Enabled
    ensures var asked := Handled(modules, false, [n], [], found);
            asked.results == map[] && asked.errors == map[n := Refused(AlreadyEnabled)] && n in asked.modules
            && asked.modules[n] == modules[n]
  {
    NoRestartIsForever(m, i);
    DeadForever(Step(m, Died(i, true)).value, later);
    assert Requests([], []) == [] && Requests([n], []) == [On(n)];
    var o := Outcome(modules, map[], map[], false);
    assert ServedAll(o, [On(n)], found) == ServedAll(Served(o, On(n), found), [], found);
  }

  // ---- the handler ----

  class Cpu {
    var modules: map<string, Module>

    constructor (modules: map<string, Module>)
      ensures this.modules == modules
    {
      this.modules := modules;
    }

    /** One control message; a crash ends the process in the middle of it. */
    method HandleControl(list: bool, enable: seq<string>, disable: seq<string>, found: Executables)
      returns (results: map<string, Reply>, errors: map<string, Fault>, crashed: bool)
      requires Alive(modules)
      modifies this
      ensures crashed || Alive(modules)
      ensures Outcome(modules, results, errors, crashed) == Handled(old(modules), list, enable, disable, found)
    {
      hide ServedAll, Requests;
      results, errors, crashed := map[], map[], false;
      if list {
        results := Listing(modules);
      }
      ghost var start := Outcome(modules, results, errors, false);
      for i := 0 to |enable|
        invariant Alive(modules) && !crashed
        invariant ServedAll(start, Requests(enable, disable), found)
               == ServedAll(Outcome(modules, results, errors, false), Requests(enable[i..], disable), found)
      {
        var name := enable[i];
        ghost var before := Outcome(modules, results, errors, false);
        FirstOn(enable[i..], disable);
        FirstServed(before, Requests(enable[i..], disable), found);
        assert enable[i..][1..] == enable[i + 1..];
        if name in modules {
          var m := modules[name];
          if m.canceler.None? && found(name) {
            modules := modules[name := Step(m, Enable(true)).value];
            results := results[name := Enabled];
          } else {
            errors := errors[name := Refused(if m.canceler.None? then NoExecutable else AlreadyEnabled)];
          }
        } else {
          errors := errors[name := Unknown];
        }
        assert Outcome(modules, results, errors, false) == Served(before, On(name), found);
      }
      assert enable[|enable|..] == [];
      for i := 0 to |disable|
        invariant Alive(modules) && !crashed
        invariant ServedAll(start, Requests(enable, disable), found)
               == ServedAll(Outcome(modules, results, errors, false), Requests([], disable[i..]), found)
      {
        var name := disable[i];
        ghost var before := Outcome(modules, results, errors, false);
        FirstOff(disable[i..]);
        FirstServed(before, Requests([], disable[i..]), found);
        assert disable[i..][1..] == disable[i + 1..];
        if name in modules {
          var m := modules[name];
          if m.canceler.Some? {
            if m.canceler.value in m.closed {
              CrashedStays(Outcome(modules, results, errors, true), Requests([], disable[i + 1..]), found);
              crashed := true;
              return;
            }
            modules := modules[name := m.(closed := m.closed + {m.canceler.value})];
            results := results[name := Disabled];
          } else {
            errors := errors[name := Refused(AlreadyDisabled)];
          }
        } else {
          errors := errors[name := Unknown];
        }
        assert Outcome(modules, results, errors, false) == Served(before, Off(name), found);
      }
      NothingServed(Outcome(modules, results, errors, false), disable[|disable|..], found);
    }
  }

  lemma FirstServed(o: Outcome, requests: seq<Request>, found: Executables)
    requires requests != []
    ensures ServedAll(o, requests, found) == ServedAll(Served(o, requests[0], found), requests[1..], found)
  {
  }

  lemma NothingServed(o: Outcome, disable: seq<string>, found: Executables)
    requires disable == []
    ensures ServedAll(o, Requests([], disable), found) == o
  {
    assert Requests([], disable) == [];
  }

  lemma FirstOn(enable: seq<string>, disable: seq<string>)
    requires enable != []
    ensures var all := Requests(enable, disable);
            all != [] && all[0] == On(enable[0]) && all[1..] == Requests(enable[1..], disable)
  {
  }

  lemma FirstOff(disable: seq<string>)
    requires disable != []
    ensures var all := Requests([], disable);
            all != [] && all[0] == Off(disable[0]) && all[1..] == Requests([], disable[1..])
  {
  }
}
