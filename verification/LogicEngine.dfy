/**
 * The logic module: once a tick it runs its assignments in order over an environment and publishes the tagged
 * variables.
 */
module LogicEngine {
  import opened MessageBus

  datatype Value = Bool(b: bool) | Int(i: int) | Float(x: real) | Str(s: string)

  type Env = map<string, Value>

  /**
   * Running compiled code in an environment; None is a run-time error. The line number lets code with random parts
   * differ from line to line.
   */
  type Machine<!Code> = (Code, Env, nat) -> Option<Value>

  /** Names starting so are only logged. */
  const OUTPUT := "sprintf"

  function Lookup(env: Env, name: string): Option<Value> {
    if name in env then Some(env[name]) else None
  }

  // ---- one run of the program ----

  datatype Outcome = Outcome(updated: seq<string>, env: Env)

  /**
   * A loaded program: the code of each line, the name it assigns ("" for none), the tags of variables, and a machine to
   * run it.
   */
  datatype Script<!Code> =
    Script(run: Machine<Code>, code: map<int, Code>, order: seq<string>, tags: map<string, string>)
  {
    ghost predicate Sound() {
      forall k :: 0 <= k < |order| && order[k] != "" ==> k in code
    }

    /** What line k assigns when run in env, if it assigns. */
    function Assigned(k: nat, env: Env): Option<Value>
      requires Sound() && k < |order|
    {
      if order[k] == "" || OUTPUT <= order[k] then None else run(code[k], env, k)
    }

    function After(k: nat, env: Env): Env
      requires Sound() && k < |order|
    {
      match Assigned(k, env)
      case Some(v) => env[order[k] := v]
      case None => env
    }

    /** Line k gives a tagged variable another value. */
    predicate Changes(k: nat, env: Env)
      requires Sound() && k < |order|
    {
      Assigned(k, env).Some? && order[k] in tags && Lookup(env, order[k]) != Assigned(k, env)
    }

    /** Running the lines from k on. */
    function From(k: nat, env: Env): Outcome
      requires Sound() && k <= |order|
      decreases |order| - k
    {
      if k == |order| then Outcome([], env)
      else
        var rest := From(k + 1, After(k, env));
        if Changes(k, env) then rest.(updated := [order[k]] + rest.updated) else rest
    }

    /** The environment that line k sees. */
    function At(k: nat, env: Env): Env
      requires Sound() && k <= |order|
    {
      if k == 0 then env else After(k - 1, At(k - 1, env))
    }

    predicate AssignedOnce(name: string) {
      forall j, k :: 0 <= j < k < |order| ==> !(order[j] == order[k] == name)
    }
  }

  /** Line j gives a tagged variable another value than it has just then. */
  ghost predicate ChangedOn<Code>(s: Script<Code>, env: Env, name: string, j: nat)
    requires s.Sound() && j < |s.order|
  {
    s.order[j] == name && s.Changes(j, s.At(j, env))
  }

  /** A name is reported iff some line gave that tagged variable another value than it had just then. */
  lemma {:induction false} ReportedFrom<Code>(s: Script<Code>, env: Env, k: nat, name: string)
    requires s.Sound() && k <= |s.order|
    ensures s.From(k, s.At(k, env)).env == s.At(|s.order|, env)
    ensures name in s.From(k, s.At(k, env)).updated
       <==> exists j: nat :: k <= j < |s.order| && ChangedOn(s, env, name, j)
    decreases |s.order| - k
  {
    if k < |s.order| {
      ReportedFrom(s, env, k + 1, name);
      var rest := s.From(k + 1, s.At(k + 1, env)).updated;
      assert name in [s.order[k]] + rest <==> name == s.order[k] || name in rest;
      assert name in s.From(k, s.At(k, env)).updated <==> ChangedOn(s, env, name, k) || name in rest;
    }
  }

  lemma {:induction false} SteadyUntil<Code>(s: Script<Code>, env: Env, k: nat, name: string)
    requires s.Sound() && k <= |s.order|
    requires forall j: nat :: j < k && s.order[j] == name ==>
               s.Assigned(j, s.At(j, env)).None? || s.Assigned(j, s.At(j, env)) == Lookup(s.At(j, env), name)
    ensures Lookup(s.At(k, env), name) == Lookup(env, name)
  {
    if k > 0 {
      SteadyUntil(s, env, k - 1, name);
    }
  }

  /**
   * Change detection. A tagged variable that ends a run with another value than it started with is reported,
   * whatever the program; a reported one changed on some line; and a variable that no line assigns is left alone.
   */
  lemma ChangesAreReported<Code>(s: Script<Code>, env: Env, name: string)
    requires s.Sound()
    ensures var r := s.From(0, env);
            && (name in s.tags && Lookup(r.env, name) != Lookup(env, name) ==> name in r.updated)
            && (name in r.updated <==> exists j: nat :: j < |s.order| && ChangedOn(s, env, name, j))
            && (name !in s.order || OUTPUT <= name ==> Lookup(r.env, name) == Lookup(env, name))
  {
    ReportedFrom(s, env, 0, name);
    assert s.At(0, env) == env;
    if (name in s.tags && name !in s.From(0, env).updated) || name !in s.order || OUTPUT <= name {
      assert forall j: nat :: j < |s.order| ==>
               s.order[j] != name || OUTPUT <= name || name !in s.tags || !ChangedOn(s, env, name, j);
      SteadyUntil(s, env, |s.order|, name);
    }
  }

  /** Of a variable assigned on one line only, the report is exact. */
  lemma OnceReportedExactly<Code>(s: Script<Code>, env: Env, name: string)
    requires s.Sound() && name in s.tags && s.AssignedOnce(name)
    ensures name in s.From(0, env).updated <==> Lookup(s.From(0, env).env, name) != Lookup(env, name)
  {
    ChangesAreReported(s, env, name);
    if name in s.From(0, env).updated {
      var j: nat :| j < |s.order| && ChangedOn(s, env, name, j);
      ReportedFrom(s, env, 0, name);
      ChangedAt(s, env, j, name);
    }
  }

  lemma ChangedAt<Code>(s: Script<Code>, env: Env, j: nat, name: string)
    requires s.Sound() && s.AssignedOnce(name) && j < |s.order| && ChangedOn(s, env, name, j)
    ensures Lookup(s.At(|s.order|, env), name) != Lookup(env, name)
  {
    SteadyUntil(s, env, j, name);
    SteadyAfter(s, env, j + 1, |s.order|, name);
  }

  lemma {:induction false} SteadyAfter<Code>(s: Script<Code>, env: Env, k: nat, n: nat, name: string)
    requires s.Sound() && k <= n <= |s.order|
    requires forall j :: k <= j < n ==> s.order[j] != name
    ensures Lookup(s.At(n, env), name) == Lookup(s.At(k, env), name)
  {
    if k < n {
      SteadyAfter(s, env, k, n - 1, name);
    }
  }

  // ---- programs of the plainest kind ----

  /** Code that is a constant or a variable: enough for the counterexamples, and part of every expression language. */
  datatype Plain = Constant(v: Value) | Reading(name: string)

  const PLAIN: Machine<Plain> := (c: Plain, env: Env, k: nat) => if c.Constant? then Some(c.v) else Lookup(env, c.name)

  predicate Assignable(name: string) {
    name != "" && !(OUTPUT <= name)
  }

  /** Every line assigns its variable to itself, except those given otherwise. */
  function Idle(order: seq<string>, special: map<int, Plain>): map<int, Plain> {
    map k | 0 <= k < |order| :: if k in special then special[k] else Reading(order[k])
  }

  function IdleScript(order: seq<string>, tags: map<string, string>, special: map<int, Plain>): (s: Script<Plain>)
    ensures s.Sound()
  {
    Script(PLAIN, Idle(order, special), order, tags)
  }

  /** A line that is not special changes nothing. */
  lemma IdleLine(order: seq<string>, tags: map<string, string>, special: map<int, Plain>, k: nat, env: Env)
    requires k < |order| && k !in special
    ensures var s := IdleScript(order, tags, special); s.After(k, env) == env && !s.Changes(k, env)
  {
  }

  lemma SpecialLine(order: seq<string>, tags: map<string, string>, special: map<int, Plain>, k: nat, env: Env, v: Value)
    requires k < |order| && k in special && special[k] == Constant(v) && Assignable(order[k])
    ensures var s := IdleScript(order, tags, special);
            s.After(k, env) == env[order[k] := v]
            && (s.Changes(k, env) <==> order[k] in tags && Lookup(env, order[k]) != Some(v))
  {
  }

  lemma {:induction false} IdleUntil(order: seq<string>, tags: map<string, string>, special: map<int, Plain>, j: nat,
                                     k: nat, env: Env)
    requires j <= k <= |order| && forall n :: j <= n < k ==> n !in special
    ensures IdleScript(order, tags, special).From(j, env) == IdleScript(order, tags, special).From(k, env)
    decreases k - j
  {
    if j < k {
      IdleLine(order, tags, special, j, env);
      IdleUntil(order, tags, special, j + 1, k, env);
    }
  }

  /** A run with a single constant. */
  lemma OneConstant(order: seq<string>, tags: map<string, string>, i: nat, env: Env, v: Value)
    requires i < |order| && Assignable(order[i]) && order[i] in tags && Lookup(env, order[i]) != Some(v)
    ensures IdleScript(order, tags, map[i := Constant(v)]).From(0, env) == Outcome([order[i]], env[order[i] := v])
  {
    var special: map<int, Plain> := map[i := Constant(v)];
    IdleUntil(order, tags, special, 0, i, env);
    SpecialLine(order, tags, special, i, env, v);
    IdleUntil(order, tags, special, i + 1, |order|, env[order[i] := v]);
  }

  /**
   * In every program that assigns a tagged variable on two lines, some code on its lines makes a run report the
   * variable although it leaves everything as it was.
   */
  lemma RevertedYetReported(order: seq<string>, tags: map<string, string>, name: string)
    returns (code: map<int, Plain>, env: Env)
    requires Assignable(name) && name in tags
    requires exists j, k :: 0 <= j < k < |order| && order[j] == order[k] == name
    ensures var s := Script(PLAIN, code, order, tags);
            s.Sound() && name in s.From(0, env).updated && s.From(0, env).env == env
  {
    var j: nat, k: nat :| j < k < |order| && order[j] == order[k] == name;
    var special: map<int, Plain> := map[j := Constant(Float(1.0)), k := Constant(Float(0.0))];
    code := Idle(order, special);
    env := map[name := Float(0.0)];
    var e1 := env[name := Float(1.0)];
    var s := IdleScript(order, tags, special);
    assert e1[name := Float(0.0)] == env;
    IdleUntil(order, tags, special, k + 1, |order|, env);
    assert s.From(|order|, env) == Outcome([], env);
    SpecialLine(order, tags, special, k, e1, Float(0.0));
    assert s.From(k, e1) == Outcome([name], env);
    IdleUntil(order, tags, special, j + 1, k, e1);
    SpecialLine(order, tags, special, j, env, Float(1.0));
    assert s.From(j, env) == Outcome([name] + [name], env);
    IdleUntil(order, tags, special, 0, j, env);
  }

  /**
   * The report on a variable is exact for all code and all environments iff the program assigns it on one line at most.
   */
  ghost predicate AlwaysExact(order: seq<string>, tags: map<string, string>, name: string) {
    forall code: map<int, Plain>, env: Env :: Script(PLAIN, code, order, tags).Sound() ==>
      Exact(order, tags, name, code, env)
  }

  ghost predicate Exact(order: seq<string>, tags: map<string, string>, name: string, code: map<int, Plain>, env: Env)
    requires Script(PLAIN, code, order, tags).Sound()
  {
    var r := Script(PLAIN, code, order, tags).From(0, env);
    name in r.updated <==> Lookup(r.env, name) != Lookup(env, name)
  }

  lemma ReportExact(order: seq<string>, tags: map<string, string>, name: string)
    requires Assignable(name) && name in tags
    ensures AlwaysExact(order, tags, name) <==> IdleScript(order, tags, map[]).AssignedOnce(name)
  {
    if IdleScript(order, tags, map[]).AssignedOnce(name) {
      forall code: map<int, Plain>, env: Env | Script(PLAIN, code, order, tags).Sound()
        ensures Exact(order, tags, name, code, env)
      {
        OnceReportedExactly(Script(PLAIN, code, order, tags), env, name);
      }
    } else {
      var code, env := RevertedYetReported(order, tags, name);
      assert Script(PLAIN, code, order, tags).Sound() && !Exact(order, tags, name, code, env);
    }
  }

  // ---- what a tick publishes ----

  function PointValue(env: Env, name: string): real {
    if name !in env then 0.0
    else match env[name]
      case Bool(b) => if b then 1.0 else 0.0
      case Int(i) => i as real
      case Float(x) => x
      case Str(_) => 0.0
  }

  predicate Speaks(tags: map<string, string>, name: string) {
    name != "" && name in tags
  }

  /** The points of some variables, by tag; of several under one tag the last counts. */
  function Points(tags: map<string, string>, names: seq<string>, env: Env): map<string, real> {
    if names == [] then map[]
    else
      var name := names[|names| - 1];
      var points := Points(tags, names[..|names| - 1], env);
      if Speaks(tags, name) then points[tags[name] := PointValue(env, name)] else points
  }

  /** The last of some variables under a tag. */
  function Speaker(tags: map<string, string>, names: seq<string>, t: string): Option<string> {
    if names == [] then None
    else
      var name := names[|names| - 1];
      if Speaks(tags, name) && tags[name] == t then Some(name) else Speaker(tags, names[..|names| - 1], t)
  }

  lemma {:induction false} PointsSpoken(tags: map<string, string>, names: seq<string>, env: Env, t: string)
    ensures var points := Points(tags, names, env);
            match Speaker(tags, names, t)
            case Some(name) => t in points && points[t] == PointValue(env, name)
            case None => t !in points
  {
    if names != [] {
      PointsSpoken(tags, names[..|names| - 1], env, t);
    }
  }

  lemma {:induction false} SpeakerIsNamed(tags: map<string, string>, names: seq<string>, t: string)
    ensures match Speaker(tags, names, t)
            case Some(name) => name in names && Speaks(tags, name) && tags[name] == t
            case None => forall name :: name in names && Speaks(tags, name) ==> tags[name] != t
  {
    if names != [] {
      var n := |names| - 1;
      assert names == names[..n] + [names[n]];
      SpeakerIsNamed(tags, names[..n], t);
    }
  }

  function Status<Code>(s: Script<Code>, env: Env): map<string, real>
    requires s.Sound()
  {
    Points(s.tags, s.order, s.From(0, env).env)
  }

  function Update<Code>(s: Script<Code>, env: Env): map<string, real>
    requires s.Sound()
  {
    var r := s.From(0, env);
    Points(s.tags, r.updated, r.env)
  }

  /** The number that a point carries for a variable: a text, or no value at all, counts as zero. */
  predicate Counts(value: Option<Value>, x: real) {
    match value
    case Some(Bool(b)) => if b then x == 1.0 else x == 0.0
    case Some(Int(i)) => x == i as real
    case Some(Float(y)) => x == y
    case Some(Str(_)) => x == 0.0
    case None => x == 0.0
  }

  /** The point under a tag is that of the last variable under it, with its value at the end of the run. */
  predicate SpokenBy(tags: map<string, string>, names: seq<string>, end: Env, points: map<string, real>, t: string) {
    match Speaker(tags, names, t)
    case Some(name) => t in points && Counts(Lookup(end, name), points[t])
    case None => t !in points
  }

  /**
   * What a tick publishes under each tag: in its status, the value of the last variable of the program under that tag,
   * as the run left it; in its update, the same of the variables that the run reports.
   */
  lemma ValuesPublished<Code>(s: Script<Code>, env: Env, t: string)
    requires s.Sound()
    ensures var r := s.From(0, env);
            && SpokenBy(s.tags, s.order, r.env, Status(s, env), t)
            && SpokenBy(s.tags, r.updated, r.env, Update(s, env), t)
  {
    var r := s.From(0, env);
    PointsSpoken(s.tags, s.order, r.env, t);
    PointsSpoken(s.tags, r.updated, r.env, t);
  }

  /**
   * Every variable that a program assigns is the last under its tag: what a tick reports of it cannot be hidden by
   * another.
   */
  predicate Heard(tags: map<string, string>, order: seq<string>) {
    forall name :: name in order && Speaks(tags, name) && !(OUTPUT <= name) ==>
      Speaker(tags, order, tags[name]) == Some(name)
  }

  /**
   * Where each assigned variable has its tag to itself, all that a tick sends as an update is in its status too, with
   * the same value.
   */
  lemma UpdateWithinStatus<Code>(s: Script<Code>, env: Env, t: string)
    requires s.Sound() && Heard(s.tags, s.order) && t in Update(s, env)
    ensures t in Status(s, env) && Status(s, env)[t] == Update(s, env)[t]
  {
    var r := s.From(0, env);
    PointsSpoken(s.tags, r.updated, r.env, t);
    SpeakerIsNamed(s.tags, r.updated, t);
    PointsSpoken(s.tags, s.order, r.env, t);
    var name := Speaker(s.tags, r.updated, t).value;
    ChangesAreReported(s, env, name);
  }

  /**
   * The condition is exact: for the variables and tags of any program where it fails, some code on its lines makes
   * a run send an update that contradicts the status of the same tick.
   */
  lemma HiddenUpdate(order: seq<string>, tags: map<string, string>) returns (code: map<int, Plain>, env: Env, t: string)
    requires !Heard(tags, order)
    ensures var s := Script(PLAIN, code, order, tags);
            s.Sound() && t in Update(s, env) && t in Status(s, env) && Update(s, env)[t] != Status(s, env)[t]
  {
    var name: string :|
      name in order && Speaks(tags, name) && !(OUTPUT <= name) && Speaker(tags, order, tags[name]) != Some(name);
    var i: nat :| i < |order| && order[i] == name;
    t := tags[name];
    code, env := Idle(order, map[i := Constant(Float(1.0))]), map[name := Float(0.0)];
    var end := env[name := Float(1.0)];
    OneConstant(order, tags, i, env, Float(1.0));
    SpeakerIsNamed(tags, order, t);
    assert Speaker(tags, [name], t) == Some(name);
    PointsSpoken(tags, [name], end, t);
    PointsSpoken(tags, order, end, t);
  }

  // ---- configuration ----

  /**
   * A line of the program element: a comment, a blank or anything else without effect; one that only logs; an
   * assignment; one that does not compile.
   */
  datatype Line<Code> = Skipped | Output(code: Code) | Assignment(left: string, code: Code) | Uncompiled

  /** A variable element; None for a text that is neither a number nor a truth value. */
  datatype Variable = Variable(name: string, tag: string, value: Option<Value>)

  function Digits(n: nat): string {
    var digit := ["0123456789"[n % 10]];
    if n < 10 then digit else Digits(n / 10) + digit
  }

  function NameOf<Code>(i: nat, line: Line<Code>): string {
    match line
    case Output(_) => OUTPUT + Digits(i)
    case Assignment(left, _) => left
    case _ => ""
  }

  ghost function Lefts<Code>(lines: seq<Line<Code>>): set<string> {
    set line | line in lines && line.Assignment? :: line.left
  }

  /** Variables that a program assigns start at zero, unless they are there already. */
  function WithZeros(env: Env, names: set<string>): Env {
    (map name | name in names :: Float(0.0)) + env
  }

  /** How many lines compile before the first that does not. */
  function Compiling<Code>(lines: seq<Line<Code>>): (n: nat)
    ensures n <= |lines| && (n < |lines| ==> lines[n].Uncompiled?) && forall i :: 0 <= i < n ==> !lines[i].Uncompiled?
  {
    if lines == [] || lines[0].Uncompiled? then 0 else 1 + Compiling(lines[1..])
  }

  /** The code of the first n lines. */
  function Codes<Code>(lines: seq<Line<Code>>, n: nat): map<int, Code>
    requires n <= |lines| && forall i :: 0 <= i < n ==> !lines[i].Uncompiled?
  {
    map i | 0 <= i < n && !lines[i].Skipped? :: lines[i].code
  }

  /** How many variables have a value before the first that has none. */
  function Valued(vars: seq<Variable>): (n: nat)
    ensures n <= |vars| && (n < |vars| ==> vars[n].value.None?) && forall i :: 0 <= i < n ==> vars[i].value.Some?
  {
    if vars == [] || vars[0].value.None? then 0 else 1 + Valued(vars[1..])
  }

  function VarTags(vars: seq<Variable>): map<string, string> {
    if vars == [] then map[] else VarTags(vars[..|vars| - 1])[vars[|vars| - 1].name := vars[|vars| - 1].tag]
  }

  function TagVars(vars: seq<Variable>): map<string, string> {
    if vars == [] then map[] else TagVars(vars[..|vars| - 1])[vars[|vars| - 1].tag := vars[|vars| - 1].name]
  }

  function VarValues(vars: seq<Variable>): Env {
    if vars == [] then map[]
    else
      var v := vars[|vars| - 1];
      var env := VarValues(vars[..|vars| - 1]);
      if v.value.Some? then env[v.name := v.value.value] else env
  }

  predicate Assigns<Code>(lines: seq<Line<Code>>, name: string) {
    exists i :: 0 <= i < |lines| && lines[i].Assignment? && lines[i].left == name
  }

  /** After a program each variable that it assigns is there: at zero, unless it had a value before. */
  lemma VariablesZeroed<Code>(env: Env, lines: seq<Line<Code>>, name: string)
    ensures Lookup(WithZeros(env, Lefts(lines)), name)
         == if name in env then Some(env[name]) else if Assigns(lines, name) then Some(Float(0.0)) else None
  {
    if Assigns(lines, name) {
      var i :| 0 <= i < |lines| && lines[i].Assignment? && lines[i].left == name;
      assert lines[i] in lines;
    }
  }

  /** The last element for a variable that has a value gives it. */
  lemma {:induction false} VariableValued(vars: seq<Variable>, i: nat)
    requires i < |vars| && vars[i].value.Some?
    requires forall j :: i < j < |vars| && vars[j].name == vars[i].name ==> vars[j].value.None?
    ensures Lookup(VarValues(vars), vars[i].name) == vars[i].value
  {
    if i < |vars| - 1 {
      VariableValued(vars[..|vars| - 1], i);
    }
  }

  function Numeral(s: string): nat {
    if s == [] then 0
    else
      var n := |s| - 1;
      10 * Numeral(s[..n]) + if '0' <= s[n] <= '9' then s[n] as int - '0' as int else 0
  }

  /** The lines that only log have names of their own, so that none can pass for another's. */
  lemma {:induction false} DigitsReadBack(n: nat)
    ensures Numeral(Digits(n)) == n
  {
    var s := Digits(n);
    if n < 10 {
      assert s[..0] == [];
    } else {
      assert s[..|s| - 1] == Digits(n / 10);
      DigitsReadBack(n / 10);
    }
  }

  lemma OutputsApart<Code>(i: nat, a: Line<Code>, j: nat, b: Line<Code>)
    requires a.Output? && b.Output? && i != j
    ensures OUTPUT <= NameOf(i, a) && OUTPUT <= NameOf(j, b) && NameOf(i, a) != NameOf(j, b)
  {
    hide Digits;
    DigitsReadBack(i);
    DigitsReadBack(j);
    assert NameOf(i, a)[|OUTPUT|..] == Digits(i) && NameOf(j, b)[|OUTPUT|..] == Digits(j);
  }

  /** It does not matter whether the program or the variables come first in the configuration. */
  lemma ZerosYield(env: Env, names: set<string>, values: Env)
    ensures WithZeros(env, names) + values == WithZeros(env + values, names)
  {
  }

  lemma PlusUpdate<K, V>(m: map<K, V>, n: map<K, V>, k: K, v: V)
    ensures m + n[k := v] == (m + n)[k := v]
  {
  }

  predicate DistinctNames(vars: seq<Variable>) {
    forall i, j :: 0 <= i < j < |vars| ==> vars[i].name != vars[j].name
  }

  predicate DistinctTags(vars: seq<Variable>) {
    forall i, j :: 0 <= i < j < |vars| ==> vars[i].tag != vars[j].tag
  }

  /** A variable's tag leads back to the variable. */
  predicate RoundTrips(vars: seq<Variable>, v: string)
    requires v in VarTags(vars)
  {
    var t := VarTags(vars)[v]; t in TagVars(vars) && TagVars(vars)[t] == v
  }

  /** The two tables are inverse to each other exactly when no two variables share a tag. */
  lemma TablesInverse(vars: seq<Variable>)
    requires DistinctNames(vars)
    ensures (forall v :: v in VarTags(vars) ==> RoundTrips(vars, v)) <==> DistinctTags(vars)
  {
    hide VarTags, TagVars;
    if forall v :: v in VarTags(vars) ==> RoundTrips(vars, v) {
      forall i, j | 0 <= i < j < |vars|
        ensures vars[i].tag != vars[j].tag
      {
        TagOfVariable(vars, i);
        TagOfVariable(vars, j);
        assert RoundTrips(vars, vars[i].name) && RoundTrips(vars, vars[j].name);
      }
    }
    if DistinctTags(vars) {
      forall v | v in VarTags(vars)
        ensures RoundTrips(vars, v)
      {
        var i := VariableOf(vars, v);
        TagOfVariable(vars, i);
        VariableOfTag(vars, i);
      }
    }
  }

  lemma {:induction false} TagOfVariable(vars: seq<Variable>, i: nat)
    requires i < |vars| && forall j :: i < j < |vars| ==> vars[j].name != vars[i].name
    ensures vars[i].name in VarTags(vars) && VarTags(vars)[vars[i].name] == vars[i].tag
  {
    if i < |vars| - 1 {
      TagOfVariable(vars[..|vars| - 1], i);
    }
  }

  lemma {:induction false} VariableOfTag(vars: seq<Variable>, i: nat)
    requires i < |vars| && forall j :: i < j < |vars| ==> vars[j].tag != vars[i].tag
    ensures vars[i].tag in TagVars(vars) && TagVars(vars)[vars[i].tag] == vars[i].name
  {
    if i < |vars| - 1 {
      VariableOfTag(vars[..|vars| - 1], i);
    }
  }

  lemma {:induction false} VariableOf(vars: seq<Variable>, v: string) returns (i: nat)
    requires v in VarTags(vars)
    ensures i < |vars| && vars[i].name == v
  {
    var n := |vars| - 1;
    if vars[n].name == v {
      i := n;
    } else {
      i := VariableOf(vars[..n], v);
    }
  }

  // ---- messages ----

  /** A message sets the variables of the tags it mentions, in order, always to floating-point values. */
  function Received(env: Env, vars: map<string, string>, points: seq<Point>): Env
    decreases points
  {
    if points == [] then env
    else if points[0].tag in vars then Received(env[vars[points[0].tag] := Float(points[0].value)], vars, points[1..])
    else Received(env, vars, points[1..])
  }

  predicate Reaches(vars: map<string, string>, q: Point, name: string) {
    q.tag in vars && vars[q.tag] == name
  }

  /** The last point for a variable decides its value; without one it keeps its own. */
  lemma {:induction false} ReceivedLast(env: Env, vars: map<string, string>, points: seq<Point>, i: nat, name: string)
    requires i <= |points| && forall j :: i < j < |points| ==> !Reaches(vars, points[j], name)
    ensures i < |points| && Reaches(vars, points[i], name) ==>
              Lookup(Received(env, vars, points), name) == Some(Float(points[i].value))
    ensures (forall j :: 0 <= j < |points| ==> !Reaches(vars, points[j], name)) ==>
              Lookup(Received(env, vars, points), name) == Lookup(env, name)
    decreases points
  {
    if points != [] {
      var rest := points[1..];
      assert forall j :: 0 <= j < |rest| ==> rest[j] == points[j + 1];
      var env' := if points[0].tag in vars then env[vars[points[0].tag] := Float(points[0].value)] else env;
      ReceivedLast(env', vars, rest, if i == 0 then |rest| else i - 1, name);
    }
  }

  // ---- the module ----

  class Logic<Code> {
    const name: string

    var program: map<int, Code>
    var order: seq<string>
    var env: Env
    var varToTag: map<string, string>
    var tagToVar: map<string, string>

    ghost function Loaded(run: Machine<Code>): Script<Code>
      reads this
    {
      Script(run, program, order, varToTag)
    }

    /** Every line with a name has code to run. */
    ghost predicate Valid()
      reads this
    {
      forall k :: 0 <= k < |order| && order[k] != "" ==> k in program
    }

    constructor (name: string)
      ensures Valid() && this.name == name && program == map[] && order == [] && env == map[] && varToTag == map[]
      ensures tagToVar == map[]
    {
      this.name := name;
      program, order, env, varToTag, tagToVar := map[], [], map[], map[], map[];
    }

    /** The program element. */
    method LoadProgram(lines: seq<Line<Code>>) returns (ok: bool)
      modifies this`program, this`order, this`env
      ensures Valid() && (ok <==> Compiling(lines) == |lines|)
      ensures |order| == |lines| && forall i :: 0 <= i < |lines| ==>
                order[i] == if i < Compiling(lines) then NameOf(i, lines[i]) else ""
      ensures program == old(program) + Codes(lines, Compiling(lines))
      ensures env == WithZeros(old(env), Lefts(lines[..Compiling(lines)]))
    {
      hide Digits, NameOf, Lefts, WithZeros, Codes, Compiling;
      NoCodes(program, lines);
      order := seq(|lines|, _ => "");
      NoLefts<Code>(env);
      assert lines[..0] == [];
      for i := 0 to |lines|
        invariant Valid() && |order| == |lines| && i <= Compiling(lines)
        invariant forall k :: 0 <= k < |lines| ==> order[k] == if k < i then NameOf(k, lines[k]) else ""
        invariant program == old(program) + Codes(lines, i)
        invariant env == WithZeros(old(env), Lefts(lines[..i]))
      {
        assert lines[..i + 1] == lines[..i] + [lines[i]];
        Loading(old(env), lines[..i], lines[i], i);
        CodesMore(old(program), lines, i);
        match lines[i] {
          case Skipped =>
          case Output(code) =>
            program := program[i := code];
            order := order[i := OUTPUT + Digits(i)];
          case Assignment(left, code) =>
            program := program[i := code];
            order := order[i := left];
            if left !in env {
              env := env[left := Float(0.0)];
            }
          case Uncompiled =>
            return false;
        }
      }
      assert lines[..|lines|] == lines;
      return true;
    }

    /** The variables element; an earlier one keeps its entries, as does the environment. */
    method LoadVariables(vars: seq<Variable>) returns (ok: bool)
      modifies this`env, this`varToTag, this`tagToVar
      ensures ok <==> Valued(vars) == |vars|
      ensures env == old(env) + VarValues(vars[..Valued(vars)])
      ensures var known := if ok then vars else vars[..Valued(vars) + 1];
              varToTag == old(varToTag) + VarTags(known) && tagToVar == old(tagToVar) + TagVars(known)
    {
      hide Valued;
      for i := 0 to |vars|
        invariant i <= Valued(vars) && env == old(env) + VarValues(vars[..i])
        invariant varToTag == old(varToTag) + VarTags(vars[..i]) && tagToVar == old(tagToVar) + TagVars(vars[..i])
      {
        var v := vars[i];
        assert vars[..i + 1][..i] == vars[..i] && vars[..i + 1][i] == v;
        PlusUpdate(old(varToTag), VarTags(vars[..i]), v.name, v.tag);
        PlusUpdate(old(tagToVar), TagVars(vars[..i]), v.tag, v.name);
        varToTag := varToTag[v.name := v.tag];
        tagToVar := tagToVar[v.tag := v.name];
        if v.value.None? { return false; }
        PlusUpdate(old(env), VarValues(vars[..i]), v.name, v.value.value);
        env := env[v.name := v.value.value];
      }
      assert vars[..|vars|] == vars;
      return true;
    }

    method Execute(run: Machine<Code>) returns (updated: seq<string>)
      requires Valid()
      modifies this`env
      ensures Outcome(updated, env) == Loaded(run).From(0, old(env))
    {
      updated := [];
      ghost var s := Loaded(run);
      for i := 0 to |order|
        invariant s == Loaded(run)
        invariant s.From(0, old(env)) == var rest := s.From(i, env); rest.(updated := updated + rest.updated)
      {
        var o := order[i];
        ghost var before, known, rest := env, updated, s.From(i + 1, s.After(i, env)).updated;
        assert known + ([o] + rest) == (known + [o]) + rest;
        if o == "" { continue; }
        var result := run(program[i], env, i);
        if result.None? { continue; }
        if OUTPUT <= o { continue; }
        if o in varToTag {
          if o !in env || result.value != env[o] {
            updated := updated + [o];
          }
        }
        env := env[o := result.value];
        assert env == s.After(i, before);
      }
    }

    /** One tick: what it publishes as status and as update; nothing is sent for an empty map. */
    method Tick(run: Machine<Code>) returns (status: map<string, real>, update: map<string, real>)
      requires Valid()
      modifies this`env
      ensures env == Loaded(run).From(0, old(env)).env
      ensures status == Status(Loaded(run), old(env)) && update == Update(Loaded(run), old(env))
    {
      var updated := Execute(run);
      status := Gather(order, varToTag, env);
      update := Gather(updated, varToTag, env);
    }

    method HandleMsgBusStatus(sender: string, status: Option<seq<Point>>)
      modifies this`env
      ensures env == if sender == name || status.None? then old(env) else Received(old(env), tagToVar, status.value)
    {
      if sender == name || status.None? { return; }
      var points := status.value;
      for i := 0 to |points|
        invariant Received(old(env), tagToVar, points) == Received(env, tagToVar, points[i..])
      {
        assert points[i..][1..] == points[i + 1..];
        if points[i].tag in tagToVar {
          env := env[tagToVar[points[i].tag] := Float(points[i].value)];
        }
      }
    }

    /** In use only where the configuration asks for updates to be processed. */
    method HandleMsgBusUpdate(sender: string, update: Option<seq<Point>>)
      modifies this`env
      ensures env == if sender == name || update.None? then old(env) else Received(old(env), tagToVar, update.value)
    {
      if sender == name || update.None? { return; }
      var points := update.value;
      for i := 0 to |points|
        invariant Received(old(env), tagToVar, points) == Received(env, tagToVar, points[i..])
      {
        assert points[i..][1..] == points[i + 1..];
        if points[i].tag in tagToVar {
          env := env[tagToVar[points[i].tag] := Float(points[i].value)];
        }
      }
    }
  }

  lemma NoCodes<Code>(program: map<int, Code>, lines: seq<Line<Code>>)
    ensures program + Codes(lines, 0) == program
  {
  }

  lemma CodesMore<Code>(program: map<int, Code>, lines: seq<Line<Code>>, i: nat)
    requires i < |lines| && forall k :: 0 <= k < i ==> !lines[k].Uncompiled?
    ensures !lines[i].Uncompiled? ==>
              program + Codes(lines, i + 1)
              == if lines[i].Skipped? then program + Codes(lines, i)
                else (program + Codes(lines, i))[i := lines[i].code]
  {
  }

  lemma NoLefts<Code>(env: Env)
    ensures WithZeros(env, Lefts<Code>([])) == env
  {
  }

  /** What one more line makes of the names and of the environment. */
  lemma Loading<Code>(env: Env, lines: seq<Line<Code>>, line: Line<Code>, i: nat)
    ensures NameOf(i, line)
       == match line case Output(_) => OUTPUT + Digits(i) case Assignment(left, _) => left case _ => ""
    ensures var e := WithZeros(env, Lefts(lines)); var e' := WithZeros(env, Lefts(lines + [line]));
            e' == if line.Assignment? && line.left !in e then e[line.left := Float(0.0)] else e
  {
    LeftsMore(lines, line);
    hide Lefts;
    if line.Assignment? {
      ZerosMore(env, Lefts(lines), line.left);
    }
  }

  lemma LeftsMore<Code>(lines: seq<Line<Code>>, line: Line<Code>)
    ensures Lefts(lines + [line]) == if line.Assignment? then Lefts(lines) + {line.left} else Lefts(lines)
  {
    assert forall l :: l in lines + [line] <==> l in lines || l == line;
    if line.Assignment? {
      assert line in lines + [line];
    }
  }

  lemma ZerosMore(env: Env, names: set<string>, name: string)
    ensures var e := WithZeros(env, names);
            WithZeros(env, names + {name}) == (if name in e then e else e[name := Float(0.0)])
  {
  }

  /** The loops of a tick that collect points by tag. */
  method Gather(names: seq<string>, tags: map<string, string>, env: Env) returns (points: map<string, real>)
    ensures points == Points(tags, names, env)
  {
    points := map[];
    for i := 0 to |names|
      invariant points == Points(tags, names[..i], env)
    {
      assert names[..i + 1][..i] == names[..i];
      var o := names[i];
      if o == "" { continue; }
      if o !in tags { continue; }
      points := points[tags[o] := PointValue(env, o)];
    }
    assert names[..|names|] == names;
  }
}
