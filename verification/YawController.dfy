/**
 * The wind turbine's yaw controller: a four-line program for the logic module that turns the nacelle towards a set
 * point.
 */
module YawController {
  import opened Decimal
  import opened LogicEngine
  import opened MessageBus

  // ---- the expressions that the program needs ----

  datatype Operator = Equal | Unequal | Greater | Plus | Product

  datatype Expr =
    | Const(v: Value)
    | Var(name: string)
    | Cond(test: Expr, yes: Expr, no: Expr)
    | Binary(op: Operator, left: Expr, right: Expr)

  predicate Numeric(v: Value) {
    v.Int? || v.Float?
  }

  function Number(v: Value): real
    requires Numeric(v)
  {
    if v.Int? then v.i as real else v.x
  }

  /** Numbers compare by value across the two numeric types. */
  predicate SameValue(v: Value, w: Value) {
    if Numeric(v) && Numeric(w) then Number(v) == Number(w) else v == w
  }

  /** The arithmetic of two whole numbers is whole; any other is in floating point. */
  function Apply(op: Operator, v: Value, w: Value): Option<Value> {
    if op.Equal? then Some(Bool(SameValue(v, w)))
    else if op.Unequal? then Some(Bool(!SameValue(v, w)))
    else if !Numeric(v) || !Numeric(w) then None
    else if op.Greater? then Some(Bool(Number(v) > Number(w)))
    else if v.Int? && w.Int? then Some(Int(if op.Plus? then v.i + w.i else v.i * w.i))
    else Some(Float(if op.Plus? then Number(v) + Number(w) else Times(Number(v), Number(w))))
  }

  /** Sums and products are those of the numbers, and whole exactly if both sides are; nothing else has any. */
  lemma Arithmetic(op: Operator, v: Value, w: Value)
    requires op == Plus || op == Product
    ensures Apply(op, v, w).Some? <==> Numeric(v) && Numeric(w)
    ensures Numeric(v) && Numeric(w) ==>
              var r := Apply(op, v, w).value;
              && Numeric(r) && (r.Int? <==> v.Int? && w.Int?)
              && Number(r) == if op == Plus then Number(v) + Number(w) else Times(Number(v), Number(w))
  {
    if v.Int? && w.Int? {
      IntegerProduct(v.i, w.i);
    }
  }

  function Eval(e: Expr, env: Env): Option<Value> {
    match e
    case Const(v) => Some(v)
    case Var(name) => Lookup(env, name)
    case Cond(test, yes, no) =>
      var t := Eval(test, env);
      if t.Some? && t.value.Bool? then (if t.value.b then Eval(yes, env) else Eval(no, env)) else None
    case Binary(op, left, right) =>
      var l, r := Eval(left, env), Eval(right, env);
      if l.Some? && r.Some? then Apply(op, l.value, r.value) else None
  }

  // ---- the program ----

  const CURRENT := "current_yaw"
  const SETPOINT := "yaw_setpoint"
  const ADJUST := "adjust"
  const DIR := "dir"
  const CURRENT_TAG := "yaw.current"
  const SETPOINT_TAG := "yaw.setpoint"

  const JUMP := Cond(Binary(Equal, Var(CURRENT), Const(Int(0))), Var(SETPOINT), Var(CURRENT))
  const DIFFERS := Binary(Unequal, Var(SETPOINT), Var(CURRENT))
  const TOWARDS := Cond(Binary(Greater, Var(SETPOINT), Var(CURRENT)), Const(Int(1)), Const(Int(-1)))
  const TURN :=
    Cond(Var(ADJUST), Binary(Plus, Var(CURRENT), Binary(Product, Var(DIR), Const(Float(0.1)))), Var(CURRENT))

  const LINES: seq<Line<Expr>> := [
    Skipped, Assignment(CURRENT, JUMP), Assignment(ADJUST, DIFFERS),
    Assignment(DIR, TOWARDS), Assignment(CURRENT, TURN), Skipped]

  const VARIABLES: seq<Variable> := [
    Variable(CURRENT, CURRENT_TAG, Some(Float(0.0))), Variable(SETPOINT, SETPOINT_TAG, Some(Float(0.0)))]

  const RUN: Machine<Expr> := (e: Expr, env: Env, k: nat) => Eval(e, env)

  /** A logic module that has loaded the yaw program. */
  ghost predicate IsYaw(s: Script<Expr>) {
    && s.run == RUN && s.order == ["", CURRENT, ADJUST, DIR, CURRENT, ""]
    && (forall k :: 1 <= k <= 4 ==> k in s.code && s.code[k] == LINES[k].code)
    && CURRENT in s.tags && s.tags[CURRENT] == CURRENT_TAG && ADJUST !in s.tags && DIR !in s.tags
  }

  /** Both angles are known, as floating-point numbers: so configured, and so kept by messages and by the program. */
  predicate Angles(env: Env, c: real, s: real) {
    Lookup(env, CURRENT) == Some(Float(c)) && Lookup(env, SETPOINT) == Some(Float(s))
  }

  lemma DistinctVariables()
    ensures CURRENT != SETPOINT && CURRENT != ADJUST && CURRENT != DIR && SETPOINT != ADJUST && SETPOINT != DIR
    ensures ADJUST != DIR
    ensures CURRENT_TAG != SETPOINT_TAG
  {
    assert |CURRENT| == 11 && |SETPOINT| == 12 && |ADJUST| == 6 && |DIR| == 3;
    assert |CURRENT_TAG| == 11 && |SETPOINT_TAG| == 12;
  }

  method Configured() returns (l: Logic<Expr>)
    ensures fresh(l) && l.Valid() && IsYaw(l.Loaded(RUN)) && Angles(l.env, 0.0, 0.0)
    ensures l.tagToVar == map[CURRENT_TAG := CURRENT, SETPOINT_TAG := SETPOINT]
  {
    hide VarTags, TagVars, VarValues, WithZeros, Digits, Compiling, Codes, Valued, NameOf, Lefts, IsYaw, Angles;
    LinesLoaded();
    l := new Logic("yaw-controller");
    var ok := l.LoadProgram(LINES);
    ghost var zeroed := l.env;
    assert VARIABLES[..2] == VARIABLES;
    ok := l.LoadVariables(VARIABLES);
    LoadsProgram(l.program, l.order, l.varToTag);
    LoadsVariables(zeroed, l.env, l.tagToVar);
  }

  lemma LoadsProgram(program: map<int, Expr>, order: seq<string>, varToTag: map<string, string>)
    requires |order| == 6 && forall i :: 0 <= i < 6 ==> order[i] == NameOf(i, LINES[i])
    requires program == map[] + Codes(LINES, 6) && varToTag == map[] + VarTags(VARIABLES)
    ensures IsYaw(Script(RUN, program, order, varToTag))
  {
    hide VarTags, TagVars, VarValues, Codes, NameOf;
    LinesLoaded();
    TablesLoaded();
    DistinctVariables();
    assert order == ["", CURRENT, ADJUST, DIR, CURRENT, ""];
  }

  lemma LoadsVariables(zeroed: Env, env: Env, tagToVar: map<string, string>)
    requires env == zeroed + VarValues(VARIABLES) && tagToVar == map[] + TagVars(VARIABLES)
    ensures Angles(env, 0.0, 0.0) && tagToVar == map[CURRENT_TAG := CURRENT, SETPOINT_TAG := SETPOINT]
  {
    hide VarTags, TagVars, VarValues;
    TablesLoaded();
    DistinctVariables();
  }

  lemma LinesLoaded()
    ensures Compiling(LINES) == |LINES| == 6 && Valued(VARIABLES) == |VARIABLES| == 2
    ensures forall k :: 1 <= k <= 4 ==> k in Codes(LINES, 6) && Codes(LINES, 6)[k] == LINES[k].code
    ensures NameOf(0, LINES[0]) == NameOf(5, LINES[5]) == "" && NameOf(1, LINES[1]) == NameOf(4, LINES[4]) == CURRENT
    ensures NameOf(2, LINES[2]) == ADJUST && NameOf(3, LINES[3]) == DIR
  {
  }

  lemma TablesLoaded()
    ensures VarTags(VARIABLES) == map[CURRENT := CURRENT_TAG, SETPOINT := SETPOINT_TAG]
    ensures TagVars(VARIABLES) == map[CURRENT_TAG := CURRENT, SETPOINT_TAG := SETPOINT]
    ensures VarValues(VARIABLES) == map[CURRENT := Float(0.0), SETPOINT := Float(0.0)]
  {
    var first := VARIABLES[..1];
    assert first == [VARIABLES[0]] && first[..0] == [];
    assert VarTags(first) == map[CURRENT := CURRENT_TAG] && TagVars(first) == map[CURRENT_TAG := CURRENT];
    assert VarValues(first) == map[CURRENT := Float(0.0)];
  }

  // ---- one tick ----

  /** Where one tick turns the nacelle: a yaw of exactly zero counts as unset and jumps to the set point. */
  function YawStep(c: real, s: real): real {
    var from := if c == 0.0 then s else c;
    if from == s then s else if s > from then from + 0.1 else from - 0.1
  }

  lemma LineRuns(s: Script<Expr>, env: Env, k: nat)
    requires IsYaw(s) && 1 <= k <= 4
    ensures s.Sound() && s.Assigned(k, env) == Eval(LINES[k].code, env)
  {
    assert s.order[k] in [CURRENT, ADJUST, DIR];
    assert s.order[k][0] != OUTPUT[0];
  }

  /** One run of the four lines. */
  lemma ProgramRuns(s: Script<Expr>, env: Env, c: real, g: real)
    requires IsYaw(s) && Angles(env, c, g)
    ensures s.Sound() && Angles(s.From(0, env).env, YawStep(c, g), g)
    ensures s.From(0, env).updated == if YawStep(c, g) == c then [] else [CURRENT]
  {
    hide Eval;
    DistinctVariables();
    LineRuns(s, env, 1);
    JumpValue(env, c, g);
    var from := if c == 0.0 then g else c;
    var e1 := env[CURRENT := Float(from)];
    LineRuns(s, e1, 2);
    CompareValues(e1, from, g);
    var e2 := e1[ADJUST := Bool(g != from)];
    LineRuns(s, e2, 3);
    CompareValues(e2, from, g);
    var e3 := e2[DIR := Int(if g > from then 1 else -1)];
    LineRuns(s, e3, 4);
    TurnValue(e3, from, g);
    var e4 := e3[CURRENT := Float(YawStep(c, g))];
    var turned := if YawStep(c, g) == from then [] else [CURRENT];
    assert s.From(6, e4) == Outcome([], e4);
    assert s.From(5, e4) == Outcome([], e4) by { assert s.After(5, e4) == e4; }
    assert s.From(4, e3) == Outcome(turned, e4) by { assert s.After(4, e3) == e4; }
    assert s.From(3, e2) == Outcome(turned, e4) by { assert s.After(3, e2) == e3; }
    assert s.From(2, e1) == Outcome(turned, e4) by { assert s.After(2, e1) == e2; }
    assert s.From(1, env) == Outcome(if from == c then turned else [CURRENT], e4) by { assert s.After(1, env) == e1; }
    assert s.After(0, env) == env;
  }

  lemma PointsMore(tags: map<string, string>, names: seq<string>, name: string, env: Env)
    ensures Points(tags, names + [name], env)
         == if Speaks(tags, name) then Points(tags, names, env)[tags[name] := PointValue(env, name)]
           else Points(tags, names, env)
  {
    assert (names + [name])[..|names|] == names;
  }

  /**
   * The program turns the nacelle one step and leaves the set point alone; what it reports is the new angle, as an
   * update too iff it moved.
   */
  lemma TickTurns(s: Script<Expr>, env: Env, c: real, g: real)
    requires IsYaw(s) && Angles(env, c, g)
    ensures s.Sound() && Angles(s.From(0, env).env, YawStep(c, g), g)
    ensures Status(s, env) == map[CURRENT_TAG := YawStep(c, g)]
    ensures Update(s, env) == if YawStep(c, g) == c then map[] else map[CURRENT_TAG := YawStep(c, g)]
  {
    hide Points, Eval;
    ProgramRuns(s, env, c, g);
    var r := s.From(0, env);
    var only := map[CURRENT_TAG := YawStep(c, g)];
    assert |CURRENT| == 11;
    NoPoints(s.tags, r.env);
    PointsMore(s.tags, [], CURRENT, r.env);
    assert [] + [CURRENT] == [CURRENT];
    PointsMore(s.tags, [], "", r.env);
    assert [] + [""] == [""];
    PointsMore(s.tags, [""], CURRENT, r.env);
    assert [""] + [CURRENT] == ["", CURRENT];
    PointsMore(s.tags, ["", CURRENT], ADJUST, r.env);
    assert ["", CURRENT] + [ADJUST] == ["", CURRENT, ADJUST];
    PointsMore(s.tags, ["", CURRENT, ADJUST], DIR, r.env);
    assert ["", CURRENT, ADJUST] + [DIR] == ["", CURRENT, ADJUST, DIR];
    assert Points(s.tags, ["", CURRENT, ADJUST, DIR], r.env) == only;
    PointsMore(s.tags, ["", CURRENT, ADJUST, DIR], CURRENT, r.env);
    assert ["", CURRENT, ADJUST, DIR] + [CURRENT] == ["", CURRENT, ADJUST, DIR, CURRENT];
    PointsMore(s.tags, ["", CURRENT, ADJUST, DIR, CURRENT], "", r.env);
    assert s.order == ["", CURRENT, ADJUST, DIR, CURRENT] + [""];
  }

  lemma NoPoints(tags: map<string, string>, env: Env)
    ensures Points(tags, [], env) == map[]
  {
  }

  lemma JumpValue(env: Env, c: real, g: real)
    requires Angles(env, c, g)
    ensures Eval(JUMP, env) == Some(Float(if c == 0.0 then g else c))
  {
    assert Eval(Var(CURRENT), env) == Some(Float(c)) && Eval(Const(Int(0)), env) == Some(Int(0));
    assert Eval(JUMP.test, env) == Some(Bool(c == 0.0));
  }

  lemma CompareValues(env: Env, from: real, g: real)
    requires Angles(env, from, g)
    ensures Eval(DIFFERS, env) == Some(Bool(g != from))
    ensures Eval(TOWARDS, env) == Some(Int(if g > from then 1 else -1))
  {
    assert Eval(Var(CURRENT), env) == Some(Float(from)) && Eval(Var(SETPOINT), env) == Some(Float(g));
    assert Eval(TOWARDS.test, env) == Some(Bool(g > from));
  }

  lemma TurnValue(env: Env, from: real, g: real)
    requires Lookup(env, CURRENT) == Some(Float(from)) && Lookup(env, ADJUST) == Some(Bool(g != from))
    requires Lookup(env, DIR) == Some(Int(if g > from then 1 else -1))
    ensures Eval(TURN, env) == Some(Float(if g == from then from else if g > from then from + 0.1 else from - 0.1))
  {
    var d := if g > from then 1 else -1;
    assert Eval(Var(DIR), env) == Some(Int(d)) && Eval(Const(Float(0.1)), env) == Some(Float(0.1));
    assert Eval(TURN.yes.right, env) == Some(Float(Times(d as real, 0.1)));
    assert Eval(Var(CURRENT), env) == Some(Float(from)) && Eval(Var(ADJUST), env) == Some(Bool(g != from));
    assert Eval(TURN.yes, env) == Some(Float(from + Times(d as real, 0.1)));
  }

  // ---- many ticks ----

  /** The nacelle after n ticks. */
  function Yaw(c: real, g: real, n: nat): real {
    if n == 0 then c else YawStep(Yaw(c, g, n - 1), g)
  }

  /** The environment after n ticks without a message in between. */
  function Ticks(s: Script<Expr>, env: Env, n: nat): Env
    requires s.Sound()
  {
    if n == 0 then env else s.From(0, Ticks(s, env, n - 1)).env
  }

  /** Running the program tick by tick is iterating the step. */
  lemma {:induction false} TicksTurn(s: Script<Expr>, env: Env, c: real, g: real, n: nat)
    requires IsYaw(s) && s.Sound() && Angles(env, c, g)
    ensures Angles(Ticks(s, env, n), Yaw(c, g, n), g)
  {
    if n > 0 {
      TicksTurn(s, env, c, g, n - 1);
      ProgramRuns(s, Ticks(s, env, n - 1), Yaw(c, g, n - 1), g);
    }
  }

  function Gap(c: real, g: real): real {
    Abs(g - c)
  }

  /** Whole steps that fit into the gap. */
  function Steps(c: real, g: real): (k: nat)
    ensures k as real <= 10.0 * Gap(c, g) < k as real + 1.0
  {
    (10.0 * Gap(c, g)).Floor
  }

  /** x further towards the set point. */
  function Towards(c: real, g: real, x: real): real {
    if g > c then c + x else c - x
  }

  predicate PassesZero(c: real, g: real, n: nat) {
    exists j: nat :: j < n && Yaw(c, g, j) == 0.0
  }

  lemma PassesZeroMore(c: real, g: real, n: nat)
    ensures PassesZero(c, g, n + 1) <==> PassesZero(c, g, n) || Yaw(c, g, n) == 0.0
  {
  }

  /**
   * Until it passes through zero, the nacelle approaches in steps of a tenth, up to and including the first one past
   * the set point.
   */
  lemma {:induction false} Approach(c: real, g: real, n: nat)
    requires n <= Steps(c, g) + 1 && !PassesZero(c, g, n)
    requires n as real <= 10.0 * Gap(c, g) + 1.0 && forall j: nat :: j < n ==> Yaw(c, g, j) != g
    ensures Yaw(c, g, n) == Towards(c, g, n as real / 10.0)
  {
    if n > 0 {
      assert Yaw(c, g, n - 1) != 0.0;
      PassesZeroMore(c, g, n - 1);
      Approach(c, g, n - 1);
    }
  }

  lemma {:induction false} StaysNear(c: real, g: real, n: nat)
    ensures Gap(Yaw(c, g, n), g) < 0.1 || Gap(Yaw(c, g, n), g) == Gap(c, g) - n as real / 10.0
  {
    if n > 0 {
      StaysNear(c, g, n - 1);
    }
  }

  /**
   * Convergence. From any angle to any set point the gap is below a tenth after the whole steps that fit into
   * it, and in every tick from then on; and it takes exactly that many, unless the nacelle passes through zero.
   */
  lemma Converges(c: real, g: real, n: nat)
    ensures n >= Steps(c, g) ==> Gap(Yaw(c, g, n), g) < 0.1
    ensures n < Steps(c, g) && !PassesZero(c, g, n) ==> Gap(Yaw(c, g, n), g) >= 0.1
  {
    StaysNear(c, g, n);
    if n < Steps(c, g) && !PassesZero(c, g, n) {
      NotThere(c, g, n);
      Approach(c, g, n);
    }
  }

  lemma {:induction false} NotThere(c: real, g: real, n: nat)
    requires n <= Steps(c, g) && n as real <= 10.0 * Gap(c, g) && !PassesZero(c, g, n)
    ensures forall j: nat :: j < n ==> Yaw(c, g, j) != g
  {
    if n > 0 {
      PassesZeroMore(c, g, n - 1);
      NotThere(c, g, n - 1);
      Approach(c, g, n - 1);
    }
  }

  /**
   * A whole number of steps leads from c to zero, in the direction of the set point and no more than one step past it.
   */
  predicate ReachesZero(c: real, g: real) {
    c == 0.0 || (Whole(10.0 * Abs(c)) && (c < 0.0 <==> g > c) && 10.0 * Abs(c) <= Steps(c, g) as real + 1.0)
  }

  predicate Settles(c: real, g: real) {
    Whole(10.0 * Gap(c, g)) || ReachesZero(c, g)
  }

  /**
   * The nacelle comes to rest on the set point exactly when it is a whole number of tenths away, or the way
   * leads through zero; from everywhere else it turns forever.
   */
  lemma ComesToRest(c: real, g: real)
    ensures (exists n: nat :: Yaw(c, g, n) == g) <==> Settles(c, g)
  {
    if Settles(c, g) {
      var j: nat := if Whole(10.0 * Gap(c, g)) then Steps(c, g) else Trunc(10.0 * Abs(c));
      var n := RestsBy(c, g, j);
    } else {
      forall n: nat
        ensures Yaw(c, g, n) != g
      {
        TurnsForever(c, g, n);
      }
    }
  }

  /** If j steps lead to the set point or to zero, then the nacelle comes to rest. */
  lemma RestsBy(c: real, g: real, j: nat) returns (n: nat)
    requires j <= Steps(c, g) + 1
    requires Towards(c, g, j as real / 10.0) == g || Towards(c, g, j as real / 10.0) == 0.0
    ensures Yaw(c, g, n) == g
  {
    if i: nat :| i < j && Yaw(c, g, i) == g {
      n := i;
    } else if i: nat :| i < j && Yaw(c, g, i) == 0.0 {
      n := i + 1;
    } else {
      Approach(c, g, j);
      n := if Yaw(c, g, j) == g then j else j + 1;
    }
  }

  /**
   * Where the nacelle is after n ticks when it never settles: approaching, and then to and fro across the set point.
   */
  function Place(c: real, g: real, n: nat): real {
    var k := Steps(c, g);
    if n <= k || (n - k) % 2 == 0 then Towards(c, g, (if n <= k then n else k) as real / 10.0)
    else Towards(c, g, (k + 1) as real / 10.0)
  }

  lemma {:induction false} TurnsForever(c: real, g: real, n: nat)
    requires !Settles(c, g)
    ensures Yaw(c, g, n) == Place(c, g, n) && Yaw(c, g, n) != g && Yaw(c, g, n) != 0.0
  {
    var k := Steps(c, g);
    if n > 0 {
      TurnsForever(c, g, n - 1);
    }
    OffTheMark(c, g, if n <= k then n else if (n - k) % 2 == 0 then k else k + 1);
    OffTheMark(c, g, k);
  }

  lemma OffTheMark(c: real, g: real, j: nat)
    requires !Settles(c, g) && j <= Steps(c, g) + 1
    ensures var x := Towards(c, g, j as real / 10.0); x != g && x != 0.0
  {
    TruncWhole(j);
  }
}
