/**
 * The reference semantics of the tree-walking evaluator, as pure functions.
 *
 * A thrown runtime error, a `Return` unwinding to its call, and normal
 * completion are the three `Outcome`s; a fourth, `OutOfFuel`, marks a
 * computation cut off by the fuel bound, which is spent one unit per loop
 * iteration and per call of a Lox function.  The resolver's table `locals`
 * (Variable node id to scope distance), the foreign functions and the host
 * coercions are inputs in `Ctx`.
 */
module Semantics {
  import opened Wrappers
  import opened Ast
  import opened Values
  import opened Scopes
  import Text

  /** The interpreter's mutable state: all environments, the current one, instance fields, printed values. */
  datatype State = State(frames: seq<Frame>, env: nat, instances: seq<map<string, Value>>, output: seq<Value>)

  datatype Outcome =
    | Normal(value: Value)
      /** A `ReturnErr` in flight. */
    | Returning(value: Value)
      /** A thrown `Error` (or host `TypeError`) with its message. */
    | Error(msg: string)
    | OutOfFuel

  datatype Res = Res(out: Outcome, st: State)

  /** The evaluated arguments of a call, or the outcome that stopped their evaluation. */
  datatype ArgsRes = ArgsRes(stop: Option<Outcome>, values: seq<Value>, st: State)

  /** What the evaluator takes from outside: the resolver's output and the host. */
  datatype Ctx = Ctx(locals: map<nat, nat>, foreign: (nat, seq<Value>) -> Value, coerce: Coerce)

  /**
   * The host values never include a Lox function: `clock` and JavaScript's
   * coercions yield numbers, strings and booleans.
   */
  ghost predicate HostValues(foreign: (nat, seq<Value>) -> Value, coerce: Coerce)
  {
    (forall id, args :: !foreign(id, args).LoxFunction?) &&
    (forall op, a, b :: !coerce(op, a, b).LoxFunction?)
  }

  /** The value an outcome carries, if any, names only the first `n` frames. */
  predicate OutcomeIn(o: Outcome, n: nat)
  {
    (o.Normal? || o.Returning?) ==> ClosureIn(o.value, n)
  }

  /** `globals` is the first environment created. */
  const Globals: nat := 0

  const NotCallable := "Can only call functions and classes."
  const NotInstance := "Only instances have properties."
  /** The host `TypeError` of `stmt.name.value` for a `var` whose name token is missing. */
  const NoName := "Cannot read properties of undefined (reading 'value')"

  function ArityMessage(arity: nat, count: nat): string
  {
    "Expected " + Text.NatToString(arity) + " arguments but got " + Text.NatToString(count) + "."
  }

  /** The state the interpreter's constructor builds: `globals` holding `clock`, a foreign function of arity 0. */
  function InitialState(): (r: State)
    ensures r.frames == [Frame(map["clock" := ForeignFunction(0, 0)], None)] && r.env == Globals
  {
    State([Frame(map["clock" := ForeignFunction(0, 0)], None)], Globals, [], [])
  }

  function ResultOutcome(r: Result<Value>): (o: Outcome)
    ensures r.Success? ==> o == Normal(r.value)
    ensures r.Failure? ==> o == Error(r.error)
  {
    match r
    case Success(v) => Normal(v)
    case Failure(m) => Error(m)
  }

  /** `lookUpVariable`: `getAt(distance)` from the current environment when the resolver recorded a distance, else `globals.get`. */
  function LookUp(ctx: Ctx, st: State, name: string, id: nat): Outcome
  {
    if id in ctx.locals then ResultOutcome(GetAt(st.frames, st.env, ctx.locals[id], name))
    else ResultOutcome(Scopes.Get(st.frames, Globals, name))
  }

  /** `fields.get(name) || nil`. */
  function Field(instances: seq<map<string, Value>>, ref: nat, name: string): (r: Value)
    ensures !JsFalsy(r) || r.Nil?
  {
    if ref < |instances| && name in instances[ref] && !JsFalsy(instances[ref][name]) then instances[ref][name]
    else Nil
  }

  /** `callee instanceof LoxFunction || ... ForeignFunction || ... LoxClass`. */
  predicate Callable(v: Value)
  {
    v.LoxFunction? || v.ForeignFunction? || v.LoxClass?
  }

  /** `fn.arity`: the parameter count, a foreign function's declared arity, 0 for a class. */
  function Arity(v: Value): nat
  {
    match v
    case LoxFunction(_, params, _, _) => |params|
    case ForeignFunction(_, arity) => arity
    case _ => 0
  }

  /** What `LoxFunction.call` returns given how its body ended: the `catch` turns every throw into `.value`. */
  function CallResult(out: Outcome): (r: Outcome)
    ensures out.Normal? ==> r == Normal(Nil)
    ensures out.Returning? ==> r == Normal(out.value)
    ensures out.Error? ==> r == Normal(Undefined)
    ensures out.OutOfFuel? <==> r.OutOfFuel?
  {
    match out
    case Normal(_) => Normal(Nil)
    case Returning(v) => Normal(v)
    case Error(_) => Normal(Undefined)
    case OutOfFuel => OutOfFuel
  }

  /** The parameter loop of `LoxFunction.call`: `environment.define(params[i].value, args[i])` for `i` from `from` on. */
  function BindParams(frames: seq<Frame>, env: nat, params: seq<Token>, args: seq<Value>, from: nat): (r: seq<Frame>)
    requires from <= |params|
    ensures |r| == |frames|
    ensures forall i | 0 <= i < |frames| && i != env :: r[i] == frames[i]
    ensures env < |frames| ==> r[env].enclosing == frames[env].enclosing
    decreases |params| - from
  {
    if from == |params| then frames
    else BindParams(Define(frames, env, params[from].value, if from < |args| then args[from] else Undefined), env, params, args, from + 1)
  }

  // ---------------------------------------------------------------------------
  // Evaluation

  /** `evaluate(expr)`: expressions never complete with a `Return`, and leave the current environment as they found it. */
  function EvalExpr(ctx: Ctx, fuel: nat, e: Expr, st: State): (r: Res)
    ensures r.st.env == st.env
    ensures !r.out.Returning?
    decreases fuel, ExprSize(e), 1
  {
    match e
    case Literal(l) => Res(Normal(LitValue(l)), st)
    case Grouping(x) => EvalExpr(ctx, fuel, x, st)
    case Unary(op, x) =>
      var a := EvalExpr(ctx, fuel, x, st);
      if !a.out.Normal? then a else Res(Normal(UnaryOp(ctx.coerce, op.value, a.out.value)), a.st)
    case Binary(l, op, x) =>
      var a := EvalExpr(ctx, fuel, l, st);
      if !a.out.Normal? then a
      else
        var b := EvalExpr(ctx, fuel, x, a.st);
        if !b.out.Normal? then b else Res(Normal(BinaryOp(ctx.coerce, op.value, a.out.value, b.out.value)), b.st)
    case Logical(l, op, x) =>
      var a := EvalExpr(ctx, fuel, l, st);
      if !a.out.Normal? then a
      else if op.value == "or" then (if IsTruthy(a.out.value) then a else EvalExpr(ctx, fuel, x, a.st))
      else (if !IsTruthy(a.out.value) then a else EvalExpr(ctx, fuel, x, a.st))
    case Variable(name, id) => Res(LookUp(ctx, st, name.value, id), st)
    case Assign(name, x) =>
      var a := EvalExpr(ctx, fuel, x, st);
      if !a.out.Normal? then a
      else
        (match Scopes.Assign(a.st.frames, a.st.env, name.value, a.out.value)
         case Failure(m) => Res(Error(m), a.st)
         case Success(fs) => Res(a.out, a.st.(frames := fs)))
    case Call(callee, _, args) =>
      var c := EvalExpr(ctx, fuel, callee, st);
      if !c.out.Normal? then c
      else
        var a := EvalArgs(ctx, fuel, args, c.st);
        if a.stop.Some? then Res(a.stop.value, a.st) else CheckedCall(ctx, fuel, c.out.value, a.values, a.st)
    case Get(obj, name) =>
      var o := EvalExpr(ctx, fuel, obj, st);
      if !o.out.Normal? then o
      else if o.out.value.LoxInstance? then Res(Normal(Field(o.st.instances, o.out.value.ref, name.value)), o.st)
      else Res(Error(NotInstance), o.st)
  }

  /** The `args.push(this.evaluate(argument))` loop: left to right, stopping at the first abrupt outcome. */
  function EvalArgs(ctx: Ctx, fuel: nat, args: seq<Expr>, st: State): (r: ArgsRes)
    ensures r.st.env == st.env
    ensures r.stop.None? ==> |r.values| == |args|
    ensures r.stop.Some? ==> !r.stop.value.Normal? && !r.stop.value.Returning?
    decreases fuel, ExprsSize(args), 2
  {
    if args == [] then ArgsRes(None, [], st)
    else
      var a := EvalExpr(ctx, fuel, args[0], st);
      if !a.out.Normal? then ArgsRes(Some(a.out), [], a.st)
      else
        var rest := EvalArgs(ctx, fuel, args[1..], a.st);
        if rest.stop.Some? then rest else ArgsRes(None, [a.out.value] + rest.values, rest.st)
  }

  /** The checks of `visitCallExpr` after the callee and the arguments are evaluated, then `fn.call`. */
  function CheckedCall(ctx: Ctx, fuel: nat, callee: Value, args: seq<Value>, st: State): (r: Res)
    ensures r.st.env == st.env
    ensures !r.out.Returning?
    ensures !Callable(callee) ==> r == Res(Error(NotCallable), st)
    ensures Callable(callee) && |args| != Arity(callee) ==> r == Res(Error(ArityMessage(Arity(callee), |args|)), st)
    decreases fuel, 0, 1
  {
    if !Callable(callee) then Res(Error(NotCallable), st)
    else if |args| != Arity(callee) then Res(Error(ArityMessage(Arity(callee), |args|)), st)
    else CallValue(ctx, fuel, callee, args, st)
  }

  /**
   * `fn.call(this, args)`.  A Lox function runs its body as a block in a new
   * frame chained to its closure; a foreign function's falsy result becomes
   * nil; a class yields a new instance with no fields.
   */
  function CallValue(ctx: Ctx, fuel: nat, callee: Value, args: seq<Value>, st: State): (r: Res)
    ensures r.st.env == st.env
    ensures !r.out.Returning?
    decreases fuel, 0, 0
  {
    match callee
    case LoxFunction(_, params, body, closure) =>
      if fuel == 0 then Res(OutOfFuel, st)
      else
        var env := |st.frames|;
        var frames := BindParams(NewFrame(st.frames, Some(closure)), env, params, args, 0);
        var b := ExecBlock(ctx, fuel - 1, body, st.(frames := frames), env);
        Res(CallResult(b.out), b.st)
    case ForeignFunction(id, _) =>
      var v := ctx.foreign(id, args);
      Res(Normal(if JsFalsy(v) then Nil else v), st)
    case LoxClass(name) =>
      Res(Normal(LoxInstance(|st.instances|, name)), st.(instances := st.instances + [map[]]))
    case _ => Res(Error(NotCallable), st)
  }

  // ---------------------------------------------------------------------------
  // Execution

  /**
   * `executeBlock(statements, environment)`: run the statements with
   * `environment` current, then restore the previous environment on every
   * way out (normal completion, a runtime error, a return, fuel exhaustion).
   */
  function ExecBlock(ctx: Ctx, fuel: nat, ss: seq<Stmt>, st: State, env: nat): (r: Res)
    ensures r.st.env == st.env
    decreases fuel, StmtsSize(ss), 3
  {
    var b := ExecStmts(ctx, fuel, ss, st.(env := env));
    Res(b.out, b.st.(env := st.env))
  }

  /** Statements in order, stopping at the first abrupt outcome; normal completion carries the last statement's value. */
  function ExecStmts(ctx: Ctx, fuel: nat, ss: seq<Stmt>, st: State): (r: Res)
    ensures r.st.env == st.env
    ensures ss == [] ==> r == Res(Normal(Nil), st)
    decreases fuel, StmtsSize(ss), 2
  {
    if ss == [] then Res(Normal(Nil), st)
    else
      var a := ExecStmt(ctx, fuel, ss[0], st);
      if !a.out.Normal? || |ss| == 1 then a else ExecStmts(ctx, fuel, ss[1..], a.st)
  }

  /** `execute(stmt)`: the value of the visit method, or the abrupt outcome. */
  function ExecStmt(ctx: Ctx, fuel: nat, s: Stmt, st: State): (r: Res)
    ensures r.st.env == st.env
    decreases fuel, StmtSize(s), 1
  {
    match s
    case Expression(e) => EvalExpr(ctx, fuel, e, st)
    case Print(e) =>
      var a := EvalExpr(ctx, fuel, e, st);
      if !a.out.Normal? then a else Res(Normal(Nil), a.st.(output := a.st.output + [a.out.value]))
    case Var(name, init) =>
      var a := if init.Some? then EvalExpr(ctx, fuel, init.value, st) else Res(Normal(Nil), st);
      if !a.out.Normal? then a
      else if name.None? then Res(Error(NoName), a.st)
      else Res(Normal(Nil), a.st.(frames := Define(a.st.frames, a.st.env, name.value.value, a.out.value)))
    case Block(ss) =>
      var b := ExecBlock(ctx, fuel, ss, st.(frames := NewFrame(st.frames, Some(st.env))), |st.frames|);
      if b.out.Normal? then Res(Normal(Nil), b.st) else b
    case If(c, t, el) =>
      var a := EvalExpr(ctx, fuel, c, st);
      if !a.out.Normal? then a
      else if IsTruthy(a.out.value) then
        var b := ExecStmt(ctx, fuel, t, a.st);
        if b.out.Normal? then Res(Normal(Nil), b.st) else b
      else if el.Some? then
        var b := ExecStmt(ctx, fuel, el.value, a.st);
        if b.out.Normal? then Res(Normal(Nil), b.st) else b
      else Res(Normal(Nil), a.st)
    case While(c, body) => ExecWhile(ctx, fuel, c, body, st)
    case Function(name, params, body) =>
      Res(Normal(Nil), st.(frames := Define(st.frames, st.env, name.value, LoxFunction(name, params, body, st.env))))
    case Return(x) =>
      var a := EvalExpr(ctx, fuel, x, st);
      if !a.out.Normal? then a else Res(Returning(a.out.value), a.st)
    case Class(name) =>
      var fs := Define(st.frames, st.env, name.value, Nil);
      match Scopes.Assign(fs, st.env, name.value, LoxClass(name.value))
      case Failure(m) => Res(Error(m), st.(frames := fs))
      case Success(fs') => Res(Normal(Nil), st.(frames := fs'))
  }

  /** `visitWhileStmt`: evaluate the condition, run the body while it is truthy; one unit of fuel per iteration. */
  function ExecWhile(ctx: Ctx, fuel: nat, c: Expr, body: Stmt, st: State): (r: Res)
    ensures r.st.env == st.env
    decreases fuel, StmtSize(While(c, body)), 0
  {
    var a := EvalExpr(ctx, fuel, c, st);
    if !a.out.Normal? then a
    else if !IsTruthy(a.out.value) then Res(Normal(Nil), a.st)
    else if fuel == 0 then Res(OutOfFuel, a.st)
    else
      var b := ExecStmt(ctx, fuel, body, a.st);
      if !b.out.Normal? then b else ExecWhile(ctx, fuel - 1, c, body, b.st)
  }

  /** `interpret(statements)`: run them in order in `globals`; the value of the last one, or nil. */
  function Interpret(ctx: Ctx, fuel: nat, statements: seq<Stmt>): (r: Res)
    ensures statements == [] ==> r == Res(Normal(Nil), InitialState())
  {
    ExecStmts(ctx, fuel, statements, InitialState())
  }

  // ---------------------------------------------------------------------------
  // Properties

  /** `or` yields a truthy left operand without evaluating the right one; otherwise it yields the right one. */
  lemma OrShortCircuits(ctx: Ctx, fuel: nat, l: Expr, op: Token, x: Expr, st: State)
    requires op.value == "or"
    ensures var a := EvalExpr(ctx, fuel, l, st);
      a.out.Normal? ==>
        EvalExpr(ctx, fuel, Logical(l, op, x), st) == (if IsTruthy(a.out.value) then a else EvalExpr(ctx, fuel, x, a.st))
  {
  }

  /** `and` (any other logical operator) yields a falsy left operand without evaluating the right one. */
  lemma AndShortCircuits(ctx: Ctx, fuel: nat, l: Expr, op: Token, x: Expr, st: State)
    requires op.value != "or"
    ensures var a := EvalExpr(ctx, fuel, l, st);
      a.out.Normal? ==>
        EvalExpr(ctx, fuel, Logical(l, op, x), st) == (if !IsTruthy(a.out.value) then a else EvalExpr(ctx, fuel, x, a.st))
  {
  }

  /** `a != b` evaluates exactly as `a == b`. */
  lemma NotEqualEvaluatesAsEqual(ctx: Ctx, fuel: nat, l: Expr, ne: Token, eq: Token, x: Expr, st: State)
    requires ne.value == "!=" && eq.value == "=="
    ensures EvalExpr(ctx, fuel, Binary(l, ne, x), st) == EvalExpr(ctx, fuel, Binary(l, eq, x), st)
  {
  }

  /** The callee and every argument are evaluated before the callability check. */
  lemma ArgumentsBeforeCallCheck(ctx: Ctx, fuel: nat, callee: Expr, paren: Option<Token>, args: seq<Expr>, st: State)
    requires EvalExpr(ctx, fuel, callee, st).out.Normal?
    requires !Callable(EvalExpr(ctx, fuel, callee, st).out.value)
    requires EvalArgs(ctx, fuel, args, EvalExpr(ctx, fuel, callee, st).st).stop.None?
    ensures EvalExpr(ctx, fuel, Call(callee, paren, args), st)
      == Res(Error(NotCallable), EvalArgs(ctx, fuel, args, EvalExpr(ctx, fuel, callee, st).st).st)
  {
  }

  /** No two parameters share a name. */
  predicate DistinctNames(params: seq<Token>)
  {
    forall i, j | 0 <= i < j < |params| :: params[i].value != params[j].value
  }

  /**
   * The parameter loop binds `params[i]` to `args[i]` for every `i` from
   * `from` on, and leaves every other name of the frame as it was.
   */
  lemma {:induction false} BindParamsBinds(frames: seq<Frame>, env: nat, params: seq<Token>, args: seq<Value>, from: nat)
    requires from <= |params| && |params| == |args| && env < |frames| && DistinctNames(params)
    ensures var r := BindParams(frames, env, params, args, from);
      (forall i | from <= i < |params| :: params[i].value in r[env].values && r[env].values[params[i].value] == args[i]) &&
      (forall n | (forall i | from <= i < |params| :: params[i].value != n) ::
         (n in r[env].values <==> n in frames[env].values) && (n in frames[env].values ==> r[env].values[n] == frames[env].values[n]))
    decreases |params| - from
  {
    if from < |params| {
      var f := Define(frames, env, params[from].value, args[from]);
      BindParamsBinds(f, env, params, args, from + 1);
    }
  }

  /**
   * `LoxFunction.call`: the body runs as a block in a new frame whose parent
   * is the closure (not the caller's frame) and which binds exactly the
   * parameters to the arguments; its result is what `CallResult` makes of the
   * body's outcome, and the caller's environment is current again afterwards.
   */
  lemma CallBindsParameters(ctx: Ctx, fuel: nat, f: Value, args: seq<Value>, st: State)
    requires f.LoxFunction? && fuel > 0 && |args| == |f.params| && DistinctNames(f.params)
    ensures var env := |st.frames|;
      var frames := BindParams(NewFrame(st.frames, Some(f.closure)), env, f.params, args, 0);
      |frames| == |st.frames| + 1 && frames[..env] == st.frames &&
      frames[env].enclosing == Some(f.closure) &&
      (forall i | 0 <= i < |f.params| :: f.params[i].value in frames[env].values && frames[env].values[f.params[i].value] == args[i]) &&
      (forall n :: n in frames[env].values <==> exists i | 0 <= i < |f.params| :: f.params[i].value == n) &&
      var b := ExecBlock(ctx, fuel - 1, f.body, st.(frames := frames), env);
      CallValue(ctx, fuel, f, args, st) == Res(CallResult(b.out), b.st) &&
      CallValue(ctx, fuel, f, args, st).st.env == st.env
  {
    var env := |st.frames|;
    var start := NewFrame(st.frames, Some(f.closure));
    BindParamsBinds(start, env, f.params, args, 0);
    var frames := BindParams(start, env, f.params, args, 0);
    assert frames[..env] == st.frames by {
      forall i | 0 <= i < env
        ensures frames[i] == st.frames[i]
      {
        assert frames[i] == start[i];
      }
    }
  }

  /** A runtime error inside a function body does not propagate: the call yields `undefined`. */
  lemma CallSwallowsErrors(ctx: Ctx, fuel: nat, f: Value, args: seq<Value>, st: State)
    requires f.LoxFunction? && fuel > 0
    requires var env := |st.frames|;
      ExecBlock(ctx, fuel - 1, f.body, st.(frames := BindParams(NewFrame(st.frames, Some(f.closure)), env, f.params, args, 0)), env).out.Error?
    ensures CallValue(ctx, fuel, f, args, st).out == Normal(Undefined)
  {
  }

  /** `var x;` defines `x` as nil in the current frame, and `get` then finds nil. */
  lemma VarWithoutInitializerIsNil(ctx: Ctx, fuel: nat, name: Token, st: State)
    requires st.env < |st.frames|
    ensures ExecStmt(ctx, fuel, Var(Some(name), None), st)
      == Res(Normal(Nil), st.(frames := Define(st.frames, st.env, name.value, Nil)))
    ensures Scopes.Get(ExecStmt(ctx, fuel, Var(Some(name), None), st).st.frames, st.env, name.value) == Success(Nil)
  {
    DefineThenGet(st.frames, st.env, name.value, Nil);
  }

  /** A variable the resolver recorded is read `distance` frames up from the current one; any other is read from `globals`. */
  lemma LookUpByDistanceOrGlobal(ctx: Ctx, fuel: nat, name: Token, id: nat, st: State, other: nat)
    ensures id in ctx.locals ==>
      EvalExpr(ctx, fuel, Variable(name, id), st) == Res(ResultOutcome(GetAt(st.frames, st.env, ctx.locals[id], name.value)), st)
    ensures id !in ctx.locals ==>
      EvalExpr(ctx, fuel, Variable(name, id), st) == Res(ResultOutcome(Scopes.Get(st.frames, Globals, name.value)), st)
    ensures id !in ctx.locals ==>
      EvalExpr(ctx, fuel, Variable(name, id), st.(env := other)).out == EvalExpr(ctx, fuel, Variable(name, id), st).out
  {
  }

  /**
   * Assignment evaluates its right-hand side, then searches the chain from
   * the current frame by name: the target is never looked up through the
   * resolver's distances, so two tables that agree on the right-hand side
   * agree on the whole assignment.
   */
  lemma AssignIgnoresDistances(ctx: Ctx, fuel: nat, name: Token, v: Expr, st: State, locals: map<nat, nat>)
    ensures var a := EvalExpr(ctx, fuel, v, st);
      EvalExpr(ctx, fuel, Assign(name, v), st) ==
        if !a.out.Normal? then a
        else match Scopes.Assign(a.st.frames, a.st.env, name.value, a.out.value)
          case Failure(m) => Res(Error(m), a.st)
          case Success(fs) => Res(a.out, a.st.(frames := fs))
    ensures EvalExpr(ctx, fuel, v, st) == EvalExpr(ctx.(locals := locals), fuel, v, st) ==>
      EvalExpr(ctx, fuel, Assign(name, v), st) == EvalExpr(ctx.(locals := locals), fuel, Assign(name, v), st)
  {
  }

  /** Calling a class with no arguments yields a new instance with no fields; `Get` on it is nil for every name. */
  lemma ClassCallMakesEmptyInstance(ctx: Ctx, fuel: nat, name: string, args: seq<Value>, st: State, field: string)
    ensures args == [] ==>
      CheckedCall(ctx, fuel, LoxClass(name), args, st) == Res(Normal(LoxInstance(|st.instances|, name)), st.(instances := st.instances + [map[]]))
    ensures args == [] ==> Field(st.instances + [map[]], |st.instances|, field) == Nil
    ensures args != [] ==> CheckedCall(ctx, fuel, LoxClass(name), args, st) == Res(Error(ArityMessage(0, |args|)), st)
  {
  }

  /** `Get` on an instance reads the field or yields nil; on anything else it is an error. */
  lemma GetFieldOrNil(ctx: Ctx, fuel: nat, obj: Expr, name: Token, st: State)
    requires EvalExpr(ctx, fuel, obj, st).out.Normal?
    ensures var o := EvalExpr(ctx, fuel, obj, st);
      EvalExpr(ctx, fuel, Get(obj, name), st) ==
        if o.out.value.LoxInstance? then
          Res(Normal(if o.out.value.ref < |o.st.instances| && name.value in o.st.instances[o.out.value.ref]
                        && !JsFalsy(o.st.instances[o.out.value.ref][name.value])
                     then o.st.instances[o.out.value.ref][name.value] else Nil), o.st)
        else Res(Error(NotInstance), o.st)
  {
  }

  /** A foreign function's result is passed through unless it is falsy, which becomes nil. */
  lemma ForeignResultNormalised(ctx: Ctx, fuel: nat, id: nat, arity: nat, args: seq<Value>, st: State)
    ensures var v := ctx.foreign(id, args);
      CallValue(ctx, fuel, ForeignFunction(id, arity), args, st) == Res(Normal(if JsFalsy(v) then Nil else v), st)
  {
  }

  /** Declarations `var n;` or `var n = <literal>;`, whose initializers cannot reach outside the current frame. */
  predicate LiteralDecls(ss: seq<Stmt>)
  {
    forall i | 0 <= i < |ss| ::
      ss[i].Var? && ss[i].varName.Some? && (ss[i].initializer.Some? ==> ss[i].initializer.value.Literal?)
  }

  /** The names such declarations bind. */
  function DeclNames(ss: seq<Stmt>): set<string>
    requires LiteralDecls(ss)
  {
    if ss == [] then {} else {ss[0].varName.value.value} + DeclNames(ss[1..])
  }

  /**
   * Running such declarations binds each name in the current frame, adds no
   * frame, and changes no other frame.
   */
  lemma {:induction false} LiteralDeclsDefineLocally(ctx: Ctx, fuel: nat, ss: seq<Stmt>, st: State)
    requires LiteralDecls(ss) && st.env < |st.frames|
    ensures var r := ExecStmts(ctx, fuel, ss, st);
      r.out == Normal(Nil) && r.st.env == st.env && |r.st.frames| == |st.frames| &&
      r.st.instances == st.instances && r.st.output == st.output &&
      (forall i | 0 <= i < |st.frames| && i != st.env :: r.st.frames[i] == st.frames[i]) &&
      r.st.frames[st.env].enclosing == st.frames[st.env].enclosing &&
      r.st.frames[st.env].values.Keys == st.frames[st.env].values.Keys + DeclNames(ss)
    decreases |ss|
  {
    if ss != [] {
      var d := ss[0];
      var v := if d.initializer.Some? then LitValue(d.initializer.value.lit) else Nil;
      var next := st.(frames := Define(st.frames, st.env, d.varName.value.value, v));
      assert ExecStmt(ctx, fuel, d, st) == Res(Normal(Nil), next);
      if |ss| == 1 {
        assert ss[1..] == [];
      } else {
        assert LiteralDecls(ss[1..]) by {
          forall i | 0 <= i < |ss| - 1
            ensures ss[1..][i] == ss[i + 1]
          {
          }
        }
        LiteralDeclsDefineLocally(ctx, fuel, ss[1..], next);
      }
    }
  }

  /**
   * A block of such declarations binds its names in the block's own new
   * frame, chained to the current one; every frame that existed before is
   * unchanged afterwards.  (An initializer that assigns, as in
   * `{ var a = b = 1; }`, can still write to an enclosing frame.)
   */
  lemma BlockDeclarationsAreLocal(ctx: Ctx, fuel: nat, ss: seq<Stmt>, st: State)
    requires LiteralDecls(ss) && st.env < |st.frames|
    ensures var r := ExecStmt(ctx, fuel, Block(ss), st);
      r.out == Normal(Nil) && r.st.env == st.env && |r.st.frames| == |st.frames| + 1 &&
      r.st.frames[..|st.frames|] == st.frames &&
      r.st.frames[|st.frames|].enclosing == Some(st.env) &&
      r.st.frames[|st.frames|].values.Keys == DeclNames(ss)
  {
    var inner := st.(frames := NewFrame(st.frames, Some(st.env)), env := |st.frames|);
    LiteralDeclsDefineLocally(ctx, fuel, ss, inner);
    var b := ExecStmts(ctx, fuel, ss, inner);
    assert b.st.frames[..|st.frames|] == st.frames by {
      forall i | 0 <= i < |st.frames|
        ensures b.st.frames[i] == st.frames[i]
      {
        assert inner.frames[i] == st.frames[i];
      }
    }
  }

  /** A `while` whose condition is falsy completes without running its body. */
  lemma WhileFalseSkipsBody(ctx: Ctx, fuel: nat, c: Expr, body: Stmt, st: State)
    requires EvalExpr(ctx, fuel, c, st).out.Normal? && !IsTruthy(EvalExpr(ctx, fuel, c, st).out.value)
    ensures ExecStmt(ctx, fuel, While(c, body), st) == Res(Normal(Nil), EvalExpr(ctx, fuel, c, st).st)
  {
  }

  /**
   * An `if` runs only the branch its condition selects: an abrupt condition ends
   * it, a truthy one makes the `else` branch irrelevant, a falsy one the `then`
   * branch, and a falsy condition without `else` completes with nil.
   */
  lemma IfRunsTakenBranchOnly(ctx: Ctx, fuel: nat, c: Expr, t: Stmt, t': Stmt, el: Option<Stmt>, el': Option<Stmt>, st: State)
    ensures var a := EvalExpr(ctx, fuel, c, st);
      !a.out.Normal? ==> ExecStmt(ctx, fuel, If(c, t, el), st) == a
    ensures var a := EvalExpr(ctx, fuel, c, st);
      a.out.Normal? && IsTruthy(a.out.value) ==>
        ExecStmt(ctx, fuel, If(c, t, el), st) == ExecStmt(ctx, fuel, If(c, t, el'), st)
    ensures var a := EvalExpr(ctx, fuel, c, st);
      a.out.Normal? && !IsTruthy(a.out.value) ==>
        ExecStmt(ctx, fuel, If(c, t, el), st) == ExecStmt(ctx, fuel, If(c, t', el), st)
    ensures var a := EvalExpr(ctx, fuel, c, st);
      a.out.Normal? && !IsTruthy(a.out.value) ==> ExecStmt(ctx, fuel, If(c, t, None), st) == Res(Normal(Nil), a.st)
  {
    var a := EvalExpr(ctx, fuel, c, st);
    if a.out.Normal? && IsTruthy(a.out.value) {
      var b := ExecStmt(ctx, fuel, t, a.st);
      var r := if b.out.Normal? then Res(Normal(Nil), b.st) else b;
      assert ExecStmt(ctx, fuel, If(c, t, el), st) == r;
      assert ExecStmt(ctx, fuel, If(c, t, el'), st) == r;
    } else if a.out.Normal? {
      var r := if el.Some? then var b := ExecStmt(ctx, fuel, el.value, a.st);
          if b.out.Normal? then Res(Normal(Nil), b.st) else b
        else Res(Normal(Nil), a.st);
      assert ExecStmt(ctx, fuel, If(c, t, el), st) == r;
      assert ExecStmt(ctx, fuel, If(c, t', el), st) == r;
      assert ExecStmt(ctx, fuel, If(c, t, None), st) == Res(Normal(Nil), a.st);
    }
  }

  /** Running one more statement: it runs in the state the others left, unless one of them completed abruptly. */
  lemma {:induction false} ExecStmtsSnoc(ctx: Ctx, fuel: nat, ss: seq<Stmt>, s: Stmt, st: State)
    ensures var a := ExecStmts(ctx, fuel, ss, st);
      ExecStmts(ctx, fuel, ss + [s], st) == if ss != [] && !a.out.Normal? then a else ExecStmt(ctx, fuel, s, a.st)
    decreases |ss|
  {
    if ss == [] {
      assert ss + [s] == [s];
    } else {
      var a := ExecStmt(ctx, fuel, ss[0], st);
      assert (ss + [s])[0] == ss[0] && (ss + [s])[1..] == ss[1..] + [s];
      if a.out.Normal? {
        if |ss| == 1 {
          assert ss[1..] + [s] == [s];
        } else {
          ExecStmtsSnoc(ctx, fuel, ss[1..], s, a.st);
        }
      }
    }
  }

  /**
   * `interpret` yields the outcome of the last statement, run in the state
   * the earlier ones left, once all of them completed normally; otherwise
   * the first abrupt outcome.
   */
  lemma InterpretYieldsLastValue(ctx: Ctx, fuel: nat, ss: seq<Stmt>, s: Stmt)
    ensures var a := Interpret(ctx, fuel, ss);
      Interpret(ctx, fuel, ss + [s]) == if ss != [] && !a.out.Normal? then a else ExecStmt(ctx, fuel, s, a.st)
  {
    ExecStmtsSnoc(ctx, fuel, ss, s, InitialState());
  }
}
