/**
 * The tree-walking interpreter as the source writes it: an object whose
 * current `environment` the block and call code swap in and out, whose
 * resolver table `locals` is filled by `resolve`, and whose environments are
 * objects updated in place.  Every visit method is proved to compute exactly
 * what the reference semantics in module Semantics says, from the state it
 * started in.
 */
module Interpreter {
  import opened Wrappers
  import opened Ast
  import opened Values
  import opened Scopes
  import opened Semantics
  import Environment

  /** The resolver's table after recording `rs` in order over `locals`; a later entry for an id wins. */
  function Resolved(locals: map<nat, nat>, rs: seq<(nat, nat)>): (r: map<nat, nat>)
    ensures r.Keys == locals.Keys + (set k | 0 <= k < |rs| :: rs[k].0)
    ensures rs != [] ==> r[rs[|rs| - 1].0] == rs[|rs| - 1].1
    ensures forall id | id in locals && (forall k | 0 <= k < |rs| :: rs[k].0 != id) :: r[id] == locals[id]
  {
    if rs == [] then locals
    else
      var init := rs[..|rs| - 1];
      var r := Resolved(locals, init);
      assert forall k | 0 <= k < |init| :: init[k] == rs[k];
      assert (set k | 0 <= k < |rs| :: rs[k].0) == (set k | 0 <= k < |init| :: init[k].0) + {rs[|rs| - 1].0};
      r[rs[|rs| - 1].0 := rs[|rs| - 1].1]
  }

  class Interpreter {
    /** Every `Environment` object; frame 0 is `globals`. */
    const envs: Environment.Environments
    /** The current environment. */
    var environment: nat
    /** Variable node id to scope distance, as `resolve` records it. */
    var locals: map<nat, nat>
    /** The `fields` map of every `LoxInstance`, by its index. */
    var instances: seq<map<string, Value>>
    /** The values `print` has written, in order. */
    var output: seq<Value>
    /** The host: foreign function bodies and JavaScript's coercions. */
    const foreign: (nat, seq<Value>) -> Value
    const coerce: Coerce

    /** The state as the reference semantics sees it. */
    function St(): State
      reads this, envs
    {
      State(envs.frames, environment, instances, output)
    }

    /** What the reference semantics takes from outside. */
    function Context(): Ctx
      reads this
    {
      Ctx(locals, foreign, coerce)
    }

    /**
     * What the interpreter keeps true between steps: the arena is live, the
     * current environment exists, no instance has a field (nothing writes
     * one), and the host yields no Lox function.  Then every `enclosing` and
     * every closure names an existing environment, as in the source.
     */
    ghost predicate Valid()
      reads this, envs
    {
      envs.Valid() && environment < |envs.frames| &&
      (forall i | 0 <= i < |instances| :: instances[i] == map[]) &&
      HostValues(foreign, coerce)
    }

    /** `new Interpreter()`: `globals` holding `clock`, no resolved variables. */
    constructor (foreign: (nat, seq<Value>) -> Value, coerce: Coerce)
      requires HostValues(foreign, coerce)
      ensures St() == InitialState() && locals == map[]
      ensures Valid()
      ensures this.foreign == foreign && this.coerce == coerce
      ensures fresh(envs)
    {
      this.foreign := foreign;
      this.coerce := coerce;
      envs := new Environment.Environments();
      environment := Globals;
      locals := map[];
      instances := [];
      output := [];
      new;
      envs.Define(Globals, "clock", ForeignFunction(0, 0));
    }

    /** `resolve(expr, depth)`: `locals.set(expr, depth)`. */
    method Resolve(id: nat, depth: nat)
      requires Valid()
      modifies this
      ensures locals == old(locals)[id := depth]
      ensures environment == old(environment) && instances == old(instances) && output == old(output)
      ensures Valid()
    {
      locals := locals[id := depth];
    }

    // -------------------------------------------------------------------------
    // Expressions

    /** `evaluate(expr)`: dispatch on the node kind. */
    method Evaluate(fuel: nat, e: Expr) returns (out: Outcome)
      requires Valid()
      modifies this, envs
      ensures locals == old(locals)
      ensures Valid() && |old(envs.frames)| <= |envs.frames|
      ensures OutcomeIn(out, |envs.frames|)
      ensures EvalExpr(old(Context()), fuel, e, old(St())) == Res(out, St())
      decreases fuel, ExprSize(e), 1
    {
      match e
      case Literal(l) => out := Normal(LitValue(l));
      case Grouping(x) => out := Evaluate(fuel, x);
      case Unary(_, _) => out := VisitUnaryExpr(fuel, e);
      case Binary(_, _, _) => out := VisitBinaryExpr(fuel, e);
      case Logical(_, _, _) => out := VisitLogicalExpr(fuel, e);
      case Variable(name, id) => out := LookUpVariable(name.value, id);
      case Assign(_, _) => out := VisitAssignExpr(fuel, e);
      case Call(_, _, _) => out := VisitCallExpr(fuel, e);
      case Get(_, _) => out := VisitGetExpr(fuel, e);
    }

    method VisitUnaryExpr(fuel: nat, e: Expr) returns (out: Outcome)
      requires e.Unary?
      requires Valid()
      modifies this, envs
      ensures locals == old(locals)
      ensures Valid() && |old(envs.frames)| <= |envs.frames|
      ensures OutcomeIn(out, |envs.frames|)
      ensures EvalExpr(old(Context()), fuel, e, old(St())) == Res(out, St())
      decreases fuel, ExprSize(e), 0
    {
      var right := Evaluate(fuel, e.right);
      if !right.Normal? {
        return right;
      }
      OperatorsMakeNoFunction(coerce, e.operator.value, right.value, right.value);
      out := Normal(UnaryOp(coerce, e.operator.value, right.value));
    }

    method VisitBinaryExpr(fuel: nat, e: Expr) returns (out: Outcome)
      requires e.Binary?
      requires Valid()
      modifies this, envs
      ensures locals == old(locals)
      ensures Valid() && |old(envs.frames)| <= |envs.frames|
      ensures OutcomeIn(out, |envs.frames|)
      ensures EvalExpr(old(Context()), fuel, e, old(St())) == Res(out, St())
      decreases fuel, ExprSize(e), 0
    {
      var left := Evaluate(fuel, e.left);
      if !left.Normal? {
        return left;
      }
      var right := Evaluate(fuel, e.right);
      if !right.Normal? {
        return right;
      }
      OperatorsMakeNoFunction(coerce, e.operator.value, left.value, right.value);
      out := Normal(BinaryOp(coerce, e.operator.value, left.value, right.value));
    }

    method VisitLogicalExpr(fuel: nat, e: Expr) returns (out: Outcome)
      requires e.Logical?
      requires Valid()
      modifies this, envs
      ensures locals == old(locals)
      ensures Valid() && |old(envs.frames)| <= |envs.frames|
      ensures OutcomeIn(out, |envs.frames|)
      ensures EvalExpr(old(Context()), fuel, e, old(St())) == Res(out, St())
      decreases fuel, ExprSize(e), 0
    {
      var left := Evaluate(fuel, e.left);
      if !left.Normal? {
        return left;
      }
      if e.operator.value == "or" {
        if IsTruthy(left.value) {
          return left;
        }
      } else {
        if !IsTruthy(left.value) {
          return left;
        }
      }
      out := Evaluate(fuel, e.right);
    }

    /** `lookUpVariable`: by distance from the current environment when resolved, else in `globals`. */
    method LookUpVariable(name: string, id: nat) returns (out: Outcome)
      requires Valid()
      ensures out == LookUp(Context(), St(), name, id)
      ensures OutcomeIn(out, |envs.frames|)
    {
      var r;
      if id in locals {
        r := envs.GetAt(environment, locals[id], name);
      } else {
        r := envs.Get(Globals, name);
      }
      out := ResultOutcome(r);
    }

    method VisitAssignExpr(fuel: nat, e: Expr) returns (out: Outcome)
      requires e.Assign?
      requires Valid()
      modifies this, envs
      ensures locals == old(locals)
      ensures Valid() && |old(envs.frames)| <= |envs.frames|
      ensures OutcomeIn(out, |envs.frames|)
      ensures EvalExpr(old(Context()), fuel, e, old(St())) == Res(out, St())
      decreases fuel, ExprSize(e), 0
    {
      var value := Evaluate(fuel, e.value);
      if !value.Normal? {
        return value;
      }
      var error := envs.Assign(environment, e.name.value, value.value);
      if error.Some? {
        return Error(error.value);
      }
      out := value;
    }

    method VisitGetExpr(fuel: nat, e: Expr) returns (out: Outcome)
      requires e.Get?
      requires Valid()
      modifies this, envs
      ensures locals == old(locals)
      ensures Valid() && |old(envs.frames)| <= |envs.frames|
      ensures OutcomeIn(out, |envs.frames|)
      ensures EvalExpr(old(Context()), fuel, e, old(St())) == Res(out, St())
      decreases fuel, ExprSize(e), 0
    {
      var obj;
      match e {
        case Get(target, _) => obj := Evaluate(fuel, target);
      }
      if !obj.Normal? {
        return obj;
      }
      if !obj.value.LoxInstance? {
        return Error(NotInstance);
      }
      var ref := obj.value.ref;
      var name := e.name.value;
      if ref < |instances| && name in instances[ref] && !JsFalsy(instances[ref][name]) {
        out := Normal(instances[ref][name]);
      } else {
        out := Normal(Nil);
      }
    }

    /** The arguments evaluated so far, prepended to what the rest of the argument list yields. */
    static function Joined(done: seq<Value>, rest: ArgsRes): ArgsRes
    {
      if rest.stop.Some? then rest else ArgsRes(None, done + rest.values, rest.st)
    }

    /** One argument of the loop evaluates normally: it joins the values done so far. */
    static lemma JoinedStep(ctx: Ctx, fuel: nat, arguments: seq<Expr>, i: nat, done: seq<Value>, st: State, v: Value, st': State)
      requires i < |arguments| && EvalExpr(ctx, fuel, arguments[i], st) == Res(Normal(v), st')
      ensures Joined(done, EvalArgs(ctx, fuel, arguments[i..], st)) == Joined(done + [v], EvalArgs(ctx, fuel, arguments[i + 1..], st'))
    {
      assert arguments[i..][0] == arguments[i] && arguments[i..][1..] == arguments[i + 1..];
      var rest := EvalArgs(ctx, fuel, arguments[i + 1..], st');
      if rest.stop.None? {
        assert done + ([v] + rest.values) == done + [v] + rest.values;
      }
    }

    /** One argument of the loop ends abruptly: the whole list stops with it. */
    static lemma JoinedStop(ctx: Ctx, fuel: nat, arguments: seq<Expr>, i: nat, done: seq<Value>, st: State, o: Outcome, st': State)
      requires i < |arguments| && EvalExpr(ctx, fuel, arguments[i], st) == Res(o, st') && !o.Normal?
      ensures Joined(done, EvalArgs(ctx, fuel, arguments[i..], st)) == ArgsRes(Some(o), [], st')
    {
      assert arguments[i..][0] == arguments[i];
    }

    /** `visitCallExpr`: the callee, the arguments left to right, the callability and arity checks, then `fn.call`. */
    method VisitCallExpr(fuel: nat, e: Expr) returns (out: Outcome)
      requires e.Call?
      requires Valid()
      modifies this, envs
      ensures locals == old(locals)
      ensures Valid() && |old(envs.frames)| <= |envs.frames|
      ensures OutcomeIn(out, |envs.frames|)
      ensures EvalExpr(old(Context()), fuel, e, old(St())) == Res(out, St())
      decreases fuel, ExprSize(e), 0
    {
      ghost var ctx := Context();
      var callee := Evaluate(fuel, e.callee);
      if !callee.Normal? {
        return callee;
      }
      var stop, args := EvaluateArguments(fuel, e.args);
      if stop.Some? {
        return stop.value;
      }
      if !Callable(callee.value) {
        return Error(NotCallable);
      }
      if |args| != Arity(callee.value) {
        return Error(ArityMessage(Arity(callee.value), |args|));
      }
      out := CallFunction(fuel, callee.value, args);
    }

    /** The `args.push(this.evaluate(argument))` loop of `visitCallExpr`, stopping at the first abrupt outcome. */
    method EvaluateArguments(fuel: nat, arguments: seq<Expr>) returns (stop: Option<Outcome>, args: seq<Value>)
      requires Valid()
      modifies this, envs
      ensures locals == old(locals)
      ensures Valid() && |old(envs.frames)| <= |envs.frames|
      ensures forall i | 0 <= i < |args| :: ClosureIn(args[i], |envs.frames|)
      ensures EvalArgs(old(Context()), fuel, arguments, old(St())) == ArgsRes(stop, args, St())
      decreases fuel, ExprsSize(arguments), 2
    {
      ghost var ctx := Context();
      ghost var start := St();
      args := [];
      var i := 0;
      while i < |arguments|
        invariant i <= |arguments|
        invariant locals == old(locals) && ctx == Context()
        invariant EvalArgs(ctx, fuel, arguments, start) == Joined(args, EvalArgs(ctx, fuel, arguments[i..], St()))
        invariant Valid() && |old(envs.frames)| <= |envs.frames|
        invariant forall k | 0 <= k < |args| :: ClosureIn(args[k], |envs.frames|)
      {
        ExprsSizeElement(arguments, i);
        ghost var before := St();
        var a := Evaluate(fuel, arguments[i]);
        if !a.Normal? {
          JoinedStop(ctx, fuel, arguments, i, args, before, a, St());
          return Some(a), [];
        }
        JoinedStep(ctx, fuel, arguments, i, args, before, a.value, St());
        args := args + [a.value];
        i := i + 1;
      }
      assert arguments[i..] == [];
      return None, args;
    }

    /** `fn.call(this, args)` for the three kinds of callable. */
    method CallFunction(fuel: nat, callee: Value, args: seq<Value>) returns (out: Outcome)
      requires Valid() && ClosureIn(callee, |envs.frames|)
      requires forall i | 0 <= i < |args| :: ClosureIn(args[i], |envs.frames|)
      modifies this, envs
      ensures locals == old(locals)
      ensures Valid() && |old(envs.frames)| <= |envs.frames|
      ensures OutcomeIn(out, |envs.frames|)
      ensures CallValue(old(Context()), fuel, callee, args, old(St())) == Res(out, St())
      decreases fuel, 0, 0
    {
      match callee
      case LoxFunction(_, params, body, closure) =>
        if fuel == 0 {
          return OutOfFuel;
        }
        var env := envs.NewEnvironment(Some(closure));
        ghost var start := envs.frames;
        for i := 0 to |params|
          invariant BindParams(start, env, params, args, 0) == BindParams(envs.frames, env, params, args, i)
          invariant environment == old(environment) && locals == old(locals)
          invariant instances == old(instances) && output == old(output)
          invariant Valid() && |envs.frames| == |start| && env < |envs.frames|
        {
          envs.Define(env, params[i].value, if i < |args| then args[i] else Undefined);
        }
        var b := ExecuteBlock(fuel - 1, body, env);
        out := CallResult(b);
      case ForeignFunction(id, _) =>
        var v := foreign(id, args);
        out := Normal(if JsFalsy(v) then Nil else v);
      case LoxClass(name) =>
        out := Normal(LoxInstance(|instances|, name));
        instances := instances + [map[]];
      case _ =>
        out := Error(NotCallable);
    }

    // -------------------------------------------------------------------------
    // Statements

    /** `executeBlock(statements, environment)`: swap `environment` in, run, and put the previous one back. */
    method ExecuteBlock(fuel: nat, ss: seq<Stmt>, env: nat) returns (out: Outcome)
      requires Valid() && env < |envs.frames|
      modifies this, envs
      ensures locals == old(locals)
      ensures Valid() && |old(envs.frames)| <= |envs.frames|
      ensures OutcomeIn(out, |envs.frames|)
      ensures ExecBlock(old(Context()), fuel, ss, old(St()), env) == Res(out, St())
      decreases fuel, StmtsSize(ss), 3
    {
      var previous := environment;
      environment := env;
      out := ExecuteStatements(fuel, ss);
      environment := previous;
    }

    /** The statement loop of `executeBlock` and `interpret`: in order, until one completes abruptly. */
    method ExecuteStatements(fuel: nat, ss: seq<Stmt>) returns (out: Outcome)
      requires Valid()
      modifies this, envs
      ensures locals == old(locals)
      ensures Valid() && |old(envs.frames)| <= |envs.frames|
      ensures OutcomeIn(out, |envs.frames|)
      ensures ExecStmts(old(Context()), fuel, ss, old(St())) == Res(out, St())
      decreases fuel, StmtsSize(ss), 2
    {
      ghost var ctx := Context();
      out := Normal(Nil);
      var i := 0;
      while i < |ss|
        invariant i <= |ss|
        invariant locals == old(locals)
        invariant ExecStmts(ctx, fuel, ss, old(St())) == if i == |ss| then Res(out, St()) else ExecStmts(ctx, fuel, ss[i..], St())
        invariant Valid() && |old(envs.frames)| <= |envs.frames| && OutcomeIn(out, |envs.frames|)
      {
        StmtsSizeElement(ss, i);
        assert ss[i..][0] == ss[i] && ss[i..][1..] == ss[i + 1..];
        out := Execute(fuel, ss[i]);
        if !out.Normal? {
          return;
        }
        i := i + 1;
      }
    }

    /** `execute(stmt)`: dispatch on the node kind. */
    method Execute(fuel: nat, s: Stmt) returns (out: Outcome)
      requires Valid()
      modifies this, envs
      ensures locals == old(locals)
      ensures Valid() && |old(envs.frames)| <= |envs.frames|
      ensures OutcomeIn(out, |envs.frames|)
      ensures ExecStmt(old(Context()), fuel, s, old(St())) == Res(out, St())
      decreases fuel, StmtSize(s), 1
    {
      match s
      case Expression(e) => out := Evaluate(fuel, e);
      case Print(_) => out := VisitPrintStmt(fuel, s);
      case Var(_, _) => out := VisitVarStmt(fuel, s);
      case Block(_) => out := VisitBlockStmt(fuel, s);
      case If(_, _, _) => out := VisitIfStmt(fuel, s);
      case While(_, _) => out := VisitWhileStmt(fuel, s);
      case Function(name, params, body) =>
        envs.Define(environment, name.value, LoxFunction(name, params, body, environment));
        out := Normal(Nil);
      case Return(_) => out := VisitReturnStmt(fuel, s);
      case Class(_) => out := VisitClassStmt(s);
    }

    /** `visitPrintStmt`: the printed value is appended to `output`. */
    method VisitPrintStmt(fuel: nat, s: Stmt) returns (out: Outcome)
      requires s.Print?
      requires Valid()
      modifies this, envs
      ensures locals == old(locals)
      ensures Valid() && |old(envs.frames)| <= |envs.frames|
      ensures OutcomeIn(out, |envs.frames|)
      ensures ExecStmt(old(Context()), fuel, s, old(St())) == Res(out, St())
      decreases fuel, StmtSize(s), 0
    {
      var value := Evaluate(fuel, s.expression);
      if !value.Normal? {
        return value;
      }
      output := output + [value.value];
      out := Normal(Nil);
    }

    method VisitVarStmt(fuel: nat, s: Stmt) returns (out: Outcome)
      requires s.Var?
      requires Valid()
      modifies this, envs
      ensures locals == old(locals)
      ensures Valid() && |old(envs.frames)| <= |envs.frames|
      ensures OutcomeIn(out, |envs.frames|)
      ensures ExecStmt(old(Context()), fuel, s, old(St())) == Res(out, St())
      decreases fuel, StmtSize(s), 0
    {
      var value := Nil;
      if s.initializer.Some? {
        var a := Evaluate(fuel, s.initializer.value);
        if !a.Normal? {
          return a;
        }
        value := a.value;
      }
      if s.varName.None? {
        return Error(NoName);
      }
      envs.Define(environment, s.varName.value.value, value);
      out := Normal(Nil);
    }

    /** `visitBlockStmt`: a new environment enclosed by the current one. */
    method VisitBlockStmt(fuel: nat, s: Stmt) returns (out: Outcome)
      requires s.Block?
      requires Valid()
      modifies this, envs
      ensures locals == old(locals)
      ensures Valid() && |old(envs.frames)| <= |envs.frames|
      ensures OutcomeIn(out, |envs.frames|)
      ensures ExecStmt(old(Context()), fuel, s, old(St())) == Res(out, St())
      decreases fuel, StmtSize(s), 0
    {
      var env := envs.NewEnvironment(Some(environment));
      out := ExecuteBlock(fuel, s.statements, env);
      if out.Normal? {
        out := Normal(Nil);
      }
    }

    method VisitIfStmt(fuel: nat, s: Stmt) returns (out: Outcome)
      requires s.If?
      requires Valid()
      modifies this, envs
      ensures locals == old(locals)
      ensures Valid() && |old(envs.frames)| <= |envs.frames|
      ensures OutcomeIn(out, |envs.frames|)
      ensures ExecStmt(old(Context()), fuel, s, old(St())) == Res(out, St())
      decreases fuel, StmtSize(s), 0
    {
      var cond := Evaluate(fuel, s.condition);
      if !cond.Normal? {
        return cond;
      }
      out := Normal(Nil);
      if IsTruthy(cond.value) {
        var b := Execute(fuel, s.thenBranch);
        if !b.Normal? {
          out := b;
        }
      } else if s.elseBranch.Some? {
        var b := Execute(fuel, s.elseBranch.value);
        if !b.Normal? {
          out := b;
        }
      }
    }

    /** `visitWhileStmt`: each iteration past the condition spends one unit of fuel. */
    method VisitWhileStmt(fuel: nat, s: Stmt) returns (out: Outcome)
      requires s.While?
      requires Valid()
      modifies this, envs
      ensures locals == old(locals)
      ensures Valid() && |old(envs.frames)| <= |envs.frames|
      ensures OutcomeIn(out, |envs.frames|)
      ensures ExecStmt(old(Context()), fuel, s, old(St())) == Res(out, St())
      decreases fuel, StmtSize(s), 0
    {
      ghost var ctx := Context();
      var f: nat := fuel;
      while true
        invariant f <= fuel
        invariant locals == old(locals)
        invariant ExecWhile(ctx, fuel, s.condition, s.body, old(St())) == ExecWhile(ctx, f, s.condition, s.body, St())
        invariant Valid() && |old(envs.frames)| <= |envs.frames|
        decreases f
      {
        var cond := Evaluate(f, s.condition);
        if !cond.Normal? {
          return cond;
        }
        if !IsTruthy(cond.value) {
          return Normal(Nil);
        }
        if f == 0 {
          return OutOfFuel;
        }
        var b := Execute(f, s.body);
        if !b.Normal? {
          return b;
        }
        f := f - 1;
      }
    }

    /** `visitReturnStmt`: `throw new ReturnErr(value)`. */
    method VisitReturnStmt(fuel: nat, s: Stmt) returns (out: Outcome)
      requires s.Return?
      requires Valid()
      modifies this, envs
      ensures locals == old(locals)
      ensures Valid() && |old(envs.frames)| <= |envs.frames|
      ensures OutcomeIn(out, |envs.frames|)
      ensures ExecStmt(old(Context()), fuel, s, old(St())) == Res(out, St())
      decreases fuel, StmtSize(s), 0
    {
      var value := Evaluate(fuel, s.value);
      if !value.Normal? {
        return value;
      }
      out := Returning(value.value);
    }

    /** `visitClassStmt`: define the name as nil, then assign the class to it (a class declaration spends no fuel). */
    method VisitClassStmt(s: Stmt) returns (out: Outcome)
      requires s.Class?
      requires Valid()
      modifies this, envs
      ensures locals == old(locals)
      ensures Valid() && |old(envs.frames)| <= |envs.frames|
      ensures OutcomeIn(out, |envs.frames|)
      ensures ExecStmt(old(Context()), 0, s, old(St())) == Res(out, St())
    {
      envs.Define(environment, s.name.value, Nil);
      var error := envs.Assign(environment, s.name.value, LoxClass(s.name.value));
      // The name was just defined in the current environment, so `assign` finds it there.
      assert error.None?;
      out := Normal(Nil);
    }

    /** `interpret(statements)`, after the resolver has called `resolve` for each of `resolutions`. */
    method Interpret(fuel: nat, resolutions: seq<(nat, nat)>, statements: seq<Stmt>) returns (out: Outcome)
      requires Valid()
      modifies this, envs
      ensures locals == Resolved(old(locals), resolutions)
      ensures Valid() && |old(envs.frames)| <= |envs.frames|
      ensures OutcomeIn(out, |envs.frames|)
      ensures ExecStmts(old(Context()).(locals := locals), fuel, statements, old(St())) == Res(out, St())
    {
      for i := 0 to |resolutions|
        invariant locals == Resolved(old(locals), resolutions[..i])
        invariant St() == old(St()) && Valid()
      {
        assert resolutions[..i + 1][..i] == resolutions[..i];
        Resolve(resolutions[i].0, resolutions[i].1);
      }
      assert resolutions[..|resolutions|] == resolutions;
      out := ExecuteStatements(fuel, statements);
    }
  }

  /** `Interpreter.interpret(statements)`: a fresh interpreter, the resolver's distances, then the program. */
  method Run(foreign: (nat, seq<Value>) -> Value, coerce: Coerce, resolutions: seq<(nat, nat)>, fuel: nat, statements: seq<Stmt>)
    returns (out: Outcome)
    requires HostValues(foreign, coerce)
    ensures out == Semantics.Interpret(Ctx(Resolved(map[], resolutions), foreign, coerce), fuel, statements).out
  {
    var interpreter := new Interpreter(foreign, coerce);
    out := interpreter.Interpret(fuel, resolutions, statements);
  }
}
