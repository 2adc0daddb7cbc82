/**
 * The syntax tree of the interpreted language: tokens as the scanner hands them
 * over, the nine expression forms and the nine statement forms.  Every node is an
 * immutable value; the double-dispatch `accept`/visitor pair of the source becomes
 * an exhaustive `match` in each consumer (printer, parser, evaluator).
 */
module Ast {
  import opened Wrappers

  /** A scanner token: its type name, its value, its source text and its line. */
  datatype Token = Token(kind: string, value: string, text: string, line: int)

  /** The values a `Literal` node can carry (`undefined` comes from `parseRaw`). */
  datatype Lit = NilLit | UndefinedLit | BoolLit(b: bool) | NumLit(n: int) | StrLit(s: string)

  /**
   * Expressions.  A `Variable` carries the index of its identifier token as a
   * stable node identity: the resolver's side table is keyed by it.  The
   * `paren` of a `Call` is optional because `consume` yields nothing on a
   * mismatch.  `Literal`'s field is called `lit` (the source calls it `value`,
   * which here already names `Assign`'s right-hand side).
   */
  datatype Expr =
    | Assign(name: Token, value: Expr)
    | Binary(left: Expr, operator: Token, right: Expr)
    | Call(callee: Expr, paren: Option<Token>, args: seq<Expr>)
    | Get(object: Expr, name: Token)
    | Grouping(expression: Expr)
    | Literal(lit: Lit)
    | Unary(operator: Token, right: Expr)
    | Logical(left: Expr, operator: Token, right: Expr)
    | Variable(name: Token, id: nat)

  /**
   * Statements.  `Var`'s name is optional for the same reason as `Call`'s paren;
   * `Function`'s body is called `fnBody` because `While` already uses `body`
   * for a single statement.
   */
  datatype Stmt =
    | Block(statements: seq<Stmt>)
    | Expression(expression: Expr)
    | Print(expression: Expr)
    | Var(varName: Option<Token>, initializer: Option<Expr>)
    | If(condition: Expr, thenBranch: Stmt, elseBranch: Option<Stmt>)
    | While(condition: Expr, body: Stmt)
    | Function(name: Token, params: seq<Token>, fnBody: seq<Stmt>)
    | Return(value: Expr)
    | Class(name: Token)

  /** Sizes, used as termination measures by the evaluator. */
  function ExprSize(e: Expr): nat
  {
    match e
    case Assign(_, v) => 1 + ExprSize(v)
    case Binary(l, _, r) => 1 + ExprSize(l) + ExprSize(r)
    case Call(c, _, args) => 1 + ExprSize(c) + ExprsSize(args)
    case Get(o, _) => 1 + ExprSize(o)
    case Grouping(x) => 1 + ExprSize(x)
    case Literal(_) => 1
    case Unary(_, r) => 1 + ExprSize(r)
    case Logical(l, _, r) => 1 + ExprSize(l) + ExprSize(r)
    case Variable(_, _) => 1
  }

  function ExprsSize(es: seq<Expr>): nat
  {
    if es == [] then 0 else ExprSize(es[0]) + ExprsSize(es[1..])
  }

  function StmtSize(s: Stmt): nat
  {
    match s
    case Block(ss) => 1 + StmtsSize(ss)
    case Expression(e) => 1 + ExprSize(e)
    case Print(e) => 1 + ExprSize(e)
    case Var(_, init) => 1 + (if init.Some? then ExprSize(init.value) else 0)
    case If(c, t, el) => 1 + ExprSize(c) + StmtSize(t) + (if el.Some? then StmtSize(el.value) else 0)
    case While(c, b) => 1 + ExprSize(c) + StmtSize(b)
    case Function(_, _, _) => 1
    case Return(v) => 1 + ExprSize(v)
    case Class(_) => 1
  }

  function StmtsSize(ss: seq<Stmt>): nat
  {
    if ss == [] then 0 else StmtSize(ss[0]) + StmtsSize(ss[1..])
  }

  lemma ExprsSizeOne(a: Expr)
    ensures ExprsSize([a]) == ExprSize(a)
  {
    assert [a][1..] == [];
  }

  lemma ExprsSizeTwo(a: Expr, b: Expr)
    ensures ExprsSize([a, b]) == ExprSize(a) + ExprSize(b)
  {
    assert [a, b][1..] == [b];
    ExprsSizeOne(b);
  }

  /** An argument is no larger than the whole argument list. */
  lemma {:induction false} ExprsSizeElement(es: seq<Expr>, i: nat)
    requires i < |es|
    ensures ExprSize(es[i]) <= ExprsSize(es)
    decreases i
  {
    if i > 0 {
      ExprsSizeElement(es[1..], i - 1);
      assert es[1..][i - 1] == es[i];
    }
  }

  /** A statement is no larger than the whole statement list. */
  lemma {:induction false} StmtsSizeElement(ss: seq<Stmt>, i: nat)
    requires i < |ss|
    ensures StmtSize(ss[i]) <= StmtsSize(ss)
    decreases i
  {
    if i > 0 {
      StmtsSizeElement(ss[1..], i - 1);
      assert ss[1..][i - 1] == ss[i];
    }
  }
}
