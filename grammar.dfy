/**
 * The reference grammar: the recursive-descent parser written as pure functions
 * from a token sequence and a cursor position to a parsed value and the next
 * cursor position.  The imperative `Parser` class is proved to compute exactly
 * these functions; the properties of the parser are proved here.
 *
 * The primary expression with no matching alternative ends the process in the
 * source (`process.exit()`); here it is `Fail(at)`, `at` being the position of
 * the offending token.  Statement parsing takes a flag `recovering`: `false`
 * is the code as written (a failure ends the whole parse), `true` is the
 * panic-mode recovery the `declaration` method evidently intends (synchronize
 * and drop the broken statement).
 */
module Grammar {
  import opened Wrappers
  import opened Ast
  import Text

  datatype Parsed<T> = Ok(value: T, next: nat) | Fail(at: nat)

  /** The outcome of a whole parse: the statements, or the process exit at a broken primary. */
  datatype ParseResult = Parsed(statements: seq<Stmt>) | Exited(at: nat)

  /** `check(type)`: there is a token at `pos` and it has this type. */
  predicate CheckAt(ts: seq<Token>, pos: nat, kind: string)
  {
    pos < |ts| && ts[pos].kind == kind
  }

  /** `checkValue(value)`: there is a token at `pos` and it has this value. */
  predicate CheckValueAt(ts: seq<Token>, pos: nat, value: string)
  {
    pos < |ts| && ts[pos].value == value
  }

  /** `matchValue(...values)` succeeds at `pos`. */
  predicate CheckValueIn(ts: seq<Token>, pos: nat, values: seq<string>)
  {
    pos < |ts| && ts[pos].value in values
  }

  /**
   * The binary precedence levels, lowest binding first: 1 `or`, 2 `and`,
   * 3 equality, 4 comparison, 5 term, 6 factor; level 7 is `primary`.
   */
  function LevelOps(k: nat): seq<string>
  {
    if k == 1 then ["or"]
    else if k == 2 then ["and"]
    else if k == 3 then ["!=", "=="]
    else if k == 4 then [">", ">=", "<", "<="]
    else if k == 5 then ["-", "+"]
    else if k == 6 then ["/", "*"]
    else []
  }

  /** The level an operator value belongs to (7 when it is none of them). */
  function OpLevel(op: string): nat
  {
    if op == "or" then 1
    else if op == "and" then 2
    else if op in ["!=", "=="] then 3
    else if op in [">", ">=", "<", "<="] then 4
    else if op in ["-", "+"] then 5
    else if op in ["/", "*"] then 6
    else 7
  }

  lemma OpLevelOfLevelOps(k: nat, op: string)
    requires 1 <= k <= 6 && op in LevelOps(k)
    ensures OpLevel(op) == k
  {
  }

  /** The node a level folds into: `Logical` for `or` and `and`, `Binary` for the others. */
  function LevelNode(k: nat, left: Expr, op: Token, right: Expr): Expr
  {
    if k <= 2 then Logical(left, op, right) else Binary(left, op, right)
  }

  /**
   * The shape the grammar gives a tree parsed at level `k` (0 is assignment):
   * every operator node sits at a level at least `k`, its left operand is
   * parsed at the same level and its right operand one level higher (left
   * associativity and precedence), an assignment appears only at level 0 and
   * its right-hand side is again at level 0 (right associativity), and no
   * `Call`, `Unary` or `Get` node ever appears.
   */
  predicate WellShaped(e: Expr, k: nat)
  {
    match e
    case Literal(_) => true
    case Variable(_, _) => true
    case Grouping(x) => WellShaped(x, 0)
    case Assign(_, v) => k == 0 && WellShaped(v, 0)
    case Logical(l, op, r) =>
      var j := OpLevel(op.value);
      1 <= j <= 2 && k <= j && WellShaped(l, j) && WellShaped(r, j + 1)
    case Binary(l, op, r) =>
      var j := OpLevel(op.value);
      3 <= j <= 6 && k <= j && WellShaped(l, j) && WellShaped(r, j + 1)
    case Call(_, _, _) => false
    case Get(_, _) => false
    case Unary(_, _) => false
  }

  /** `parseRaw`: a numeral reads as a number, a quoted string loses its quotes, anything else is `undefined`. */
  function ParseRaw(v: string): (r: Lit)
    ensures |v| > 0 && Text.IsDigit(v[0]) ==> r == NumLit(Text.ParseNumber(v))
    ensures |v| >= 2 && v[0] == '"' ==> r == StrLit(v[1..|v| - 1])
    ensures (|v| == 0 || (!Text.IsDigit(v[0]) && v[0] != '"')) ==> r == UndefinedLit
  {
    if |v| > 0 && Text.IsDigit(v[0]) then NumLit(Text.ParseNumber(v))
    else if |v| > 0 && v[0] == '"' then StrLit(if |v| >= 2 then v[1..|v| - 1] else "")
    else UndefinedLit
  }

  /** `expression()`. */
  function Expression(ts: seq<Token>, pos: nat): (r: Parsed<Expr>)
    requires pos <= |ts|
    ensures r.Ok? ==> pos < r.next <= |ts| && WellShaped(r.value, 0)
    ensures r.Fail? ==> pos <= r.at <= |ts|
    decreases |ts| - pos, 9
  {
    Assignment(ts, pos)
  }

  /** `assignment()`: right-associative; only a `Variable` on the left becomes an `Assign`. */
  function Assignment(ts: seq<Token>, pos: nat): (r: Parsed<Expr>)
    requires pos <= |ts|
    ensures r.Ok? ==> pos < r.next <= |ts| && WellShaped(r.value, 0)
    ensures r.Fail? ==> pos <= r.at <= |ts|
    decreases |ts| - pos, 8
  {
    match Level(1, ts, pos)
    case Fail(at) => Fail(at)
    case Ok(e, p) =>
      if CheckValueAt(ts, p, "=") then
        match Assignment(ts, p + 1)
        case Fail(at) => Fail(at)
        case Ok(v, q) => if e.Variable? then Ok(Assign(e.name, v), q) else Ok(e, q)
      else Ok(e, p)
  }

  /** Binary level `k` (1..6): one operand of level `k + 1`, then the left fold. Level 7 is `primary`. */
  function Level(k: nat, ts: seq<Token>, pos: nat): (r: Parsed<Expr>)
    requires 1 <= k <= 7 && pos <= |ts|
    ensures r.Ok? ==> pos < r.next <= |ts| && WellShaped(r.value, k)
    ensures r.Fail? ==> pos <= r.at <= |ts|
    decreases |ts| - pos, 8 - k
  {
    if k == 7 then Primary(ts, pos)
    else
      match Level(k + 1, ts, pos)
      case Fail(at) => Fail(at)
      case Ok(e, p) => Fold(k, ts, e, p)
  }

  /** The `while (this.matchValue(...))` loop of level `k`, with `acc` the tree folded so far. */
  function Fold(k: nat, ts: seq<Token>, acc: Expr, pos: nat): (r: Parsed<Expr>)
    requires 1 <= k <= 6 && pos <= |ts| && WellShaped(acc, k)
    ensures r.Ok? ==> pos <= r.next <= |ts| && WellShaped(r.value, k)
    ensures r.Fail? ==> pos <= r.at <= |ts|
    decreases |ts| - pos, 0
  {
    if CheckValueIn(ts, pos, LevelOps(k)) then
      OpLevelOfLevelOps(k, ts[pos].value);
      match Level(k + 1, ts, pos + 1)
      case Fail(at) => Fail(at)
      case Ok(right, q) => Fold(k, ts, LevelNode(k, acc, ts[pos], right), q)
    else Ok(acc, pos)
  }

  /** A tree of level `k + 1` is also one of level `k`, for the binary levels. */
  lemma WellShapedWeaken(e: Expr, k: nat)
    requires 1 <= k && WellShaped(e, k + 1)
    ensures WellShaped(e, k)
  {
  }

  /** Level `k` (1..6) is its first operand, then the fold. */
  lemma LevelUnfold(k: nat, ts: seq<Token>, pos: nat, first: Parsed<Expr>)
    requires 1 <= k <= 6 && pos <= |ts| && first == Level(k + 1, ts, pos) && first.Ok?
    ensures WellShaped(first.value, k)
    ensures Level(k, ts, pos) == Fold(k, ts, first.value, first.next)
  {
    WellShapedWeaken(first.value, k);
  }

  /** The loop of level `k` stops at a token that is not one of its operators. */
  lemma FoldStop(k: nat, ts: seq<Token>, acc: Expr, pos: nat)
    requires 1 <= k <= 6 && pos <= |ts| && WellShaped(acc, k) && !CheckValueIn(ts, pos, LevelOps(k))
    ensures Fold(k, ts, acc, pos) == Ok(acc, pos)
  {
  }

  /** One iteration of the loop of level `k`: an operator of the level, then the right operand, folded into `acc`. */
  lemma FoldStep(k: nat, ts: seq<Token>, acc: Expr, pos: nat, right: Parsed<Expr>)
    requires 1 <= k <= 6 && pos < |ts| && WellShaped(acc, k) && CheckValueIn(ts, pos, LevelOps(k))
    requires right == Level(k + 1, ts, pos + 1)
    ensures right.Fail? ==> Fold(k, ts, acc, pos) == Fail(right.at)
    ensures right.Ok? ==> WellShaped(LevelNode(k, acc, ts[pos], right.value), k)
    ensures right.Ok? ==> Fold(k, ts, acc, pos) == Fold(k, ts, LevelNode(k, acc, ts[pos], right.value), right.next)
  {
    OpLevelOfLevelOps(k, ts[pos].value);
  }

  /** `primary()`: literals, a parenthesised group, an identifier; anything else fails. */
  function Primary(ts: seq<Token>, pos: nat): (r: Parsed<Expr>)
    requires pos <= |ts|
    ensures r.Ok? ==> pos < r.next <= |ts| && WellShaped(r.value, 7)
    ensures r.Fail? ==> pos <= r.at <= |ts|
    decreases |ts| - pos, 0
  {
    if CheckValueAt(ts, pos, "false") then Ok(Literal(BoolLit(false)), pos + 1)
    else if CheckValueAt(ts, pos, "true") then Ok(Literal(BoolLit(true)), pos + 1)
    else if CheckValueAt(ts, pos, "nil") then Ok(Literal(NilLit), pos + 1)
    else if CheckAt(ts, pos, "number") || CheckAt(ts, pos, "string") then
      Ok(Literal(ParseRaw(ts[pos].value)), pos + 1)
    else if CheckAt(ts, pos, "lparen") then
      match Expression(ts, pos + 1)
      case Fail(at) => Fail(at)
      case Ok(e, p) => Ok(Grouping(e), if CheckValueAt(ts, p, ")") then p + 1 else p)
    else if CheckAt(ts, pos, "identifier") then Ok(Variable(ts[pos], pos), pos + 1)
    else Fail(pos)
  }

  /**
   * `call()`: a primary followed by any number of argument lists.  No other
   * rule calls it (`factor` goes straight to `primary`), so no parse contains
   * a `Call` node; see ExpressionIsPlain.
   */
  function CallExpr(ts: seq<Token>, pos: nat): (r: Parsed<Expr>)
    requires pos <= |ts|
    ensures r.Ok? ==> pos < r.next <= |ts| + 1
    ensures r.Fail? ==> pos <= r.at <= |ts|
  {
    match Primary(ts, pos)
    case Fail(at) => Fail(at)
    case Ok(e, p) => CallFold(ts, e, p)
  }

  /** The `while (true)` loop of `call()`: one `finishCall` per `(`. */
  function CallFold(ts: seq<Token>, callee: Expr, pos: nat): (r: Parsed<Expr>)
    requires pos <= |ts| + 1
    ensures r.Ok? ==> pos <= r.next <= |ts| + 1
    ensures r.Fail? ==> pos <= r.at <= |ts|
    decreases |ts| + 1 - pos
  {
    if CheckAt(ts, pos, "lparen") then
      match FinishCall(ts, callee, pos + 1)
      case Fail(at) => Fail(at)
      case Ok(c, q) => CallFold(ts, c, q)
    else Ok(callee, pos)
  }

  /** `finishCall(callee)`, after `(`: the arguments, then the `)` if present. */
  function FinishCall(ts: seq<Token>, callee: Expr, pos: nat): (r: Parsed<Expr>)
    requires pos <= |ts|
    ensures r.Ok? ==> pos <= r.next <= |ts| + 1 && r.value.Call? && r.value.callee == callee
    ensures r.Fail? ==> pos <= r.at <= |ts|
  {
    var args := if CheckAt(ts, pos, "rparen") then Ok([], pos) else Arguments(ts, pos, []);
    match args
    case Fail(at) => Fail(at)
    case Ok(a, q) =>
      Ok(Call(callee, if CheckAt(ts, q, "rparen") then Some(ts[q]) else None, a), Skip(ts, q, "rparen"))
  }

  /** The `do { ... } while (this.match("comma"))` loop of `finishCall`. */
  function Arguments(ts: seq<Token>, pos: nat, acc: seq<Expr>): (r: Parsed<seq<Expr>>)
    requires pos <= |ts|
    ensures r.Ok? ==> pos < r.next <= |ts| && |r.value| > |acc| && r.value[..|acc|] == acc
    ensures r.Fail? ==> pos <= r.at <= |ts|
    decreases |ts| - pos
  {
    match Expression(ts, pos)
    case Fail(at) => Fail(at)
    case Ok(e, p) =>
      if CheckAt(ts, p, "comma") then Arguments(ts, p + 1, acc + [e]) else Ok(acc + [e], p)
  }

  /** The token values before which `synchronize` stops. */
  const SyncKeywords: seq<string> := ["class", "fun", "var", "for", "if", "while", "print", "return"]

  /** `synchronize` does not stop with the cursor at `q`: a token is there, the previous is no `semi`, it starts no statement. */
  predicate PassesOver(ts: seq<Token>, q: nat)
  {
    0 < q < |ts| && ts[q - 1].kind != "semi" && ts[q].value !in SyncKeywords
  }

  /**
   * `synchronize()`: one unconditional `advance`, then advance until the
   * previous token is a `semi`, the current token's value starts a statement,
   * or the input is exhausted.  The result is the first stop, and it is past `pos`.
   */
  function Synchronize(ts: seq<Token>, pos: nat): (r: nat)
    requires pos <= |ts| + 1
    ensures pos <= |ts| ==> pos < r
    ensures pos <= r <= |ts| + 1
    ensures r < |ts| ==> 0 < r && (ts[r - 1].kind == "semi" || ts[r].value in SyncKeywords)
    ensures forall q | pos < q < r :: PassesOver(ts, q)
  {
    SyncLoop(ts, if pos <= |ts| then pos + 1 else pos)
  }

  function SyncLoop(ts: seq<Token>, cur: nat): (r: nat)
    requires 0 < cur <= |ts| + 1
    ensures cur <= r <= |ts| + 1
    ensures r < |ts| ==> ts[r - 1].kind == "semi" || ts[r].value in SyncKeywords
    ensures forall q | cur <= q < r :: PassesOver(ts, q)
    decreases |ts| + 1 - cur
  {
    if cur >= |ts| then cur
    else if ts[cur - 1].kind == "semi" then cur
    else if ts[cur].value in SyncKeywords then cur
    else SyncLoop(ts, cur + 1)
  }

  /** An optional `;` terminator: consumed when present, never required. */
  function SkipSemicolon(ts: seq<Token>, pos: nat): nat
  {
    if CheckValueAt(ts, pos, ";") then pos + 1 else pos
  }

  /** `consume(type, ...)` whose result is not used: advance past a token of this type if it is there. */
  function Skip(ts: seq<Token>, pos: nat, kind: string): nat
  {
    if CheckAt(ts, pos, kind) then pos + 1 else pos
  }

  /**
   * The `for` desugaring: the increment is appended to the body in a block, a
   * missing condition becomes `true`, the loop is a `While`, and an
   * initializer is placed before it in a block.
   */
  function DesugarFor(init: Option<Stmt>, cond: Option<Expr>, incr: Option<Expr>, body: Stmt): (r: Stmt)
    ensures init.None? ==> r.While?
    ensures init.Some? ==> r.Block? && |r.statements| == 2 && r.statements[0] == init.value && r.statements[1].While?
    ensures var w := if init.Some? then r.statements[1] else r;
      w.While? &&
      w.condition == (if cond.Some? then cond.value else Literal(BoolLit(true))) &&
      w.body == (if incr.Some? then Block([body, Stmt.Expression(incr.value)]) else body)
  {
    var loopBody := if incr.Some? then Block([body, Stmt.Expression(incr.value)]) else body;
    var condition := if cond.Some? then cond.value else Literal(BoolLit(true));
    var loop := While(condition, loopBody);
    if init.Some? then Block([init.value, loop]) else loop
  }

  /** `declaration()`: a `var` declaration or a statement; a failure ends the parse, or is recovered from. */
  function Declaration(ts: seq<Token>, pos: nat, recovering: bool): (r: Parsed<Option<Stmt>>)
    requires pos <= |ts|
    ensures r.Ok? ==> pos < r.next <= |ts| + 1
    ensures r.Fail? ==> !recovering && pos <= r.at <= |ts|
    decreases |ts| + 1 - pos, 3
  {
    var s := if CheckValueAt(ts, pos, "var") then VarDeclaration(ts, pos + 1) else Statement(ts, pos, recovering);
    match s
    case Ok(st, p) => Ok(Some(st), p)
    case Fail(at) => if recovering then Ok(None, Synchronize(ts, at)) else Fail(at)
  }

  /** `varDeclaration()`, after `var`: an optional name, an optional `= initializer`, an optional `;`. */
  function VarDeclaration(ts: seq<Token>, pos: nat): (r: Parsed<Stmt>)
    requires pos <= |ts|
    ensures r.Ok? ==> pos <= r.next <= |ts| && r.value.Var?
    ensures r.Fail? ==> pos <= r.at <= |ts|
  {
    var name := if CheckAt(ts, pos, "identifier") then Some(ts[pos]) else None;
    var p := if name.Some? then pos + 1 else pos;
    if CheckValueAt(ts, p, "=") then
      match Expression(ts, p + 1)
      case Fail(at) => Fail(at)
      case Ok(init, q) => Ok(Var(name, Some(init)), SkipSemicolon(ts, q))
    else Ok(Var(name, None), SkipSemicolon(ts, p))
  }

  /** `statement()`: dispatch on `print`, `{`, `if`, `while`, `for`, else an expression statement. */
  function Statement(ts: seq<Token>, pos: nat, recovering: bool): (r: Parsed<Stmt>)
    requires pos <= |ts|
    ensures r.Ok? ==> pos < r.next <= |ts| + 1
    ensures r.Fail? ==> pos <= r.at <= |ts|
    decreases |ts| + 1 - pos, 2
  {
    if CheckValueAt(ts, pos, "print") then PrintStatement(ts, pos + 1)
    else if CheckValueAt(ts, pos, "{") then
      match BlockLoop(ts, pos + 1, recovering, [])
      case Fail(at) => Fail(at)
      case Ok(ss, p) => Ok(Block(ss), p)
    else if CheckValueAt(ts, pos, "if") then IfStatement(ts, pos + 1, recovering)
    else if CheckValueAt(ts, pos, "while") then WhileStatement(ts, pos + 1, recovering)
    else if CheckValueAt(ts, pos, "for") then ForStatement(ts, pos + 1, recovering)
    else ExpressionStatement(ts, pos)
  }

  /** `block()`, after `{`: declarations until `}` or the end, then the `}` if present. */
  function BlockLoop(ts: seq<Token>, pos: nat, recovering: bool, acc: seq<Stmt>): (r: Parsed<seq<Stmt>>)
    requires pos <= |ts| + 1
    ensures r.Ok? ==> pos <= r.next <= |ts| + 1
    ensures r.Fail? ==> pos <= r.at <= |ts|
    decreases |ts| + 1 - pos, 4
  {
    if !CheckValueAt(ts, pos, "}") && pos < |ts| then
      match Declaration(ts, pos, recovering)
      case Fail(at) => Fail(at)
      case Ok(d, p) => BlockLoop(ts, p, recovering, if d.Some? then acc + [d.value] else acc)
    else Ok(acc, if CheckValueAt(ts, pos, "}") then pos + 1 else pos)
  }

  /** `ifStatement()`, after `if`. */
  function IfStatement(ts: seq<Token>, pos: nat, recovering: bool): (r: Parsed<Stmt>)
    requires pos <= |ts|
    ensures r.Ok? ==> pos < r.next <= |ts| + 1
    ensures r.Fail? ==> pos <= r.at <= |ts|
    decreases |ts| + 1 - pos, 1
  {
    match Expression(ts, Skip(ts, pos, "lparen"))
    case Fail(at) => Fail(at)
    case Ok(c, p) =>
      match Statement(ts, Skip(ts, p, "rparen"), recovering)
      case Fail(at) => Fail(at)
      case Ok(t, q) =>
        match ElseBranch(ts, q, recovering)
        case Fail(at) => Fail(at)
        case Ok(e, q') => Ok(If(c, t, e), q')
  }

  /** The optional `else` of `ifStatement()`: the statement after an `else`, or nothing. */
  function ElseBranch(ts: seq<Token>, pos: nat, recovering: bool): (r: Parsed<Option<Stmt>>)
    requires pos <= |ts| + 1
    ensures r.Ok? ==> pos <= r.next <= |ts| + 1 && (r.value.Some? <==> CheckValueAt(ts, pos, "else"))
    ensures r.Fail? ==> pos < r.at <= |ts|
    decreases |ts| + 1 - pos, 0
  {
    if CheckValueAt(ts, pos, "else") then
      match Statement(ts, pos + 1, recovering)
      case Fail(at) => Fail(at)
      case Ok(e, q) => Ok(Some(e), q)
    else Ok(None, pos)
  }

  /** `whileStatement()`, after `while`. */
  function WhileStatement(ts: seq<Token>, pos: nat, recovering: bool): (r: Parsed<Stmt>)
    requires pos <= |ts|
    ensures r.Ok? ==> pos < r.next <= |ts| + 1
    ensures r.Fail? ==> pos <= r.at <= |ts|
    decreases |ts| + 1 - pos, 1
  {
    match Expression(ts, Skip(ts, pos, "lparen"))
    case Fail(at) => Fail(at)
    case Ok(c, p) =>
      match Statement(ts, Skip(ts, p, "rparen"), recovering)
      case Fail(at) => Fail(at)
      case Ok(b, q) => Ok(While(c, b), q)
  }

  /** The three clauses of a `for` and the position after the closing parenthesis. */
  datatype ForClauses = ForClauses(init: Option<Stmt>, cond: Option<Expr>, incr: Option<Expr>, bodyAt: nat)

  /** The initializer clause of a `for`: `;` (none), a `var` declaration, or an expression statement. */
  function ForInit(ts: seq<Token>, pos: nat): (r: Parsed<Option<Stmt>>)
    requires pos <= |ts|
    ensures r.Ok? ==> pos <= r.next <= |ts|
    ensures r.Fail? ==> pos <= r.at <= |ts|
  {
    if CheckAt(ts, pos, "semi") then Ok(None, pos + 1)
    else if CheckValueAt(ts, pos, "var") then
      match VarDeclaration(ts, pos + 1)
      case Fail(at) => Fail(at)
      case Ok(s, p) => Ok(Some(s), p)
    else
      match ExpressionStatement(ts, pos)
      case Fail(at) => Fail(at)
      case Ok(s, p) => Ok(Some(s), p)
  }

  /** An optional expression, absent when the next token has type `stop`. */
  function OptionalExpression(ts: seq<Token>, pos: nat, stop: string): (r: Parsed<Option<Expr>>)
    requires pos <= |ts|
    ensures r.Ok? ==> pos <= r.next <= |ts|
    ensures r.Fail? ==> pos <= r.at <= |ts|
  {
    if CheckAt(ts, pos, stop) then Ok(None, pos)
    else
      match Expression(ts, pos)
      case Fail(at) => Fail(at)
      case Ok(e, p) => Ok(Some(e), p)
  }

  /** The clauses of `forStatement()`, after `for`; `bodyAt` is where the body starts. */
  function ForHeader(ts: seq<Token>, pos: nat): (r: Parsed<ForClauses>)
    requires pos <= |ts|
    ensures r.Ok? ==> pos <= r.value.bodyAt <= |ts|
    ensures r.Fail? ==> pos <= r.at <= |ts|
  {
    match ForInit(ts, Skip(ts, pos, "lparen"))
    case Fail(at) => Fail(at)
    case Ok(i, p1) =>
      match OptionalExpression(ts, p1, "semi")
      case Fail(at) => Fail(at)
      case Ok(c, p2) =>
        match OptionalExpression(ts, Skip(ts, p2, "semi"), "rparen")
        case Fail(at) => Fail(at)
        case Ok(n, p3) => Ok(ForClauses(i, c, n, Skip(ts, p3, "rparen")), Skip(ts, p3, "rparen"))
  }

  /** `forStatement()`, after `for`: the clauses, the body, and the desugared loop. */
  function ForStatement(ts: seq<Token>, pos: nat, recovering: bool): (r: Parsed<Stmt>)
    requires pos <= |ts|
    ensures r.Ok? ==> pos < r.next <= |ts| + 1
    ensures r.Fail? ==> pos <= r.at <= |ts|
    decreases |ts| + 1 - pos, 1
  {
    match ForHeader(ts, pos)
    case Fail(at) => Fail(at)
    case Ok(h, _) =>
      match Statement(ts, h.bodyAt, recovering)
      case Fail(at) => Fail(at)
      case Ok(b, q) => Ok(DesugarFor(h.init, h.cond, h.incr, b), q)
  }

  /** `printStatement()`, after `print`. */
  function PrintStatement(ts: seq<Token>, pos: nat): (r: Parsed<Stmt>)
    requires pos <= |ts|
    ensures r.Ok? ==> pos < r.next <= |ts|
    ensures r.Fail? ==> pos <= r.at <= |ts|
  {
    match Expression(ts, pos)
    case Fail(at) => Fail(at)
    case Ok(e, p) => Ok(Print(e), SkipSemicolon(ts, p))
  }

  /** `expressionStatement()`. */
  function ExpressionStatement(ts: seq<Token>, pos: nat): (r: Parsed<Stmt>)
    requires pos <= |ts|
    ensures r.Ok? ==> pos < r.next <= |ts|
    ensures r.Fail? ==> pos <= r.at <= |ts|
  {
    match Expression(ts, pos)
    case Fail(at) => Fail(at)
    case Ok(e, p) => Ok(Stmt.Expression(e), SkipSemicolon(ts, p))
  }

  /** `parse()`: declarations until the input is exhausted. */
  function Parse(ts: seq<Token>, recovering: bool): ParseResult
  {
    ParseLoop(ts, 0, recovering, [])
  }

  function ParseLoop(ts: seq<Token>, pos: nat, recovering: bool, acc: seq<Stmt>): (r: ParseResult)
    requires pos <= |ts| + 1
    ensures r.Exited? ==> !recovering
    decreases |ts| + 1 - pos
  {
    if pos >= |ts| then Parsed(acc)
    else
      match Declaration(ts, pos, recovering)
      case Fail(at) => Exited(at)
      case Ok(d, p) => ParseLoop(ts, p, recovering, if d.Some? then acc + [d.value] else acc)
  }

  // ---------------------------------------------------------------------------
  // Properties of the expression grammar

  /** No `Call`, `Unary` or `Get` node anywhere in the tree. */
  predicate Plain(e: Expr)
  {
    match e
    case Assign(_, v) => Plain(v)
    case Binary(l, _, r) => Plain(l) && Plain(r)
    case Logical(l, _, r) => Plain(l) && Plain(r)
    case Grouping(x) => Plain(x)
    case Literal(_) => true
    case Variable(_, _) => true
    case Call(_, _, _) => false
    case Get(_, _) => false
    case Unary(_, _) => false
  }

  /** The grammar never yields `Call`, `Unary` or `Get`: `factor` descends straight to `primary`. */
  lemma {:induction false} WellShapedIsPlain(e: Expr, k: nat)
    requires WellShaped(e, k)
    ensures Plain(e)
  {
    match e
    case Assign(_, v) => WellShapedIsPlain(v, 0);
    case Binary(l, op, r) =>
      WellShapedIsPlain(l, OpLevel(op.value));
      WellShapedIsPlain(r, OpLevel(op.value) + 1);
    case Logical(l, op, r) =>
      WellShapedIsPlain(l, OpLevel(op.value));
      WellShapedIsPlain(r, OpLevel(op.value) + 1);
    case Grouping(x) => WellShapedIsPlain(x, 0);
    case Literal(_) =>
    case Variable(_, _) =>
  }

  /** Every expression the parser returns is free of `Call`, `Unary` and `Get` nodes. */
  lemma ExpressionIsPlain(ts: seq<Token>, pos: nat)
    requires pos <= |ts| && Expression(ts, pos).Ok?
    ensures Plain(Expression(ts, pos).value)
  {
    WellShapedIsPlain(Expression(ts, pos).value, 0);
  }

  /** The ids of the `Variable` nodes of a tree, left to right. */
  function VarIds(e: Expr): seq<nat>
  {
    match e
    case Assign(_, v) => VarIds(v)
    case Binary(l, _, r) => VarIds(l) + VarIds(r)
    case Call(c, _, args) => VarIds(c) + ArgIds(args)
    case Get(o, _) => VarIds(o)
    case Grouping(x) => VarIds(x)
    case Literal(_) => []
    case Unary(_, r) => VarIds(r)
    case Logical(l, _, r) => VarIds(l) + VarIds(r)
    case Variable(_, id) => [id]
  }

  function ArgIds(args: seq<Expr>): seq<nat>
  {
    if args == [] then [] else VarIds(args[0]) + ArgIds(args[1..])
  }

  /** `s` is strictly increasing and lies in `[lo, hi)`. */
  ghost predicate Spans(s: seq<nat>, lo: nat, hi: nat)
  {
    (forall i | 0 <= i < |s| :: lo <= s[i] < hi) &&
    (forall i, j | 0 <= i < j < |s| :: s[i] < s[j])
  }

  lemma SpansConcat(a: seq<nat>, b: seq<nat>, lo: nat, mid: nat, hi: nat)
    requires lo <= mid <= hi && Spans(a, lo, mid) && Spans(b, mid, hi)
    ensures Spans(a + b, lo, hi)
  {
    forall i | 0 <= i < |a + b| ensures lo <= (a + b)[i] < hi {
      if i < |a| { assert (a + b)[i] == a[i]; } else { assert (a + b)[i] == b[i - |a|]; }
    }
    forall i, j | 0 <= i < j < |a + b| ensures (a + b)[i] < (a + b)[j] {
      if j < |a| {
      } else if i < |a| {
        assert (a + b)[i] == a[i] && (a + b)[j] == b[j - |a|];
      } else {
        assert (a + b)[i] == b[i - |a|] && (a + b)[j] == b[j - |a|];
      }
    }
  }

  lemma {:induction false} IdsExpression(ts: seq<Token>, pos: nat)
    requires pos <= |ts| && Expression(ts, pos).Ok?
    ensures Spans(VarIds(Expression(ts, pos).value), pos, Expression(ts, pos).next)
    decreases |ts| - pos, 9
  {
    IdsAssignment(ts, pos);
  }

  lemma {:induction false} IdsAssignment(ts: seq<Token>, pos: nat)
    requires pos <= |ts| && Assignment(ts, pos).Ok?
    ensures Spans(VarIds(Assignment(ts, pos).value), pos, Assignment(ts, pos).next)
    decreases |ts| - pos, 8
  {
    IdsLevel(1, ts, pos);
    var p := Level(1, ts, pos).next;
    if CheckValueAt(ts, p, "=") {
      IdsAssignment(ts, p + 1);
      var q := Assignment(ts, p + 1).next;
      var v := Assignment(ts, p + 1).value;
      var e := Level(1, ts, pos).value;
      if !e.Variable? {
        SpansConcat(VarIds(e), [], pos, p, q);
        assert VarIds(e) + [] == VarIds(e);
      }
    }
  }

  lemma {:induction false} IdsLevel(k: nat, ts: seq<Token>, pos: nat)
    requires 1 <= k <= 7 && pos <= |ts| && Level(k, ts, pos).Ok?
    ensures Spans(VarIds(Level(k, ts, pos).value), pos, Level(k, ts, pos).next)
    decreases |ts| - pos, 8 - k
  {
    if k == 7 {
      IdsPrimary(ts, pos);
    } else {
      IdsLevel(k + 1, ts, pos);
      var r := Level(k + 1, ts, pos);
      IdsFold(k, ts, r.value, pos, r.next);
    }
  }

  lemma {:induction false} IdsFold(k: nat, ts: seq<Token>, acc: Expr, lo: nat, pos: nat)
    requires 1 <= k <= 6 && lo <= pos <= |ts| && WellShaped(acc, k)
    requires Spans(VarIds(acc), lo, pos) && Fold(k, ts, acc, pos).Ok?
    ensures Spans(VarIds(Fold(k, ts, acc, pos).value), lo, Fold(k, ts, acc, pos).next)
    decreases |ts| - pos, 0
  {
    if CheckValueIn(ts, pos, LevelOps(k)) {
      OpLevelOfLevelOps(k, ts[pos].value);
      IdsLevel(k + 1, ts, pos + 1);
      var r := Level(k + 1, ts, pos + 1);
      var node := LevelNode(k, acc, ts[pos], r.value);
      SpansConcat(VarIds(acc), VarIds(r.value), lo, pos + 1, r.next);
      assert VarIds(node) == VarIds(acc) + VarIds(r.value);
      IdsFold(k, ts, node, lo, r.next);
    }
  }

  lemma {:induction false} IdsPrimary(ts: seq<Token>, pos: nat)
    requires pos <= |ts| && Primary(ts, pos).Ok?
    ensures Spans(VarIds(Primary(ts, pos).value), pos, Primary(ts, pos).next)
    decreases |ts| - pos, 0
  {
    if !CheckValueAt(ts, pos, "false") && !CheckValueAt(ts, pos, "true") && !CheckValueAt(ts, pos, "nil")
      && !CheckAt(ts, pos, "number") && !CheckAt(ts, pos, "string") && CheckAt(ts, pos, "lparen")
    {
      IdsExpression(ts, pos + 1);
    }
  }

  /** Variable nodes of one parsed expression have pairwise distinct ids: the resolver's side table is well keyed. */
  lemma DistinctIds(ts: seq<Token>, pos: nat)
    requires pos <= |ts| && Expression(ts, pos).Ok?
    ensures var ids := VarIds(Expression(ts, pos).value);
      forall i, j | 0 <= i < |ids| && 0 <= j < |ids| && i != j :: ids[i] != ids[j]
  {
    IdsExpression(ts, pos);
    var ids := VarIds(Expression(ts, pos).value);
    forall i, j | 0 <= i < |ids| && 0 <= j < |ids| && i != j ensures ids[i] != ids[j] {
      if i < j { assert ids[i] < ids[j]; } else { assert ids[j] < ids[i]; }
    }
  }

  // ---------------------------------------------------------------------------
  // Worked examples (tokens as the scanner produces them)

  function Ident(name: string): Token { Token("identifier", name, name, 1) }
  function Operator(v: string): Token { Token("operator", v, v, 1) }
  function Number(v: string): Token { Token("number", v, v, 1) }

  /** `a - b - c` groups to the left. */
  lemma SubtractionGroupsLeft(ts: seq<Token>)
    requires |ts| == 5 && ts[0] == Ident("a") && ts[1] == Operator("-") && ts[2] == Ident("b")
    requires ts[3] == Operator("-") && ts[4] == Ident("c")
    ensures Expression(ts, 0)
         == Ok(Binary(Binary(Variable(Ident("a"), 0), Operator("-"), Variable(Ident("b"), 2)),
                      Operator("-"), Variable(Ident("c"), 4)), 5)
  {
    var a, b, c := Variable(Ident("a"), 0), Variable(Ident("b"), 2), Variable(Ident("c"), 4);
    var ab := Binary(a, Operator("-"), b);
    var abc := Binary(ab, Operator("-"), c);
    assert Level(6, ts, 0) == Ok(a, 1) by { assert Primary(ts, 0) == Ok(a, 1); }
    assert Level(6, ts, 2) == Ok(b, 3) by { assert Primary(ts, 2) == Ok(b, 3); }
    assert Level(6, ts, 4) == Ok(c, 5) by { assert Primary(ts, 4) == Ok(c, 5); }
    assert Fold(5, ts, ab, 3) == Ok(abc, 5);
    assert Level(5, ts, 0) == Ok(abc, 5) by { assert Fold(5, ts, a, 1) == Fold(5, ts, ab, 3); }
    assert Level(4, ts, 0) == Ok(abc, 5);
    assert Level(3, ts, 0) == Ok(abc, 5);
    assert Level(2, ts, 0) == Ok(abc, 5);
    assert Level(1, ts, 0) == Ok(abc, 5);
    assert Assignment(ts, 0) == Ok(abc, 5);
  }

  /** A numeral `d` for a single digit `d` is a whole primary. */
  lemma DigitPrimary(ts: seq<Token>, pos: nat, n: nat)
    requires n < 10 && pos < |ts| && ts[pos] == Number(Text.NatToString(n))
    ensures Primary(ts, pos) == Ok(Literal(NumLit(n)), pos + 1)
  {
    Text.ParseNumberOfNatToString(n);
  }

  /** `2 * 3`, at the end of `1 + 2 * 3`. */
  lemma ProductOperand(ts: seq<Token>)
    requires |ts| == 5 && ts[2] == Number("2") && ts[3] == Operator("*") && ts[4] == Number("3")
    ensures Level(6, ts, 2) == Ok(Binary(Literal(NumLit(2)), Operator("*"), Literal(NumLit(3))), 5)
  {
    DigitPrimary(ts, 2, 2);
    DigitPrimary(ts, 4, 3);
    var product := Binary(Literal(NumLit(2)), Operator("*"), Literal(NumLit(3)));
    assert Fold(6, ts, Literal(NumLit(2)), 3) == Ok(product, 5);
  }

  /** `1 + 2 * 3`: the factor binds tighter than the term. */
  lemma FactorBindsTighter(ts: seq<Token>)
    requires |ts| == 5 && ts[0] == Number("1") && ts[1] == Operator("+") && ts[2] == Number("2")
    requires ts[3] == Operator("*") && ts[4] == Number("3")
    ensures Expression(ts, 0)
         == Ok(Binary(Literal(NumLit(1)), Operator("+"),
                      Binary(Literal(NumLit(2)), Operator("*"), Literal(NumLit(3)))), 5)
  {
    var one := Literal(NumLit(1));
    var product := Binary(Literal(NumLit(2)), Operator("*"), Literal(NumLit(3)));
    var sum := Binary(one, Operator("+"), product);
    DigitPrimary(ts, 0, 1);
    ProductOperand(ts);
    assert Level(6, ts, 0) == Ok(one, 1);
    assert Level(5, ts, 0) == Ok(sum, 5) by { assert Fold(5, ts, one, 1) == Fold(5, ts, sum, 5); }
    assert Level(4, ts, 0) == Ok(sum, 5);
    assert Level(3, ts, 0) == Ok(sum, 5);
    assert Level(2, ts, 0) == Ok(sum, 5);
    assert Level(1, ts, 0) == Ok(sum, 5);
    assert Assignment(ts, 0) == Ok(sum, 5);
  }

  /** A variable followed by `=` becomes an assignment of whatever the rest parses to. */
  lemma AssignmentStep(ts: seq<Token>, pos: nat)
    requires pos + 2 <= |ts| && ts[pos].kind == "identifier" && ts[pos].value !in ["false", "true", "nil"]
    requires ts[pos + 1] == Operator("=") && Assignment(ts, pos + 2).Ok?
    ensures Assignment(ts, pos) == Ok(Assign(ts[pos], Assignment(ts, pos + 2).value), Assignment(ts, pos + 2).next)
  {
    OperandAlone(ts, pos, Variable(ts[pos], pos));
    assert CheckValueAt(ts, pos + 1, "=");
  }

  /** `a = b = c` nests to the right. */
  lemma AssignmentGroupsRight(ts: seq<Token>)
    requires |ts| == 5 && ts[0] == Ident("a") && ts[1] == Operator("=") && ts[2] == Ident("b")
    requires ts[3] == Operator("=") && ts[4] == Ident("c")
    ensures Expression(ts, 0) == Ok(Assign(Ident("a"), Assign(Ident("b"), Variable(Ident("c"), 4))), 5)
  {
    OperandAlone(ts, 4, Variable(Ident("c"), 4));
    AssignmentStep(ts, 2);
    AssignmentStep(ts, 0);
  }

  lemma OperandAlone(ts: seq<Token>, pos: nat, v: Expr)
    requires pos < |ts| && ts[pos].kind == "identifier" && ts[pos].value !in ["false", "true", "nil"]
    requires v == Variable(ts[pos], pos)
    requires pos + 1 < |ts| ==> OpLevel(ts[pos + 1].value) == 7
    ensures Level(1, ts, pos) == Ok(v, pos + 1)
  {
    assert Primary(ts, pos) == Ok(v, pos + 1);
    assert Level(6, ts, pos) == Ok(v, pos + 1);
    assert Level(5, ts, pos) == Ok(v, pos + 1);
    assert Level(4, ts, pos) == Ok(v, pos + 1);
    assert Level(3, ts, pos) == Ok(v, pos + 1);
    assert Level(2, ts, pos) == Ok(v, pos + 1);
  }

  /** `a + b = c`: an invalid target is returned unchanged, and the right-hand side is consumed. */
  lemma InvalidTargetKept(ts: seq<Token>, pos: nat)
    requires pos <= |ts| && Level(1, ts, pos).Ok? && !Level(1, ts, pos).value.Variable?
    requires CheckValueAt(ts, Level(1, ts, pos).next, "=")
    requires Assignment(ts, Level(1, ts, pos).next + 1).Ok?
    ensures Assignment(ts, pos) == Ok(Level(1, ts, pos).value, Assignment(ts, Level(1, ts, pos).next + 1).next)
  {
  }

  /**
   * `print e;`: the statement succeeds exactly when its expression does; a
   * `;` right after the expression is consumed, and its absence is no error.
   */
  lemma PrintSemicolonOptional(ts: seq<Token>, pos: nat)
    requires pos <= |ts|
    ensures PrintStatement(ts, pos).Ok? <==> Expression(ts, pos).Ok?
    ensures var e := Expression(ts, pos);
      e.Fail? ==> PrintStatement(ts, pos) == Fail(e.at)
    ensures var e := Expression(ts, pos);
      e.Ok? ==> PrintStatement(ts, pos) == Ok(Print(e.value), if CheckValueAt(ts, e.next, ";") then e.next + 1 else e.next)
  {
  }

  /** An expression statement succeeds exactly when its expression does; the trailing `;` is optional. */
  lemma ExpressionSemicolonOptional(ts: seq<Token>, pos: nat)
    requires pos <= |ts|
    ensures ExpressionStatement(ts, pos).Ok? <==> Expression(ts, pos).Ok?
    ensures var e := Expression(ts, pos);
      e.Fail? ==> ExpressionStatement(ts, pos) == Fail(e.at)
    ensures var e := Expression(ts, pos);
      e.Ok? ==> ExpressionStatement(ts, pos) == Ok(Stmt.Expression(e.value), if CheckValueAt(ts, e.next, ";") then e.next + 1 else e.next)
  {
  }

  /**
   * `var name = init;` after `var`: the name, the initializer and the `;` are
   * each optional.  Without `=` the declaration always succeeds; with one it
   * succeeds exactly when the initializer parses.  A `;` after the last part
   * is consumed, and its absence is no error.
   */
  lemma VarSemicolonOptional(ts: seq<Token>, pos: nat)
    requires pos <= |ts|
    ensures var name := if CheckAt(ts, pos, "identifier") then Some(ts[pos]) else None;
      var p := if name.Some? then pos + 1 else pos;
      !CheckValueAt(ts, p, "=") ==>
        VarDeclaration(ts, pos) == Ok(Var(name, None), if CheckValueAt(ts, p, ";") then p + 1 else p)
    ensures var name := if CheckAt(ts, pos, "identifier") then Some(ts[pos]) else None;
      var p := if name.Some? then pos + 1 else pos;
      CheckValueAt(ts, p, "=") ==>
        var e := Expression(ts, p + 1);
        (VarDeclaration(ts, pos).Ok? <==> e.Ok?) &&
        (e.Fail? ==> VarDeclaration(ts, pos) == Fail(e.at)) &&
        (e.Ok? ==> VarDeclaration(ts, pos) == Ok(Var(name, Some(e.value)), if CheckValueAt(ts, e.next, ";") then e.next + 1 else e.next))
  {
    var name := if CheckAt(ts, pos, "identifier") then Some(ts[pos]) else None;
    var p := if name.Some? then pos + 1 else pos;
    if CheckValueAt(ts, p, "=") {
      var e := Expression(ts, p + 1);
      if e.Ok? {
        assert VarDeclaration(ts, pos) == Ok(Var(name, Some(e.value)), SkipSemicolon(ts, e.next));
      } else {
        assert VarDeclaration(ts, pos) == Fail(e.at);
      }
    } else {
      assert VarDeclaration(ts, pos) == Ok(Var(name, None), SkipSemicolon(ts, p));
    }
  }

  /** An identifier followed by `,` or `)` is a whole argument. */
  lemma IdentifierArgument(ts: seq<Token>, pos: nat)
    requires pos + 1 < |ts| && ts[pos].kind == "identifier" && ts[pos].value !in ["false", "true", "nil"]
    requires ts[pos + 1] in [Token("comma", ",", ",", 1), Token("rparen", ")", ")", 1)]
    ensures Expression(ts, pos) == Ok(Variable(ts[pos], pos), pos + 1)
  {
    OperandAlone(ts, pos, Variable(ts[pos], pos));
    assert !CheckValueAt(ts, pos + 1, "=");
  }

  /** The tokens of `f(a, b)`, from position 0. */
  predicate CallTokens(ts: seq<Token>)
  {
    |ts| == 6 && ts[0] == Ident("f") && ts[1] == Token("lparen", "(", "(", 1) && ts[2] == Ident("a")
    && ts[3] == Token("comma", ",", ",", 1) && ts[4] == Ident("b") && ts[5] == Token("rparen", ")", ")", 1)
  }

  /** The argument list of `f(a, b)`. */
  lemma CallArguments(ts: seq<Token>)
    requires CallTokens(ts)
    ensures Arguments(ts, 2, []) == Ok([Variable(Ident("a"), 2), Variable(Ident("b"), 4)], 5)
  {
    var a, b := Variable(Ident("a"), 2), Variable(Ident("b"), 4);
    IdentifierArgument(ts, 2);
    IdentifierArgument(ts, 4);
    assert [a] + [b] == [a, b] && [] + [a] == [a];
    assert Arguments(ts, 4, [a]) == Ok([a, b], 5);
  }

  /** `finishCall` of `f(a, b)`, after the `(`. */
  lemma CallFinished(ts: seq<Token>)
    requires CallTokens(ts)
    ensures FinishCall(ts, Variable(Ident("f"), 0), 2)
         == Ok(Call(Variable(Ident("f"), 0), Some(Token("rparen", ")", ")", 1)), [Variable(Ident("a"), 2), Variable(Ident("b"), 4)]), 6)
  {
    CallArguments(ts);
    assert !CheckAt(ts, 2, "rparen");
    assert CheckAt(ts, 5, "rparen");
  }

  /** `f(a, b)`: the callee, both arguments in order, and the closing parenthesis kept in the node. */
  lemma CallCollectsArguments(ts: seq<Token>)
    requires CallTokens(ts)
    ensures CallExpr(ts, 0)
         == Ok(Call(Variable(Ident("f"), 0), Some(Token("rparen", ")", ")", 1)), [Variable(Ident("a"), 2), Variable(Ident("b"), 4)]), 6)
  {
    var f := Variable(Ident("f"), 0);
    var c := Call(f, Some(Token("rparen", ")", ")", 1)), [Variable(Ident("a"), 2), Variable(Ident("b"), 4)]);
    CallFinished(ts);
    assert CallFold(ts, c, 6) == Ok(c, 6);
    assert CallFold(ts, f, 1) == Ok(c, 6);
    assert Primary(ts, 0) == Ok(f, 1);
  }

  /** The empty `for (;;)` header: no clauses, and the body starts after the `)`. */
  lemma EmptyForHeader(ts: seq<Token>)
    requires |ts| == 5 && ts[0] == Token("lparen", "(", "(", 1) && ts[1] == Token("semi", ";", ";", 1)
    requires ts[2] == Token("semi", ";", ";", 1) && ts[3] == Token("rparen", ")", ")", 1)
    ensures ForHeader(ts, 0) == Ok(ForClauses(None, None, None, 4), 4)
  {
    assert ForInit(ts, 1) == Ok(None, 2);
    assert OptionalExpression(ts, 2, "semi") == Ok(None, 2);
    assert OptionalExpression(ts, 3, "rparen") == Ok(None, 3);
  }

  /** The empty `for (;;) body` is `while (true) body`. */
  lemma EmptyForIsWhileTrue(ts: seq<Token>)
    requires |ts| == 5 && ts[0] == Token("lparen", "(", "(", 1) && ts[1] == Token("semi", ";", ";", 1)
    requires ts[2] == Token("semi", ";", ";", 1) && ts[3] == Token("rparen", ")", ")", 1) && ts[4] == Ident("x")
    ensures ForStatement(ts, 0, false) == Ok(While(Literal(BoolLit(true)), Stmt.Expression(Variable(Ident("x"), 4))), 5)
  {
    EmptyForHeader(ts);
    VariableStatement(ts, 4);
  }

  /** A lone identifier is an expression statement. */
  lemma VariableStatement(ts: seq<Token>, pos: nat)
    requires pos + 1 == |ts| && ts[pos] == Ident("x")
    ensures Statement(ts, pos, false) == Ok(Stmt.Expression(Variable(Ident("x"), pos)), pos + 1)
  {
    OperandAlone(ts, pos, Variable(Ident("x"), pos));
    assert Expression(ts, pos) == Ok(Variable(Ident("x"), pos), pos + 1);
    assert ExpressionStatement(ts, pos) == Ok(Stmt.Expression(Variable(Ident("x"), pos)), pos + 1);
  }

  /** An identifier that no operator, `=` or `;` follows is a whole expression statement. */
  lemma IdentifierStatement(ts: seq<Token>, pos: nat)
    requires pos < |ts| && ts[pos].kind == "identifier"
    requires ts[pos].value !in ["false", "true", "nil", "print", "{", "if", "while", "for"]
    requires pos + 1 < |ts| ==> OpLevel(ts[pos + 1].value) == 7 && ts[pos + 1].value !in ["=", ";"]
    ensures Statement(ts, pos, false) == Ok(Stmt.Expression(Variable(ts[pos], pos)), pos + 1)
  {
    OperandAlone(ts, pos, Variable(ts[pos], pos));
    assert Expression(ts, pos) == Ok(Variable(ts[pos], pos), pos + 1);
  }

  /** The tokens of `(a) if (b) x else y`, the text after the outer `if`. */
  predicate DanglingElseTokens(ts: seq<Token>)
  {
    |ts| == 10 && ts[0] == Token("lparen", "(", "(", 1) && ts[1] == Ident("a") && ts[2] == Token("rparen", ")", ")", 1)
    && ts[3] == Ident("if") && ts[4] == Token("lparen", "(", "(", 1) && ts[5] == Ident("b")
    && ts[6] == Token("rparen", ")", ")", 1) && ts[7] == Ident("x") && ts[8] == Ident("else") && ts[9] == Ident("y")
  }

  /** `if (a) if (b) x else y`: the `else` belongs to the nearest `if`, and the outer one has none. */
  lemma DanglingElseBindsInner(ts: seq<Token>)
    requires DanglingElseTokens(ts)
    ensures IfStatement(ts, 0, false)
         == Ok(If(Variable(Ident("a"), 1),
                  If(Variable(Ident("b"), 5), Stmt.Expression(Variable(Ident("x"), 7)),
                     Some(Stmt.Expression(Variable(Ident("y"), 9)))),
                  None), 10)
  {
    IdentifierArgument(ts, 1);
    IdentifierArgument(ts, 5);
    IdentifierStatement(ts, 7);
    IdentifierStatement(ts, 9);
    var inner := If(Variable(Ident("b"), 5), Stmt.Expression(Variable(Ident("x"), 7)),
                    Some(Stmt.Expression(Variable(Ident("y"), 9))));
    assert ElseBranch(ts, 8, false) == Ok(Some(Stmt.Expression(Variable(Ident("y"), 9))), 10);
    assert IfStatement(ts, 4, false) == Ok(inner, 10);
    assert Statement(ts, 3, false) == Ok(inner, 10);
    assert ElseBranch(ts, 10, false) == Ok(None, 10);
  }

  /** The tokens of `) print 1`: a statement that cannot start an expression, then a well-formed one. */
  predicate BrokenThenPrint(ts: seq<Token>)
  {
    |ts| == 3 && ts[0] == Token("rparen", ")", ")", 1) && ts[1] == Ident("print") && ts[2] == Number("1")
  }

  /**
   * `) print 1`: as written, the broken first statement ends the whole parse,
   * so the well-formed statement after it is lost.
   */
  lemma BrokenStatementEndsParse(ts: seq<Token>)
    requires BrokenThenPrint(ts)
    ensures Parse(ts, false) == Exited(0)
  {
    BrokenPrimaryFails(ts);
  }

  /** With recovery, the broken statement is dropped and the next one is parsed. */
  lemma RecoveryKeepsNextStatement(ts: seq<Token>)
    requires BrokenThenPrint(ts)
    ensures Parse(ts, true) == Parsed([Print(Literal(NumLit(1)))])
  {
    BrokenPrimaryFails(ts);
    assert Synchronize(ts, 0) == 1;
    var one := Literal(NumLit(1));
    DigitPrimary(ts, 2, 1);
    assert Level(6, ts, 2) == Ok(one, 3);
    assert Level(5, ts, 2) == Ok(one, 3);
    assert Level(4, ts, 2) == Ok(one, 3);
    assert Level(3, ts, 2) == Ok(one, 3);
    assert Level(2, ts, 2) == Ok(one, 3);
    assert Level(1, ts, 2) == Ok(one, 3);
    assert Expression(ts, 2) == Ok(one, 3);
    assert Declaration(ts, 1, true) == Ok(Some(Print(one)), 3);
    assert ParseLoop(ts, 1, true, []) == Parsed([Print(one)]);
  }

  lemma BrokenPrimaryFails(ts: seq<Token>)
    requires BrokenThenPrint(ts)
    ensures Declaration(ts, 0, false) == Fail(0)
    ensures Declaration(ts, 0, true) == Ok(None, Synchronize(ts, 0))
  {
    assert Primary(ts, 0) == Fail(0);
    assert Level(6, ts, 0) == Fail(0);
    assert Level(5, ts, 0) == Fail(0);
    assert Level(4, ts, 0) == Fail(0);
    assert Level(3, ts, 0) == Fail(0);
    assert Level(2, ts, 0) == Fail(0);
    assert Level(1, ts, 0) == Fail(0);
    assert Expression(ts, 0) == Fail(0);
    assert ExpressionStatement(ts, 0) == Fail(0);
    assert !CheckValueAt(ts, 0, "var") && !CheckValueAt(ts, 0, "print") && !CheckValueAt(ts, 0, "{");
    assert !CheckValueAt(ts, 0, "if") && !CheckValueAt(ts, 0, "while") && !CheckValueAt(ts, 0, "for");
    assert Statement(ts, 0, false) == Fail(0);
    assert Statement(ts, 0, true) == Fail(0);
  }
}
