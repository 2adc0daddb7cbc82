/**
 * The recursive-descent parser as the source writes it: an object holding the
 * token sequence and a cursor `current` that the grammar methods advance.  Every
 * grammar method is proved to return exactly what the reference grammar
 * (module Grammar) computes from the cursor it started at, and to leave the
 * cursor where the grammar says the parse ends.
 */
module Parser {
  import opened Wrappers
  import opened Ast
  import Grammar

  class Parser {
    const tokens: seq<Token>
    /** `false`: a broken primary ends the parse (the code as written); `true`: panic-mode recovery. */
    const recovering: bool
    var current: nat

    /** `advance` never moves the cursor past one beyond the last token. */
    ghost predicate Valid()
      reads this
    {
      current <= |tokens| + 1
    }

    /** The cursor is where the grammar says a parse with result `r` ends. */
    ghost predicate Lands<T>(r: Grammar.Parsed<T>)
      reads this
    {
      (r.Ok? ==> current == r.next) && (r.Fail? ==> current == r.at)
    }

    constructor (tokens: seq<Token>, recovering: bool)
      ensures Valid() && this.tokens == tokens && this.recovering == recovering && current == 0
    {
      this.tokens := tokens;
      this.recovering := recovering;
      current := 0;
    }

    /** `peek()`: the token at the cursor, if any. */
    function Peek(): (r: Option<Token>)
      reads this
      ensures r.Some? <==> current < |tokens|
      ensures r.Some? ==> r.value == tokens[current]
    {
      if current < |tokens| then Some(tokens[current]) else None
    }

    /** `previous()`: the token before the cursor, if any. */
    function Previous(): (r: Option<Token>)
      reads this
      ensures r.Some? <==> 0 < current <= |tokens|
      ensures r.Some? ==> r.value == tokens[current - 1]
    {
      if 0 < current <= |tokens| then Some(tokens[current - 1]) else None
    }

    /** `check(type)`: false once the cursor is at or past the end. */
    predicate Check(kind: string)
      reads this
      ensures current >= |tokens| ==> !Check(kind)
      ensures Check(kind) <==> Grammar.CheckAt(tokens, current, kind)
    {
      current < |tokens| && tokens[current].kind == kind
    }

    /** `checkValue(value)`: false once the cursor is at or past the end. */
    predicate CheckValue(value: string)
      reads this
      ensures current >= |tokens| ==> !CheckValue(value)
      ensures CheckValue(value) <==> Grammar.CheckValueAt(tokens, current, value)
    {
      current < |tokens| && tokens[current].value == value
    }

    /** `advance()`: moves the cursor only while it is at most the number of tokens; returns `previous()`. */
    method Advance() returns (t: Option<Token>)
      requires Valid()
      modifies this
      ensures Valid()
      ensures current == if old(current) <= |tokens| then old(current) + 1 else old(current)
      ensures t == Previous()
    {
      if !(current > |tokens|) {
        current := current + 1;
      }
      t := Previous();
    }

    /** `match(...types)`: advances past the current token when its type is one of `kinds`. */
    method Match(kinds: seq<string>) returns (matched: bool)
      requires Valid()
      modifies this
      ensures Valid()
      ensures matched <==> old(current) < |tokens| && tokens[old(current)].kind in kinds
      ensures current == if matched then old(current) + 1 else old(current)
    {
      for i := 0 to |kinds|
        invariant current == old(current)
        invariant forall j | 0 <= j < i :: !Check(kinds[j])
      {
        if Check(kinds[i]) {
          var _ := Advance();
          return true;
        }
      }
      return false;
    }

    /** `matchValue(...values)`: advances past the current token when its value is one of `values`. */
    method MatchValue(values: seq<string>) returns (matched: bool)
      requires Valid()
      modifies this
      ensures Valid()
      ensures matched <==> Grammar.CheckValueIn(tokens, old(current), values)
      ensures current == if matched then old(current) + 1 else old(current)
    {
      for i := 0 to |values|
        invariant current == old(current)
        invariant forall j | 0 <= j < i :: !CheckValue(values[j])
      {
        if CheckValue(values[i]) {
          var _ := Advance();
          return true;
        }
      }
      return false;
    }

    /** `consume(type, message)`: the token when it has this type, otherwise nothing (the message is only logged). */
    method Consume(kind: string) returns (t: Option<Token>)
      requires Valid()
      modifies this
      ensures Valid()
      ensures current == Grammar.Skip(tokens, old(current), kind)
      ensures t.Some? <==> Grammar.CheckAt(tokens, old(current), kind)
      ensures t.Some? ==> t.value == tokens[old(current)]
    {
      if Check(kind) {
        t := Advance();
      } else {
        t := None;
      }
    }

    /** `consumeValue(value, message)`: the token when it has this value, otherwise nothing. */
    method ConsumeValue(value: string) returns (t: Option<Token>)
      requires Valid()
      modifies this
      ensures Valid()
      ensures current == if Grammar.CheckValueAt(tokens, old(current), value) then old(current) + 1 else old(current)
      ensures t.Some? <==> Grammar.CheckValueAt(tokens, old(current), value)
    {
      if CheckValue(value) {
        t := Advance();
      } else {
        t := None;
      }
    }

    // -------------------------------------------------------------------------
    // Expressions

    /** `expression()`. */
    method Expression() returns (r: Grammar.Parsed<Expr>)
      requires Valid() && current <= |tokens|
      modifies this
      ensures Valid() && Lands(r)
      ensures r == Grammar.Expression(tokens, old(current))
      decreases |tokens| - current, 9, 0
    {
      r := Assignment();
    }

    /** `assignment()`: an `=` after an `or` operand parses a right-hand side; only a variable target becomes `Assign`. */
    method Assignment() returns (r: Grammar.Parsed<Expr>)
      requires Valid() && current <= |tokens|
      modifies this
      ensures Valid() && Lands(r)
      ensures r == Grammar.Assignment(tokens, old(current))
      decreases |tokens| - current, 8, 0
    {
      var expr := Or();
      if expr.Fail? {
        return expr;
      }
      var m := MatchValue(["="]);
      if m {
        var value := Assignment();
        if value.Fail? {
          return Grammar.Fail(value.at);
        }
        if expr.value.Variable? {
          return Grammar.Ok(Assign(expr.value.name, value.value), current);
        }
        // "Invalid assignment target." is only reported; the left operand is kept
        return Grammar.Ok(expr.value, current);
      }
      return expr;
    }

    /**
     * One binary level `k` (1 `or` .. 6 `factor`): an operand of level `k + 1`,
     * then, while the next token's value is an operator of the level, the
     * operator and another operand, folded to the left.
     */
    method BinaryLevel(k: nat) returns (r: Grammar.Parsed<Expr>)
      requires 1 <= k <= 6 && Valid() && current <= |tokens|
      modifies this
      ensures Valid() && Lands(r)
      ensures r == Grammar.Level(k, tokens, old(current))
      decreases |tokens| - current, 8 - k, 0
    {
      var first := Operand(k + 1);
      if first.Fail? {
        return first;
      }
      Grammar.LevelUnfold(k, tokens, old(current), first);
      r := FoldLoop(k, first.value);
    }

    /** The `while (this.matchValue(...))` loop of level `k`, with `expr` the tree folded so far. */
    method FoldLoop(k: nat, expr: Expr) returns (r: Grammar.Parsed<Expr>)
      requires 1 <= k <= 6 && Valid() && current <= |tokens| && Grammar.WellShaped(expr, k)
      modifies this
      ensures Valid() && Lands(r)
      ensures r == Grammar.Fold(k, tokens, expr, old(current))
      decreases |tokens| - current, 8 - k, 0
    {
      ghost var goal := Grammar.Fold(k, tokens, expr, current);
      var acc := expr;
      while true
        invariant Valid() && old(current) <= current <= |tokens|
        invariant Grammar.WellShaped(acc, k)
        invariant Grammar.Fold(k, tokens, acc, current) == goal
        decreases |tokens| - current
      {
        var m := MatchValue(Grammar.LevelOps(k));
        if !m {
          Grammar.FoldStop(k, tokens, acc, current);
          return Grammar.Ok(acc, current);
        }
        var next := FoldOperand(k, acc);
        if next.Fail? {
          return next;
        }
        acc := next.value;
      }
    }

    /**
     * The body of the loop of level `k`, once its operator has been matched:
     * that operator, the next operand, and the node they make with `expr`.
     */
    method FoldOperand(k: nat, expr: Expr) returns (r: Grammar.Parsed<Expr>)
      requires 1 <= k <= 6 && Valid() && 1 <= current <= |tokens|
      requires Grammar.WellShaped(expr, k) && Grammar.CheckValueIn(tokens, current - 1, Grammar.LevelOps(k))
      modifies this
      ensures Valid() && Lands(r)
      ensures r.Ok? ==> old(current) < current <= |tokens| && Grammar.WellShaped(r.value, k)
      ensures r.Ok? ==> Grammar.Fold(k, tokens, r.value, current) == Grammar.Fold(k, tokens, expr, old(current) - 1)
      ensures r.Fail? ==> r == Grammar.Fold(k, tokens, expr, old(current) - 1)
      decreases |tokens| - current, 8 - k, 0
    {
      var operator := tokens[current - 1];
      var right := Operand(k + 1);
      Grammar.FoldStep(k, tokens, expr, old(current) - 1, right);
      if right.Fail? {
        return Grammar.Fail(right.at);
      }
      r := Grammar.Ok(Grammar.LevelNode(k, expr, operator, right.value), current);
    }

    /** Level `k` of the expression grammar: a binary level, or `primary` for 7. */
    method Operand(k: nat) returns (r: Grammar.Parsed<Expr>)
      requires 2 <= k <= 7 && Valid() && current <= |tokens|
      modifies this
      ensures Valid() && Lands(r)
      ensures r == Grammar.Level(k, tokens, old(current))
      decreases |tokens| - current, 8 - k, 1
    {
      if k == 7 {
        r := Primary();
      } else {
        r := BinaryLevel(k);
      }
    }

    /** `or()`. */
    method Or() returns (r: Grammar.Parsed<Expr>)
      requires Valid() && current <= |tokens|
      modifies this
      ensures Valid() && Lands(r)
      ensures r == Grammar.Level(1, tokens, old(current))
      decreases |tokens| - current, 7, 1
    {
      r := BinaryLevel(1);
    }

    /** `primary()`: `false`, `true`, `nil`, a number or string, a group, an identifier; otherwise the parse fails here. */
    method Primary() returns (r: Grammar.Parsed<Expr>)
      requires Valid() && current <= |tokens|
      modifies this
      ensures Valid() && Lands(r)
      ensures r == Grammar.Primary(tokens, old(current))
      decreases |tokens| - current, 1, 0
    {
      var m := MatchValue(["false"]);
      if m { return Grammar.Ok(Literal(BoolLit(false)), current); }
      m := MatchValue(["true"]);
      if m { return Grammar.Ok(Literal(BoolLit(true)), current); }
      m := MatchValue(["nil"]);
      if m { return Grammar.Ok(Literal(NilLit), current); }
      m := Match(["number", "string"]);
      if m {
        var t := Previous();
        return Grammar.Ok(Literal(Grammar.ParseRaw(t.value.value)), current);
      }
      m := Match(["lparen"]);
      if m {
        var e := Expression();
        if e.Fail? {
          return Grammar.Fail(e.at);
        }
        var _ := ConsumeValue(")");
        return Grammar.Ok(Grouping(e.value), current);
      }
      m := Match(["identifier"]);
      if m { return Grammar.Ok(Variable(tokens[current - 1], current - 1), current); }
      // "Expect expression." is reported, and the process exits
      return Grammar.Fail(current);
    }

    /** `call()`: a primary followed by argument lists. */
    method Call() returns (r: Grammar.Parsed<Expr>)
      requires Valid() && current <= |tokens|
      modifies this
      ensures Valid() && Lands(r)
      ensures r == Grammar.CallExpr(tokens, old(current))
    {
      var first := Primary();
      if first.Fail? {
        return first;
      }
      var expr := first.value;
      while true
        invariant Valid()
        invariant Grammar.CallFold(tokens, expr, current) == Grammar.CallExpr(tokens, old(current))
        decreases |tokens| + 1 - current
      {
        var m := Match(["lparen"]);
        if !m {
          return Grammar.Ok(expr, current);
        }
        var call := FinishCall(expr);
        if call.Fail? {
          return Grammar.Fail(call.at);
        }
        expr := call.value;
      }
    }

    /** `finishCall(callee)`, after `(`: comma-separated arguments unless `)` follows, then the `)`. */
    method FinishCall(callee: Expr) returns (r: Grammar.Parsed<Expr>)
      requires Valid() && current <= |tokens|
      modifies this
      ensures Valid() && Lands(r)
      ensures r == Grammar.FinishCall(tokens, callee, old(current))
    {
      var args: seq<Expr> := [];
      if !Check("rparen") {
        var more := true;
        while more
          invariant Valid() && current <= |tokens|
          invariant more ==> Grammar.Arguments(tokens, current, args) == Grammar.Arguments(tokens, old(current), [])
          invariant !more ==> Grammar.Arguments(tokens, old(current), []) == Grammar.Ok(args, current)
          decreases |tokens| - current, more
        {
          var e := Expression();
          if e.Fail? {
            return Grammar.Fail(e.at);
          }
          args := args + [e.value];
          more := Match(["comma"]);
        }
      }
      var paren := Consume("rparen");
      return Grammar.Ok(Ast.Call(callee, paren, args), current);
    }

    // -------------------------------------------------------------------------
    // Statements

    /** The optional `;` after a statement: advance past it when the current token's value is `;`. */
    method SkipSemicolon()
      requires Valid()
      modifies this
      ensures Valid()
      ensures current == Grammar.SkipSemicolon(tokens, old(current))
    {
      var t := Peek();
      if t.Some? && t.value.value == ";" {
        var _ := Advance();
      }
    }

    /** `synchronize()`: skip to the next statement boundary after a broken statement. */
    method Synchronize()
      requires Valid()
      modifies this
      ensures Valid()
      ensures current == Grammar.Synchronize(tokens, old(current))
    {
      var _ := Advance();
      while !(current >= |tokens|)
        invariant Valid() && 0 < current
        invariant Grammar.SyncLoop(tokens, current) == Grammar.Synchronize(tokens, old(current))
        decreases |tokens| - current
      {
        var prev := Previous();
        if prev.value.kind == "semi" {
          return;
        }
        if tokens[current].value in Grammar.SyncKeywords {
          return;
        }
        var _ := Advance();
      }
    }

    /** `declaration()`: a failure ends the parse, or in recovering mode synchronizes and yields no statement. */
    method Declaration() returns (r: Grammar.Parsed<Option<Stmt>>)
      requires Valid() && current <= |tokens|
      modifies this
      ensures Valid() && Lands(r)
      ensures r == Grammar.Declaration(tokens, old(current), recovering)
      decreases |tokens| + 1 - current, 3
    {
      var s: Grammar.Parsed<Stmt>;
      var m := MatchValue(["var"]);
      if m {
        s := VarDeclaration();
      } else {
        s := Statement();
      }
      if s.Ok? {
        return Grammar.Ok(Some(s.value), s.next);
      }
      if !recovering {
        return Grammar.Fail(s.at);
      }
      Synchronize();
      return Grammar.Ok(None, current);
    }

    /** `varDeclaration()`, after `var`: the name if present, an optional initializer, an optional `;`. */
    method VarDeclaration() returns (r: Grammar.Parsed<Stmt>)
      requires Valid() && current <= |tokens|
      modifies this
      ensures Valid() && Lands(r)
      ensures r == Grammar.VarDeclaration(tokens, old(current))
    {
      var name := Consume("identifier");
      var initializer: Option<Expr> := None;
      var m := MatchValue(["="]);
      if m {
        var e := Expression();
        if e.Fail? {
          return Grammar.Fail(e.at);
        }
        initializer := Some(e.value);
      }
      SkipSemicolon();
      return Grammar.Ok(Var(name, initializer), current);
    }

    /** `statement()`. */
    method Statement() returns (r: Grammar.Parsed<Stmt>)
      requires Valid() && current <= |tokens|
      modifies this
      ensures Valid() && Lands(r)
      ensures r == Grammar.Statement(tokens, old(current), recovering)
      decreases |tokens| + 1 - current, 2
    {
      // each `matchValue(v)` below is `checkValue(v)` and, when it holds, `advance()`
      if CheckValue("print") {
        var _ := Advance();
        r := PrintStatement();
      } else if CheckValue("{") {
        var _ := Advance();
        var b := Block();
        if b.Fail? {
          return Grammar.Fail(b.at);
        }
        return Grammar.Ok(Stmt.Block(b.value), current);
      } else if CheckValue("if") {
        var _ := Advance();
        r := IfStatement();
      } else if CheckValue("while") {
        var _ := Advance();
        r := WhileStatement();
      } else if CheckValue("for") {
        var _ := Advance();
        r := ForStatement();
      } else {
        r := ExpressionStatement();
      }
    }

    /** `block()`, after `{`: declarations until `}` or the end of the input, then the `}`. */
    method Block() returns (r: Grammar.Parsed<seq<Stmt>>)
      requires Valid()
      modifies this
      ensures Valid() && Lands(r)
      ensures r == Grammar.BlockLoop(tokens, old(current), recovering, [])
      decreases |tokens| + 1 - current, 4
    {
      var statements: seq<Stmt> := [];
      while !CheckValue("}") && !(current >= |tokens|)
        invariant Valid()
        invariant Grammar.BlockLoop(tokens, current, recovering, statements)
          == Grammar.BlockLoop(tokens, old(current), recovering, [])
        decreases |tokens| + 1 - current
      {
        var d := Declaration();
        if d.Fail? {
          return Grammar.Fail(d.at);
        }
        if d.value.Some? {
          statements := statements + [d.value.value];
        }
      }
      var _ := ConsumeValue("}");
      return Grammar.Ok(statements, current);
    }

    /** `ifStatement()`, after `if`. */
    method IfStatement() returns (r: Grammar.Parsed<Stmt>)
      requires Valid() && current <= |tokens|
      modifies this
      ensures Valid() && Lands(r)
      ensures r == Grammar.IfStatement(tokens, old(current), recovering)
      decreases |tokens| + 1 - current, 1
    {
      var _ := Consume("lparen");
      var condition := Expression();
      if condition.Fail? {
        return Grammar.Fail(condition.at);
      }
      var _ := Consume("rparen");
      var thenBranch := Statement();
      if thenBranch.Fail? {
        return Grammar.Fail(thenBranch.at);
      }
      var elseBranch := ElseBranch();
      if elseBranch.Fail? {
        return Grammar.Fail(elseBranch.at);
      }
      return Grammar.Ok(If(condition.value, thenBranch.value, elseBranch.value), current);
    }

    /** The optional `else` of `ifStatement()`: `else` and a statement, or nothing. */
    method ElseBranch() returns (r: Grammar.Parsed<Option<Stmt>>)
      requires Valid()
      modifies this
      ensures Valid() && Lands(r)
      ensures r == Grammar.ElseBranch(tokens, old(current), recovering)
      decreases |tokens| + 1 - current, 0
    {
      var m := MatchValue(["else"]);
      if !m {
        return Grammar.Ok(None, current);
      }
      var e := Statement();
      if e.Fail? {
        return Grammar.Fail(e.at);
      }
      return Grammar.Ok(Some(e.value), current);
    }

    /** `whileStatement()`, after `while`. */
    method WhileStatement() returns (r: Grammar.Parsed<Stmt>)
      requires Valid() && current <= |tokens|
      modifies this
      ensures Valid() && Lands(r)
      ensures r == Grammar.WhileStatement(tokens, old(current), recovering)
      decreases |tokens| + 1 - current, 1
    {
      var _ := Consume("lparen");
      var condition := Expression();
      if condition.Fail? {
        return Grammar.Fail(condition.at);
      }
      var _ := Consume("rparen");
      var body := Statement();
      if body.Fail? {
        return Grammar.Fail(body.at);
      }
      return Grammar.Ok(While(condition.value, body.value), current);
    }

    /** The initializer clause of `forStatement()`: `;`, a `var` declaration, or an expression statement. */
    method ForInit() returns (r: Grammar.Parsed<Option<Stmt>>)
      requires Valid() && current <= |tokens|
      modifies this
      ensures Valid() && Lands(r)
      ensures r == Grammar.ForInit(tokens, old(current))
    {
      var m := Match(["semi"]);
      if m {
        return Grammar.Ok(None, current);
      }
      m := MatchValue(["var"]);
      var s: Grammar.Parsed<Stmt>;
      if m {
        s := VarDeclaration();
      } else {
        s := ExpressionStatement();
      }
      if s.Fail? {
        return Grammar.Fail(s.at);
      }
      return Grammar.Ok(Some(s.value), current);
    }

    /** The condition or the increment of `forStatement()`: nothing when the next token has type `stop`. */
    method OptionalExpression(stop: string) returns (r: Grammar.Parsed<Option<Expr>>)
      requires Valid() && current <= |tokens|
      modifies this
      ensures Valid() && Lands(r)
      ensures r == Grammar.OptionalExpression(tokens, old(current), stop)
    {
      if Check(stop) {
        return Grammar.Ok(None, current);
      }
      var e := Expression();
      if e.Fail? {
        return Grammar.Fail(e.at);
      }
      return Grammar.Ok(Some(e.value), current);
    }

    /** The clauses of `forStatement()`, each followed by its separator when present. */
    method ForHeader() returns (r: Grammar.Parsed<Grammar.ForClauses>)
      requires Valid() && current <= |tokens|
      modifies this
      ensures Valid() && (r.Ok? ==> current == r.value.bodyAt <= |tokens|) && (r.Fail? ==> current == r.at)
      ensures r == Grammar.ForHeader(tokens, old(current))
    {
      var _ := Consume("lparen");
      var initializer := ForInit();
      if initializer.Fail? {
        return Grammar.Fail(initializer.at);
      }
      var condition := OptionalExpression("semi");
      if condition.Fail? {
        return Grammar.Fail(condition.at);
      }
      var _ := Consume("semi");
      var increment := OptionalExpression("rparen");
      if increment.Fail? {
        return Grammar.Fail(increment.at);
      }
      var _ := Consume("rparen");
      return Grammar.Ok(Grammar.ForClauses(initializer.value, condition.value, increment.value, current), current);
    }

    /** `forStatement()`, after `for`: parse the three clauses and the body, then build the equivalent `while`. */
    method ForStatement() returns (r: Grammar.Parsed<Stmt>)
      requires Valid() && current <= |tokens|
      modifies this
      ensures Valid() && Lands(r)
      ensures r == Grammar.ForStatement(tokens, old(current), recovering)
      decreases |tokens| + 1 - current, 1
    {
      var header := ForHeader();
      if header.Fail? {
        return Grammar.Fail(header.at);
      }
      var initializer, condition, increment := header.value.init, header.value.cond, header.value.incr;
      var parsedBody := Statement();
      if parsedBody.Fail? {
        return Grammar.Fail(parsedBody.at);
      }
      var body := parsedBody.value;
      if increment.Some? {
        body := Stmt.Block([body, Stmt.Expression(increment.value)]);
      }
      var loopCondition := if condition.Some? then condition.value else Literal(BoolLit(true));
      body := While(loopCondition, body);
      if initializer.Some? {
        body := Stmt.Block([initializer.value, body]);
      }
      assert body == Grammar.DesugarFor(initializer, condition, increment, parsedBody.value);
      return Grammar.Ok(body, current);
    }

    /** `printStatement()`, after `print`. */
    method PrintStatement() returns (r: Grammar.Parsed<Stmt>)
      requires Valid() && current <= |tokens|
      modifies this
      ensures Valid() && Lands(r)
      ensures r == Grammar.PrintStatement(tokens, old(current))
    {
      var value := Expression();
      if value.Fail? {
        return Grammar.Fail(value.at);
      }
      SkipSemicolon();
      return Grammar.Ok(Print(value.value), current);
    }

    /** `expressionStatement()`. */
    method ExpressionStatement() returns (r: Grammar.Parsed<Stmt>)
      requires Valid() && current <= |tokens|
      modifies this
      ensures Valid() && Lands(r)
      ensures r == Grammar.ExpressionStatement(tokens, old(current))
    {
      var expr := Expression();
      if expr.Fail? {
        return Grammar.Fail(expr.at);
      }
      SkipSemicolon();
      return Grammar.Ok(Stmt.Expression(expr.value), current);
    }

    /** `parse()`: declarations until the input is exhausted. */
    method Parse() returns (r: Grammar.ParseResult)
      requires Valid()
      modifies this
      ensures Valid()
      ensures r == Grammar.ParseLoop(tokens, old(current), recovering, [])
    {
      var statements: seq<Stmt> := [];
      while !(current >= |tokens|)
        invariant Valid()
        invariant Grammar.ParseLoop(tokens, current, recovering, statements)
          == Grammar.ParseLoop(tokens, old(current), recovering, [])
        decreases |tokens| + 1 - current
      {
        var d := Declaration();
        if d.Fail? {
          return Grammar.Exited(d.at);
        }
        if d.value.Some? {
          statements := statements + [d.value.value];
        }
      }
      return Grammar.Parsed(statements);
    }
  }

  /** `new Parser(tokens).parse()`: the statements of a whole token sequence, as the reference grammar gives them. */
  method ParseTokens(tokens: seq<Token>, recovering: bool) returns (r: Grammar.ParseResult)
    ensures r == Grammar.Parse(tokens, recovering)
  {
    var parser := new Parser(tokens, recovering);
    r := parser.Parse();
  }
}
