# Lox parse-and-evaluate core, in Dafny

This project models the core of a TypeScript tree-walking interpreter for Lox, a small dynamically typed scripting language. The model covers four parts:

- the recursive-descent parser, which turns a token sequence into statements;
- the chain of environments that holds variables;
- the evaluator, which executes statements against those environments, with calls, closures, classes and instances;
- the AST printer.

Each part follows the form of its source file:

- **Data model.** `Expr` and `Stmt` are closed datatypes (`ast.dfy`). A runtime value is a datatype `Value` (`values.dfy`).
- **Parser, two layers** (`grammar.dfy`, `parser.dfy`).
  - The pure reference grammar in module `Grammar` states what every parsing method returns from a given token position: `Ok(value, next)`, or `Fail(at)` where `primary` exits.
  - The class `Parser.Parser` keeps the source's mutable cursor `current`. Each of its methods is proved to return exactly what the matching `Grammar` function returns from the old cursor, and to leave the cursor where that result says. Every loop keeps the invariant that the rest of the loop yields the grammar's value.
  - The properties the parser promises are lemmas about module `Grammar`:
    - left-associative folding and precedence;
    - right-associative assignment;
    - the shape of the `for` desugaring (the contract of `DesugarFor`, and the `for (;;)` example);
    - optional semicolons after `var`, `print` and expression statements;
    - the stopping points of `synchronize`;
    - the absence of `Call`, `Unary` and `Get` nodes in parsed expressions;
    - distinct variable ids.
- **Environments, two layers** (`environment.dfy`).
  - Module `Scopes` holds pure functions over an arena `seq<Frame>`. A frame is a name-to-value map plus the index of its enclosing frame; closures alias a frame by holding its index.
  - The class `Environment.Environments` holds the arena in a field. Its `define`/`get`/`assign` methods update and search it in place. Each method is proved equal to the matching `Scopes` function.
  - The class keeps the invariant `Valid()`: every parent link names an older frame and every closure an existing frame, as every `enclosing` of the source is a live object. Under it the searches need none of the out-of-range guards that keep the `Scopes` functions total.
- **Evaluator, two layers** (`semantics.dfy`, `interpreter.dfy`).
  - Module `Semantics` is the reference semantics, as pure functions over a `State`.
  - The class `Interpreter.Interpreter` has the source's visit methods. It swaps the current `environment` field, records resolver distances in `locals`, updates environments in place, and appends new instances and printed values.
  - The class keeps the invariant `Valid()`: the environments are valid, the current environment exists, no instance has a field, and the host yields no Lox function. Every method preserves it, never removes a frame, and returns only values whose closures exist.
  - Every visit method is proved to produce exactly the outcome and new state the reference semantics gives for the old state.
  - The reference semantics has four `Outcome`s: a thrown runtime error, a `Return` unwinding to its call, normal completion, and `OutOfFuel`, which marks a computation cut off by the fuel bound (see the termination line under "## Left out").
- **Printer** (`printer.dfy`). The AST printer is a recursive function. The lemmas prove the shape of its output and the balance of its parentheses.

Numbers are unbounded integers. Three kinds of input are parameters:

- the host's coercions for non-numeric arithmetic and comparison, and for every division (`coerce`);
- the bodies of foreign functions (`foreign`);
- the resolver's distances.

## Model

| member | source | states |
|---|---|---|
| Ast.ExprsSizeElement | src/Parser/Expr.ts:26-37 | an argument of a `Call` is smaller than the call node (the measure under which evaluating arguments terminates) |
| Grammar.ParseRaw | src/Parser/Parser.ts:153-159 | a raw token starting with a digit becomes a number, one starting with `"` becomes the text between the quotes, and anything else is `undefined` |
| Text.ParseNumber | src/Parser/Parser.ts:155 | the `parseFloat` stand-in, the value of the leading digits; ParseNumberOfNatToString shows it reads back every natural number's decimal text |
| Text.ParseNumberOfNatToString | src/Parser/Parser.ts:153-159 | reading back the decimal text of a natural number yields that number |
| Grammar.Expression | src/Parser/Parser.ts:64-66 | a successful parse consumes at least one token and stays in the input; its tree is well shaped: each operator node's left operand is at its level or tighter and its right operand strictly tighter, which is left-associative folding by precedence; a failure is reported inside the input |
| Grammar.Assignment | src/Parser/Parser.ts:311-327 | as for Expression: a well-shaped tree in which assignments appear only at the top or as right-hand sides |
| Grammar.Level | src/Parser/Parser.ts:67-108 | level `k` (1 `or`, 2 `and`, 3 equality, 4 comparison, 5 term, 6 factor, 7 primary) consumes at least one token and yields a tree well shaped for level `k`: every operator node is of level `k` or tighter, with its left operand at its own level and its right operand strictly tighter |
| Grammar.Fold | src/Parser/Parser.ts:328-348 | the `while (match(op))` loops keep the accumulated tree well shaped for its level, and never move the cursor backwards |
| Grammar.FoldStep | src/Parser/Parser.ts:70-74 | one pass of a level loop: after one of the level's operators, a failing next operand fails the fold at the same place, and otherwise the fold continues from the bigger well-shaped tree past the operand |
| Grammar.Primary | src/Parser/Parser.ts:135-152 | a primary consumes at least one token and is a literal, a variable or a parenthesised group (well shaped for level 7); its failures, the `process.exit()` case, are inside the input |
| Grammar.CallExpr | src/Parser/Parser.ts:109-121 | `call()` consumes at least one token and ends at most one past the input; its failures are inside the input |
| Grammar.FinishCall | src/Parser/Parser.ts:122-133 | the result is a `Call` node whose callee is the given expression |
| Grammar.Arguments | src/Parser/Parser.ts:124-128 | the `do … while (match("comma"))` loop appends at least one argument and keeps the arguments parsed before it |
| Grammar.CallCollectsArguments | src/Parser/Parser.ts:109-133 | `f(a, b)` parses to a `Call` with callee `f`, the arguments `a` and `b` in order, and the `)` token kept |
| Grammar.CallArguments | src/Parser/Parser.ts:122-128 | the argument list of `f(a, b)` is `[a, b]`, ending before the `)` |
| Grammar.CallFinished | src/Parser/Parser.ts:122-133 | `finishCall` of `f(a, b)` ends after the `)` with the whole call node |
| Grammar.IdentifierArgument | src/Parser/Parser.ts:64-66 | an identifier followed by `,` or `)` is a whole expression |
| Grammar.Synchronize | src/Parser/Parser.ts:290-310 | `synchronize` advances at least one token while input remains, and stops only after a `semi`, before a statement keyword, or at the end; it passes over no such stopping point |
| Grammar.SyncLoop | src/Parser/Parser.ts:293-309 | the advancing loop of `synchronize` stops at the first stopping point at or after the cursor |
| Grammar.DesugarFor | src/Parser/Parser.ts:236-246 | `for` becomes `While(cond or true, body or Block([body, incr]))`, wrapped as `Block([init, while])` when an initializer exists |
| Grammar.Declaration | src/Parser/Parser.ts:185-194 | a declaration consumes at least one token; it can fail only when recovery is off |
| Grammar.VarDeclaration | src/Parser/Parser.ts:195-205 | the result is a `Var` node and the cursor stays inside the input |
| Grammar.VarSemicolonOptional | src/Parser/Parser.ts:195-205 | without `=` the declaration always succeeds; with `=` it succeeds exactly when the initializer parses, and fails where it fails; a `;` after the last part is consumed when present and its absence is no error |
| Grammar.Statement | src/Parser/Parser.ts:207-215 | every statement consumes at least one token |
| Grammar.BlockLoop | src/Parser/Parser.ts:279-288 | the block loop never moves the cursor back and ends at most one past the input |
| Grammar.IfStatement | src/Parser/Parser.ts:256-267 | `if` consumes at least one token past the keyword, and its failures are inside the input |
| Grammar.ElseBranch | src/Parser/Parser.ts:261-264 | an optional `else` yields a statement exactly when the next token is `else`, ends inside the input, and its failures lie past the `else` |
| Grammar.WhileStatement | src/Parser/Parser.ts:248-255 | `while` consumes at least one token past the keyword, and its failures are inside the input |
| Grammar.ForInit | src/Parser/Parser.ts:219-225 | the initializer clause ends inside the input |
| Grammar.OptionalExpression | src/Parser/Parser.ts:226-234 | an optional condition or increment ends inside the input |
| Grammar.ForHeader | src/Parser/Parser.ts:217-235 | the body of a `for` starts inside the input |
| Grammar.ForStatement | src/Parser/Parser.ts:216-247 | `for` consumes at least one token past the keyword, and its failures are inside the input |
| Grammar.PrintStatement | src/Parser/Parser.ts:268-272 | a `print` statement consumes at least one token and ends inside the input; its failures are inside the input |
| Grammar.PrintSemicolonOptional | src/Parser/Parser.ts:268-272 | `print` succeeds exactly when its expression parses, and fails where it fails; the result is a `Print` of that expression, past a `;` when one follows and at the expression's end otherwise |
| Grammar.ExpressionStatement | src/Parser/Parser.ts:273-278 | an expression statement consumes at least one token and ends inside the input |
| Grammar.ExpressionSemicolonOptional | src/Parser/Parser.ts:273-278 | an expression statement succeeds exactly when its expression parses, and fails where it fails; it ends past a `;` when one follows and at the expression's end otherwise |
| Grammar.Parse | src/Parser/Parser.ts:178-184 | `parse()` from the first token; its meaning is given by ParseLoop's contract and by BrokenStatementEndsParse and RecoveryKeepsNextStatement (the as-written exit and the intended recovery on `) print 1`) |
| Grammar.ParseLoop | src/Parser/Parser.ts:178-184 | the parse ends with an exit only when recovery is off |
| Grammar.OpLevelOfLevelOps | src/Parser/Parser.ts:67-108 | every operator a level matches is assigned to that level |
| Grammar.WellShapedIsPlain | src/Parser/Parser.ts:98-121 | a well-shaped tree contains no `Call`, `Unary` or `Get` node |
| Grammar.ExpressionIsPlain | src/Parser/Parser.ts:98-121 | `factor` descends straight to `primary`, so a parsed expression never contains `Call`, `Unary` or `Get` |
| Grammar.IdsExpression | src/Parser/Parser.ts:149 | the variable ids in a parsed expression are increasing token positions inside the consumed span |
| Grammar.DistinctIds | src/Parser/Parser.ts:149 | no two variable nodes of a parsed expression share an id |
| Grammar.SubtractionGroupsLeft | src/Parser/Parser.ts:87-97 | `a - b - c` parses to `Binary(Binary(a, -, b), -, c)` |
| Grammar.FactorBindsTighter | src/Parser/Parser.ts:87-108 | `1 + 2 * 3` parses to `Binary(1, +, Binary(2, *, 3))` |
| Grammar.AssignmentGroupsRight | src/Parser/Parser.ts:311-327 | `a = b = c` parses to `Assign(a, Assign(b, c))` |
| Grammar.OperandAlone | src/Parser/Parser.ts:67-108 | an identifier followed by no binary operator is a whole operand of the `or` level |
| Grammar.InvalidTargetKept | src/Parser/Parser.ts:311-327 | with a non-variable left side, `= rhs` is consumed and the left side is returned unchanged |
| Grammar.IdentifierStatement | src/Parser/Parser.ts:273-278 | an identifier followed by no operator, `=` or `;` is a whole expression statement ending after it |
| Grammar.DanglingElseBindsInner | src/Parser/Parser.ts:256-267 | `if (a) if (b) x else y` gives the `else` to the inner `if`; the outer one has none |
| Grammar.EmptyForIsWhileTrue | src/Parser/Parser.ts:216-247 | `for (;;) x` parses to `While(true, x)` |
| Grammar.BrokenStatementEndsParse | src/Parser/Parser.ts:150-151 | as written: a statement starting with `)` ends the whole parse at token 0, so the following `print 1` is lost |
| Grammar.RecoveryKeepsNextStatement | src/Parser/Parser.ts:185-194 | with recovery: the broken statement is dropped and `print 1` is still parsed |
| Grammar.BrokenPrimaryFails | src/Parser/Parser.ts:185-194 | the declaration fails at token 0 without recovery, and with recovery yields no statement and resumes at the synchronize point |
| Parser.Parser.constructor | src/Parser/Parser.ts:17-23 | the cursor starts at 0 over the given tokens |
| Parser.Parser.Peek | src/Parser/Parser.ts:48-50 | the token at the cursor, or none past the end |
| Parser.Parser.Previous | src/Parser/Parser.ts:52-54 | the token before the cursor, or none |
| Parser.Parser.Check | src/Parser/Parser.ts:56-59 | false once the cursor is at or past the end; otherwise whether the current token has that type |
| Parser.Parser.CheckValue | src/Parser/Parser.ts:60-63 | false once the cursor is at or past the end; otherwise whether the current token has that value |
| Parser.Parser.Advance | src/Parser/Parser.ts:43-46 | the cursor moves up by one only while it is at most the length, so it never exceeds the length plus one; returns the previous token |
| Parser.Parser.Match | src/Parser/Parser.ts:24-33 | true, and one token consumed, exactly when the current token has one of the types |
| Parser.Parser.MatchValue | src/Parser/Parser.ts:34-42 | true, and one token consumed, exactly when the current token has one of the values |
| Parser.Parser.Consume | src/Parser/Parser.ts:160-164 | the token when it has the type (cursor advanced), else none (cursor kept) |
| Parser.Parser.ConsumeValue | src/Parser/Parser.ts:165-169 | the token when it has the value (cursor advanced), else none (cursor kept) |
| Parser.Parser.Expression | src/Parser/Parser.ts:64-66 | returns `Grammar.Expression` from the old cursor and leaves the cursor where it says |
| Parser.Parser.Assignment | src/Parser/Parser.ts:311-327 | returns `Grammar.Assignment` from the old cursor |
| Parser.Parser.BinaryLevel | src/Parser/Parser.ts:67-108 | the six folding methods (`or`, `and`, `equality`, `comparison`, `term`, `factor`) return `Grammar.Level(k)` from the old cursor |
| Parser.Parser.FoldLoop | src/Parser/Parser.ts:70-74 | the `while (matchValue(...ops))` loop of a level returns `Grammar.Fold` from the old cursor |
| Parser.Parser.FoldOperand | src/Parser/Parser.ts:71-73 | one pass of that loop, after the operator: the operand and the node built from it continue the same fold, and a failing operand is the fold's failure |
| Parser.Parser.Or | src/Parser/Parser.ts:328-338 | `or()` returns `Grammar.Level(1)` from the old cursor |
| Parser.Parser.Operand | src/Parser/Parser.ts:67-108 | the call each folding level makes for its operands (the next level's method, `primary()` below `factor`) returns `Grammar.Level(k)` from the old cursor |
| Parser.Parser.Primary | src/Parser/Parser.ts:135-152 | returns `Grammar.Primary` from the old cursor |
| Parser.Parser.Call | src/Parser/Parser.ts:109-121 | the `while (true)` loop returns `Grammar.CallExpr` from the old cursor |
| Parser.Parser.FinishCall | src/Parser/Parser.ts:122-133 | the `do … while` loop returns `Grammar.FinishCall` from the old cursor |
| Parser.Parser.SkipSemicolon | src/Parser/Parser.ts:270 | the cursor moves past a `;` only when one is there |
| Parser.Parser.Synchronize | src/Parser/Parser.ts:290-310 | the loop leaves the cursor at `Grammar.Synchronize` of the old cursor |
| Parser.Parser.Declaration | src/Parser/Parser.ts:185-194 | returns `Grammar.Declaration` from the old cursor |
| Parser.Parser.VarDeclaration | src/Parser/Parser.ts:195-205 | returns `Grammar.VarDeclaration` from the old cursor |
| Parser.Parser.Statement | src/Parser/Parser.ts:207-215 | returns `Grammar.Statement` from the old cursor |
| Parser.Parser.Block | src/Parser/Parser.ts:279-288 | the statement loop returns `Grammar.BlockLoop` from the old cursor |
| Parser.Parser.IfStatement | src/Parser/Parser.ts:256-267 | returns `Grammar.IfStatement` from the old cursor |
| Parser.Parser.ElseBranch | src/Parser/Parser.ts:261-264 | returns `Grammar.ElseBranch` from the old cursor |
| Parser.Parser.WhileStatement | src/Parser/Parser.ts:248-255 | returns `Grammar.WhileStatement` from the old cursor |
| Parser.Parser.ForStatement | src/Parser/Parser.ts:216-247 | returns `Grammar.ForStatement`, the desugared loop, from the old cursor |
| Parser.Parser.ForInit | src/Parser/Parser.ts:218-225 | returns `Grammar.ForInit` from the old cursor |
| Parser.Parser.OptionalExpression | src/Parser/Parser.ts:226-233 | returns `Grammar.OptionalExpression` from the old cursor |
| Parser.Parser.ForHeader | src/Parser/Parser.ts:217-234 | returns `Grammar.ForHeader` from the old cursor; the cursor ends where the body starts |
| Parser.Parser.PrintStatement | src/Parser/Parser.ts:268-272 | returns `Grammar.PrintStatement` from the old cursor |
| Parser.Parser.ExpressionStatement | src/Parser/Parser.ts:273-278 | returns `Grammar.ExpressionStatement` from the old cursor |
| Parser.Parser.Parse | src/Parser/Parser.ts:178-184 | the `statements.push` loop returns `Grammar.ParseLoop` from the old cursor |
| Parser.ParseTokens | src/Parser/Parser.ts:17-23 | a new parser over the tokens, then `parse()`, yields `Grammar.Parse` of the tokens |
| AstPrinter.LitText | src/Parser/AstPrinter.ts:18-21 | nil (and `undefined`) prints `nil`; any other literal prints its own text |
| AstPrinter.Print | src/Parser/AstPrinter.ts:7-9 | printing is defined exactly for trees of `Binary`, `Grouping` and `Literal`, the node kinds the printer visits |
| AstPrinter.Parenthesize | src/Parser/AstPrinter.ts:23-32 | one `(`, the name, the children each after a space, and one `)` |
| AstPrinter.Children | src/Parser/AstPrinter.ts:25-28 | the children's texts, each after a space, defined exactly when every child is printable |
| AstPrinter.PrintBinary | src/Parser/AstPrinter.ts:10-12 | `Binary` prints as `(op left right)` using the operator's text |
| AstPrinter.PrintGrouping | src/Parser/AstPrinter.ts:14-16 | `Grouping` prints as `(group inner)` |
| AstPrinter.PrintBalanced | src/Parser/AstPrinter.ts:23-32 | when no string literal or operator text holds a parenthesis, the printed text has balanced parentheses |
| AstPrinter.BinaryBalanced | src/Parser/AstPrinter.ts:10-12 | the `Binary` case of `PrintBalanced`, under the same condition on the whole node |
| AstPrinter.GroupingBalanced | src/Parser/AstPrinter.ts:14-16 | the `Grouping` case of `PrintBalanced`, under the same condition on the whole node |
| AstPrinter.ChildrenBalanced | src/Parser/AstPrinter.ts:25-28 | the children's part of the text is balanced under the same condition |
| Values.LitValue | src/Interpreter/Interpreter.ts:56-58 | a literal evaluates to its own value |
| Values.IsTruthy | src/Interpreter/Interpreter.ts:65-69 | false exactly for nil, `undefined` and `false` |
| Values.ZeroAndEmptyAreTruthy | src/Interpreter/Interpreter.ts:65-69 | `0` and `""` are truthy, while `!` maps them to `true` |
| Values.Equals | src/Interpreter/Interpreter.ts:110-120 | numbers with numbers and strings with strings by value; nil on the left is true exactly against nil; every other pair yields `undefined`; `true` only for equal operands |
| Values.EqualsQuirks | src/Interpreter/Interpreter.ts:110-120 | two booleans never compare equal, and the nil rule is one-sided |
| Values.NotEqualIsEqual | src/Interpreter/Interpreter.ts:98-101 | `!=` computes the same value as `==` |
| Values.BinaryOp | src/Interpreter/Interpreter.ts:74-108 | the operator switch of `visitBinaryExpr`; its meaning is stated by PlusCases, NumericOperators and NotEqualIsEqual |
| Values.UnaryOp | src/Interpreter/Interpreter.ts:123-131 | the operator switch of `visitUnaryExpr`: integer negation, else the host's; `!` is host negation, stated by NotIsHostNegation |
| Values.PlusCases | src/Interpreter/Interpreter.ts:89-97 | `+` adds two numbers, concatenates two strings, and yields nil for every other pair |
| Values.NumericOperators | src/Interpreter/Interpreter.ts:74-87 | on two numbers the comparisons, `-` and `*` are the integer operations; `/` is always the host's |
| Values.OperatorsMakeNoFunction | src/Interpreter/Interpreter.ts:70-131 | with a host whose coercions yield no Lox function, no operator yields one |
| Values.NotIsHostNegation | src/Interpreter/Interpreter.ts:126-127 | `!` agrees with the negation of `isTruthy` except on `0` and `""` |
| Scopes.Owner | src/Interpreter/Environment.ts:9-13 | the frame where a search finds the name: the local frame when it binds the name, else one further out on the chain that does |
| Scopes.OwnerIsFirstOnChain | src/Interpreter/Environment.ts:9-13 | the owner is the first frame on the enclosing chain binding the name, so an inner binding shadows an outer one |
| Scopes.OwnerNoneIffUnbound | src/Interpreter/Environment.ts:9-16 | the search finds nothing exactly when no frame on the chain binds the name |
| Scopes.Get | src/Interpreter/Environment.ts:9-16 | the value in the owning frame, or the "Undefined variable" error when there is no owner |
| Scopes.Define | src/Interpreter/Environment.ts:6-8 | the name is set in this frame only, overwriting any local binding; every other frame is unchanged |
| Scopes.DefineThenGet | src/Interpreter/Environment.ts:6-12 | after `define(n, v)`, `get(n)` on the same frame returns `v` |
| Scopes.Assign | src/Interpreter/Environment.ts:17-28 | only the owning frame's binding changes and all other frames are unchanged; without an owner it is the "Undefined variable" error |
| Scopes.GetAbsent | src/Interpreter/Environment.ts:15-27 | a name bound nowhere on the chain makes both `get` and `assign` fail with "Undefined variable" |
| Scopes.AssignKeepsShape | src/Interpreter/Environment.ts:17-24 | `assign` never inserts a binding: every frame keeps its names and its parent |
| Scopes.OwnerOfSameShape | src/Interpreter/Environment.ts:17-24 | arenas with the same names and parents have the same owners |
| Scopes.AssignThenGet | src/Interpreter/Environment.ts:17-24 | after a successful `assign(n, v)`, `get(n)` returns `v` |
| Scopes.ArenaPreserved | src/Interpreter/Environment.ts:5 | `define`, `assign` and creating an enclosed frame keep every parent link pointing to an older frame |
| Scopes.LivePreserved | src/Interpreter/Environment.ts:5-28 | `define` and `assign` of a value whose closure exists, and a new frame under an existing one or under none, keep the arena live: parents older than children, every closure an existing frame |
| Scopes.Chain | src/Interpreter/Environment.ts:13 | the enclosing chain starts at the frame itself and lists frames of the arena |
| Scopes.Ancestor | src/Interpreter/Interpreter.ts:184 | walking `distance` parent links ends at an older frame of the arena |
| Scopes.AncestorOnChain | src/Interpreter/Interpreter.ts:184 | the frame `distance` links up is the one at that place on the enclosing chain |
| Scopes.GetAt | src/Interpreter/Interpreter.ts:184 | the assumed `getAt`: walk `distance` parent links, then read the local map (missing name: `undefined`) |
| Scopes.NewFrame | src/Interpreter/Environment.ts:5 | `new Environment(enclosing)` appends an empty frame and keeps every existing one |
| Environment.Environments.constructor | src/Interpreter/Environment.ts:3-5 | one empty root frame, and the invariant holds |
| Environment.Environments.NewEnvironment | src/Interpreter/Environment.ts:5 | for an existing enclosing environment, the arena grows by an empty frame with that parent, whose index is returned; the invariant is kept |
| Environment.Environments.Define | src/Interpreter/Environment.ts:6-8 | on an existing frame, the arena becomes `Scopes.Define` of the old arena; the invariant is kept |
| Environment.Environments.Get | src/Interpreter/Environment.ts:9-16 | the outward search loop, with no guard beyond the source's, returns `Scopes.Get`, and a value found names only existing frames |
| Environment.Environments.Assign | src/Interpreter/Environment.ts:17-28 | the arena becomes `Scopes.Assign` of the old one, or stays and the error is returned; the invariant is kept |
| Environment.Environments.GetAt | src/Interpreter/Interpreter.ts:184 | the parent-walking loop returns `Scopes.GetAt`, failing only when the chain is shorter than the distance |
| Semantics.InitialState | src/Interpreter/Interpreter.ts:44-55 | `globals` is the only frame and holds `clock`, a foreign function of arity 0 |
| Semantics.Field | src/Interpreter/Interpreter.ts:270 | `fields.get(name) \|\| nil`: a field that is present and not falsy, else nil |
| Semantics.CallResult | src/Interpreter/Interpreter.ts:299-304 | a body that completes gives nil, a `Return` gives its value, and any error is swallowed and gives `undefined` |
| Semantics.BindParams | src/Interpreter/Interpreter.ts:296-298 | the parameter loop changes only the new frame and keeps its parent |
| Semantics.BindParamsBinds | src/Interpreter/Interpreter.ts:296-298 | every parameter is bound to its argument, and every other name of the frame is kept |
| Semantics.EvalExpr | src/Interpreter/Interpreter.ts:62-64 | evaluation never completes with a `Return` and leaves the current environment as it found it |
| Semantics.EvalArgs | src/Interpreter/Interpreter.ts:232-235 | all arguments are evaluated left to right, or evaluation stops at the first error |
| Semantics.CheckedCall | src/Interpreter/Interpreter.ts:236-255 | a callee that is not a function, foreign function or class is the "Can only call" error, and a wrong argument count is the arity error, with the state unchanged |
| Semantics.CallValue | src/Interpreter/Interpreter.ts:294-332 | calling never completes with a `Return` and leaves the caller's environment current |
| Semantics.ExecBlock | src/Interpreter/Interpreter.ts:198-209 | the previous environment is current again on every way out |
| Semantics.ExecStmts | src/Interpreter/Interpreter.ts:137-141 | no statements give nil, and the current environment is kept |
| Semantics.ExecStmt | src/Interpreter/Interpreter.ts:146-148 | executing a statement leaves the current environment as it found it |
| Semantics.ExecWhile | src/Interpreter/Interpreter.ts:172-177 | the loop leaves the current environment as it found it |
| Semantics.Interpret | src/Interpreter/Interpreter.ts:133-142 | an empty program yields nil in the initial state |
| Semantics.OrShortCircuits | src/Interpreter/Interpreter.ts:218-228 | `or` yields a truthy left value without evaluating the right, and otherwise the right one |
| Semantics.AndShortCircuits | src/Interpreter/Interpreter.ts:218-228 | `and` yields a falsy left value without evaluating the right, and otherwise the right one |
| Semantics.NotEqualEvaluatesAsEqual | src/Interpreter/Interpreter.ts:98-101 | `a != b` evaluates exactly as `a == b` |
| Semantics.ArgumentsBeforeCallCheck | src/Interpreter/Interpreter.ts:229-243 | the callee and every argument are evaluated before the callability error is raised |
| Semantics.CallBindsParameters | src/Interpreter/Interpreter.ts:294-305 | the body runs in a new frame whose parent is the closure, binding exactly the parameters to the arguments; the result is what the `catch` makes of the outcome, and the caller's environment is restored |
| Semantics.CallSwallowsErrors | src/Interpreter/Interpreter.ts:299-303 | a runtime error in a function body does not propagate: the call yields `undefined` |
| Semantics.VarWithoutInitializerIsNil | src/Interpreter/Interpreter.ts:163-171 | `var x;` defines `x` as nil in the current frame |
| Semantics.LookUp | src/Interpreter/Interpreter.ts:181-188 | `lookUpVariable`: by distance when the resolver recorded one, else in `globals`, as LookUpByDistanceOrGlobal states |
| Semantics.LookUpByDistanceOrGlobal | src/Interpreter/Interpreter.ts:181-188 | a resolved variable is read `distance` frames up from the current frame; any other is read from `globals`, whichever frame is current |
| Semantics.AssignIgnoresDistances | src/Interpreter/Interpreter.ts:189-193 | for every right-hand side: assignment evaluates it, then `Scopes.Assign` searches by name from the current frame; the target is never looked up through the resolver's table, so two tables on which the right-hand side agrees give the same assignment |
| Semantics.ClassCallMakesEmptyInstance | src/Interpreter/Interpreter.ts:307-314 | calling a class with no arguments makes a new instance with no fields; an argument is an arity error |
| Semantics.GetFieldOrNil | src/Interpreter/Interpreter.ts:267-274 | `Get` on an instance reads the field or nil, and on anything else it is the "Only instances" error |
| Semantics.ForeignResultNormalised | src/Interpreter/Interpreter.ts:328-332 | a foreign function's falsy result becomes nil, and any other result is passed through |
| Semantics.LiteralDeclsDefineLocally | src/Interpreter/Interpreter.ts:163-171 | `var` declarations with absent or literal initializers complete normally, bind exactly their names in the current frame, add no frame and change no other frame |
| Semantics.BlockDeclarationsAreLocal | src/Interpreter/Interpreter.ts:194-209 | a block of such declarations binds exactly their names in its own new frame, chained to the current one, and every frame that existed before is unchanged |
| Semantics.IfRunsTakenBranchOnly | src/Interpreter/Interpreter.ts:210-217 | an abrupt condition ends the `if`; a truthy one makes the `else` branch irrelevant and a falsy one the `then` branch; falsy without `else` completes with nil |
| Semantics.WhileFalseSkipsBody | src/Interpreter/Interpreter.ts:172-177 | a falsy condition completes the loop without running the body |
| Semantics.ExecStmtsSnoc | src/Interpreter/Interpreter.ts:137-141 | one more statement runs in the state the others left, unless one of them completed abruptly, whose outcome then stands |
| Semantics.InterpretYieldsLastValue | src/Interpreter/Interpreter.ts:133-142 | for every program, `interpret` yields the outcome of the last statement run in the state the earlier ones left, or the first abrupt outcome before it |
| Interpreter.Resolved | src/Interpreter/Interpreter.ts:276-278 | after `resolve` calls, every recorded id is in the table, the last record wins, and other entries are kept |
| Interpreter.Interpreter.constructor | src/Interpreter/Interpreter.ts:44-55 | the state is the initial one: `globals` with `clock`, and no resolved variables; the invariant holds |
| Interpreter.Interpreter.Resolve | src/Interpreter/Interpreter.ts:276-278 | `locals` gains the id with its depth, and nothing else changes |
| Interpreter.Interpreter.Evaluate | src/Interpreter/Interpreter.ts:56-64 | the outcome and new state are `Semantics.EvalExpr` of the old state |
| Interpreter.Interpreter.VisitUnaryExpr | src/Interpreter/Interpreter.ts:121-131 | as for Evaluate, for unary nodes |
| Interpreter.Interpreter.VisitBinaryExpr | src/Interpreter/Interpreter.ts:70-109 | as for Evaluate, for binary nodes: both operands in order, then the operator switch |
| Interpreter.Interpreter.VisitLogicalExpr | src/Interpreter/Interpreter.ts:218-228 | as for Evaluate, for logical nodes |
| Interpreter.Interpreter.LookUpVariable | src/Interpreter/Interpreter.ts:178-188 | the value is `Semantics.LookUp` in the current state, and nothing is changed |
| Interpreter.Interpreter.VisitAssignExpr | src/Interpreter/Interpreter.ts:189-193 | as for Evaluate, for assignments |
| Interpreter.Interpreter.VisitGetExpr | src/Interpreter/Interpreter.ts:267-274 | as for Evaluate, for property reads |
| Interpreter.Interpreter.VisitCallExpr | src/Interpreter/Interpreter.ts:229-255 | the `args.push` loop and the checks give `Semantics.EvalExpr` of the call |
| Interpreter.Interpreter.EvaluateArguments | src/Interpreter/Interpreter.ts:232-235 | evaluating the arguments left to right gives `Semantics.EvalArgs` of the old state, stopping at the first abrupt outcome |
| Interpreter.Interpreter.JoinedStep | src/Interpreter/Interpreter.ts:234-235 | an argument that evaluates normally extends the values collected so far, and the rest of the list continues from its state |
| Interpreter.Interpreter.JoinedStop | src/Interpreter/Interpreter.ts:234-235 | an argument that ends abruptly ends the whole argument list with its outcome |
| Interpreter.Interpreter.CallFunction | src/Interpreter/Interpreter.ts:294-332 | `fn.call` for functions, classes and foreign functions gives `Semantics.CallValue` of the old state |
| Interpreter.Interpreter.ExecuteBlock | src/Interpreter/Interpreter.ts:198-209 | swapping the environment in and back out gives `Semantics.ExecBlock` of the old state |
| Interpreter.Interpreter.ExecuteStatements | src/Interpreter/Interpreter.ts:137-141 | the statement loop gives `Semantics.ExecStmts` of the old state |
| Interpreter.Interpreter.Execute | src/Interpreter/Interpreter.ts:146-157 | the outcome and new state are `Semantics.ExecStmt` of the old state |
| Interpreter.Interpreter.VisitPrintStmt | src/Interpreter/Interpreter.ts:158-162 | as for Execute; the value is appended to the output |
| Interpreter.Interpreter.VisitVarStmt | src/Interpreter/Interpreter.ts:163-171 | as for Execute, for `var` |
| Interpreter.Interpreter.VisitBlockStmt | src/Interpreter/Interpreter.ts:194-197 | as for Execute, for a block in a new enclosed environment |
| Interpreter.Interpreter.VisitIfStmt | src/Interpreter/Interpreter.ts:210-217 | as for Execute, for `if` |
| Interpreter.Interpreter.VisitWhileStmt | src/Interpreter/Interpreter.ts:172-177 | the loop gives `Semantics.ExecWhile` of the old state |
| Interpreter.Interpreter.VisitReturnStmt | src/Interpreter/Interpreter.ts:149-153 | as for Execute: a `Return` carrying the value |
| Interpreter.Interpreter.VisitClassStmt | src/Interpreter/Interpreter.ts:261-266 | as for Execute, for a class declaration; the `assign` after `define` always finds the name |
| Interpreter.Interpreter.Interpret | src/Interpreter/Interpreter.ts:133-142 | after recording the resolver's distances, the statement loop gives `Semantics.ExecStmts`; the invariant is kept |
| Interpreter.Run | src/Interpreter/Interpreter.ts:143-145 | a fresh interpreter yields the outcome of `Semantics.Interpret` with the recorded distances |

## Left out

- The scanner (src/Parser/Lexer.ts) wraps an external library. Tokens are an input sequence with `kind` (the scanner's `type`), `value`, `text` and `line`.
- src/Interpreter/Resolver.ts is not part of this model. Its output is an input:
  - the table `locals` from variable id to distance, in `Semantics.Ctx`;
  - the `resolve` calls it makes, as the `resolutions` of `Interpreter.Interpreter.Interpret`.
- `Environment.getAt` is called at src/Interpreter/Interpreter.ts:184 but not defined in src/Interpreter/Environment.ts. `Scopes.GetAt` is an explicit assumption: walk `distance` parent links, then read the local map. A missing name yields `undefined`; a missing ancestor is an error.
- Console output is not modelled. `print` appends the printed value to the `output` sequence rather than text. The messages of `Parser.error` are dropped, including the "Invalid assignment target" report.
- `stringify`, `pretty` and the `pretty` option (src/Util/util.ts) format output for the terminal, so they are left out.
- `clock` reads the host clock. It is foreign function 0, and every foreign function's result comes from the `foreign` parameter.
- `foreign` is a function of the foreign function's id and arguments alone. So two calls of `clock()` yield the same value, and a foreign function can neither read nor change the interpreter's state.
- The interpreter's invariant assumes the host yields no Lox function (`Semantics.HostValues`): `clock` returns a number and JavaScript's coercions return numbers, strings and booleans.
- Floating point is not modelled. Numbers are integers, and `parseFloat` reads the leading decimal digits only. The scanner's number pattern, `\d+(?:\\.\d+)?`, allows a fraction only after a backslash, so `1.5` is never a single number token; on such a token (`1\.5`) `parseFloat` also stops at the first non-digit. Host coercions go to the uninterpreted `coerce` parameter: arithmetic and comparison on non-numbers, unary `-` on a non-number, and every division (non-integer results, division by zero). `NaN` is not a value, so `JsFalsy` omits it.
- Termination: a `fuel` bound is spent once per `while` iteration and once per Lox function call. A program that runs out completes with `OutOfFuel`, which the source has no counterpart for.
- The visitor interfaces and `accept` methods (src/Parser/Expr.ts, src/Parser/Stmt.ts) become exhaustive `match`es over closed datatypes. Readonly fields become immutable datatype fields.
- The `Stmt` variants `If`, `While`, `Function`, `Return` and `Class`, which src/Parser/Stmt.ts does not define, are added with the fields the interpreter reads.
- Renamed fields:
  - `Literal.value` is `lit`;
  - `Var.name` is `varName`, an `Option`, because `consume` can return `undefined`;
  - `Function.body` is `fnBody`.
- A `Variable` node's identity is the index of its identifier token. Ids are proved pairwise distinct within one parsed expression (`Grammar.DistinctIds`); distinctness across the statements of a whole program is not proved.
- Exceptions become the four `Outcome`s of module `Semantics`. The `ReturnErr` class is `Returning(value)`.
- `LoxInstance` objects are indices into the `instances` table of field maps. Nothing in the source writes a field, so no such operation exists.
- Environments are never freed: the arena only grows.
- With recovery on, `Grammar.BlockLoop` and `Grammar.ParseLoop` drop the `null` that `declaration()` returns for a recovered statement, while the source pushes it into the list (src/Parser/Parser.ts:181 and 283). This touches only the corrected recovery mode of the Findings row, since as written no declaration ever returns `null`.
- BlockDeclarationsAreLocal: stated for blocks of `var` declarations whose initializers are absent or literals. An initializer can itself assign (`{ var a = b = 1; }` writes `b` in an enclosing frame), so no such claim holds for every block.
- The six folding level methods are one method, `Parser.Parser.BinaryLevel(k)`, over an operator table. Its `while` loop is the method `Parser.Parser.FoldLoop` and the loop body is `Parser.Parser.FoldOperand`. `or()` keeps its own name (`Parser.Parser.Or`).
- `statement()` tries `matchValue` for each keyword in turn; `Parser.Parser.Statement` tests with `checkValue` and calls `advance` in the branch taken, which consumes the same tokens. The `else` part of `ifStatement()` and the three clauses of `forStatement()` are their own methods, each matching a function of the grammar.
- The argument loop of `visitCallExpr` is its own method, `Interpreter.Interpreter.EvaluateArguments`.
- The static `AstPrinter.print` and `Interpreter.interpret` are the module-level `Parser.ParseTokens` and `Interpreter.Run` (and `AstPrinter.Print`).
- The printer has no visit method for `Assign`, `Call`, `Get`, `Unary`, `Logical` or `Variable` nodes; on those, the source's `accept` throws. `AstPrinter.Print` returns `None` for them.
- GenerateExpr.ts, the command line and the test driver are tooling and I/O, so they are left out.

Where the code departs from the language as Crafting Interpreters (Robert Nystrom) defines Lox, the model follows the code:

- Lox's grammar has a call level. `factor` calls `primary` directly, so `call()` is unreachable and no `Call` node is ever parsed. `Grammar.CallExpr` models `call()` on its own.
- Lox's parser recovers in panic mode. `primary` calls `process.exit()` instead (see Findings).
- In Lox, values of different types are unequal (`false`). `equals` returns `undefined`, `==` and `!=` agree, and two booleans are never equal.
- In Lox, resolved distances serve assignment too. `visitAssignExpr` searches by name.
- In Lox, a call yields nil or the returned value, and a runtime error propagates. The `catch` here swallows runtime errors.
- In Lox, only `nil` and `false` are falsy. The `== nil` test also treats `undefined` as falsy, and `!` uses host negation.

## Findings

| source | as written | input that shows it | evidently intended | confidence | as-written member | corrected member |
|---|---|---|---|---|---|---|
| src/Parser/Parser.ts:150-151 | `primary` reports "Expect expression." then calls `process.exit()`, so the `catch` in `declaration` (lines 186-193) is unreachable and the `ParseError` class (line 350) is never thrown | the tokens `) print 1`: parsing ends at the first token and `print 1` is never parsed | throw a parse error that `declaration` catches, then `synchronize` and drop the broken statement, so parsing continues with `print 1` | not executed | Grammar.BrokenStatementEndsParse | Grammar.RecoveryKeepsNextStatement |
