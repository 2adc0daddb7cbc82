/**
 * The parenthesised pretty-printer for expressions.  Only `Binary`, `Grouping`
 * and `Literal` have visitor methods in the printer; any other node makes
 * `accept` call a method the printer lacks, which fails at run time, so the
 * printer yields `None` for trees holding such a node.
 */
module AstPrinter {
  import opened Wrappers
  import opened Ast
  import Text

  /** The string form of a literal: `nil` for the null-like values. */
  function LitText(l: Lit): (r: string)
    ensures l.NilLit? || l.UndefinedLit? ==> r == "nil"
    ensures l.StrLit? ==> r == l.s
    ensures l.BoolLit? ==> r == (if l.b then "true" else "false")
    ensures l.NumLit? ==> r == Text.IntToString(l.n)
  {
    match l
    case NilLit => "nil"
    case UndefinedLit => "nil"
    case BoolLit(b) => if b then "true" else "false"
    case NumLit(n) => Text.IntToString(n)
    case StrLit(s) => s
  }

  /** True when every node of `e` has a printer visitor method. */
  predicate Printable(e: Expr)
  {
    match e
    case Binary(l, _, r) => Printable(l) && Printable(r)
    case Grouping(x) => Printable(x)
    case Literal(_) => true
    case _ => false
  }

  /** True when every tree of `exprs` is printable. */
  predicate AllPrintable(exprs: seq<Expr>)
  {
    exprs == [] || (Printable(exprs[0]) && AllPrintable(exprs[1..]))
  }

  /** `print(expr)`: the rendering of `e`, or `None` when some node has no visitor method. */
  function Print(e: Expr): (r: Option<string>)
    ensures r.Some? <==> Printable(e)
    decreases ExprSize(e), 0
  {
    match e
    case Binary(l, op, r) =>
      ExprsSizeTwo(l, r);
      assert [l, r][0] == l && [l, r][1..] == [r] && [r][0] == r && [r][1..] == [];
      assert AllPrintable([r]) == Printable(r);
      Parenthesize(op.text, [l, r])
    case Grouping(x) =>
      ExprsSizeOne(x);
      assert [x][0] == x && [x][1..] == [];
      assert AllPrintable([x]) == Printable(x);
      Parenthesize("group", [x])
    case Literal(l) => Some(LitText(l))
    case _ => None
  }

  /** The renderings of `exprs`, each preceded by one space (the body of `parenthesize`'s loop). */
  function Children(exprs: seq<Expr>): (r: Option<string>)
    ensures r.Some? <==> AllPrintable(exprs)
    decreases ExprsSize(exprs), 1
  {
    if exprs == [] then Some("")
    else
      match Print(exprs[0])
      case None => None
      case Some(first) =>
        match Children(exprs[1..])
        case None => None
        case Some(rest) => Some(" " + first + rest)
  }

  /** `parenthesize(name, ...exprs)`: one `(`, the name, the space-prefixed children, one `)`. */
  function Parenthesize(name: string, exprs: seq<Expr>): (r: Option<string>)
    ensures r.Some? <==> AllPrintable(exprs)
    ensures r.Some? ==> r.value == "(" + name + Children(exprs).value + ")"
    decreases ExprsSize(exprs), 2
  {
    match Children(exprs)
    case None => None
    case Some(body) => Some("(" + name + body + ")")
  }

  /** The net count of `(` over `)` in `s`. */
  function Net(s: string): int
  {
    if s == [] then 0
    else (if s[0] == '(' then 1 else if s[0] == ')' then -1 else 0) + Net(s[1..])
  }

  /** Balanced parentheses: as many closing as opening, and never more closing in a prefix. */
  ghost predicate Balanced(s: string)
  {
    Net(s) == 0 && forall k | 0 <= k <= |s| :: Net(s[..k]) >= 0
  }

  predicate NoParens(s: string)
  {
    forall i | 0 <= i < |s| :: s[i] != '(' && s[i] != ')'
  }

  /** The trees the balance property speaks of: no parenthesis inside an operator or string literal. */
  predicate ParenFree(e: Expr)
  {
    match e
    case Binary(l, op, r) => NoParens(op.text) && ParenFree(l) && ParenFree(r)
    case Grouping(x) => ParenFree(x)
    case Literal(l) => !l.StrLit? || NoParens(l.s)
    case _ => true
  }

  lemma {:induction false} NetConcat(a: string, b: string)
    ensures Net(a + b) == Net(a) + Net(b)
  {
    if a != [] {
      assert (a + b)[0] == a[0];
      assert (a + b)[1..] == a[1..] + b;
      NetConcat(a[1..], b);
    } else {
      assert a + b == b;
    }
  }

  lemma {:induction false} NoParensNet(s: string)
    requires NoParens(s)
    ensures Net(s) == 0
  {
    if s != [] {
      NoParensNet(s[1..]);
    }
  }

  lemma NoParensBalanced(s: string)
    requires NoParens(s)
    ensures Balanced(s)
  {
    NoParensNet(s);
    forall k | 0 <= k <= |s| ensures Net(s[..k]) >= 0 {
      NoParensNet(s[..k]);
    }
  }

  lemma BalancedConcat(a: string, b: string)
    requires Balanced(a) && Balanced(b)
    ensures Balanced(a + b)
  {
    NetConcat(a, b);
    forall k | 0 <= k <= |a + b| ensures Net((a + b)[..k]) >= 0 {
      if k <= |a| {
        assert (a + b)[..k] == a[..k];
      } else {
        assert (a + b)[..k] == a + b[..k - |a|];
        NetConcat(a, b[..k - |a|]);
      }
    }
  }

  lemma BalancedWrap(s: string)
    requires Balanced(s)
    ensures Balanced("(" + s + ")")
  {
    var w := "(" + s + ")";
    assert w == "(" + (s + ")");
    NetConcat("(", s + ")");
    NetConcat(s, ")");
    forall k | 0 <= k <= |w| ensures Net(w[..k]) >= 0 {
      if k == |w| {
        assert w[..k] == w;
      } else if k > 0 {
        assert w[..k] == "(" + s[..k - 1];
        NetConcat("(", s[..k - 1]);
      }
    }
  }

  /** Every printable tree without parentheses in its texts prints with balanced parentheses. */
  lemma {:induction false} PrintBalanced(e: Expr)
    requires Printable(e) && ParenFree(e)
    ensures Balanced(Print(e).value)
    decreases ExprSize(e), 1
  {
    match e
    case Binary(_, _, _) =>
      BinaryBalanced(e);
    case Grouping(_) =>
      GroupingBalanced(e);
    case Literal(l) =>
      match l
      case NumLit(n) =>
        NoParensBalanced(Text.IntToString(n));
      case _ =>
        NoParensBalanced(LitText(l));
  }

  /** The `Binary` case of `PrintBalanced`. */
  lemma {:induction false} BinaryBalanced(e: Expr)
    requires e.Binary? && Printable(e) && ParenFree(e)
    ensures Balanced(Print(e).value)
    decreases ExprSize(e), 0
  {
    var l, op, r := e.left, e.operator, e.right;
    ExprsSizeTwo(l, r);
    assert [l, r][0] == l && [l, r][1..] == [r] && [r][0] == r && [r][1..] == [];
    ChildrenBalanced([l, r]);
    NoParensBalanced(op.text);
    BalancedConcat(op.text, Children([l, r]).value);
    BalancedWrap(op.text + Children([l, r]).value);
    assert Print(e).value == "(" + (op.text + Children([l, r]).value) + ")";
  }

  /** The `Grouping` case of `PrintBalanced`. */
  lemma {:induction false} GroupingBalanced(e: Expr)
    requires e.Grouping? && Printable(e) && ParenFree(e)
    ensures Balanced(Print(e).value)
    decreases ExprSize(e), 0
  {
    var x := e.expression;
    ExprsSizeOne(x);
    assert [x][0] == x && [x][1..] == [];
    ChildrenBalanced([x]);
    NoParensBalanced("group");
    BalancedConcat("group", Children([x]).value);
    BalancedWrap("group" + Children([x]).value);
    assert Print(e).value == "(" + ("group" + Children([x]).value) + ")";
  }

  predicate AllParenFree(exprs: seq<Expr>)
  {
    exprs == [] || (ParenFree(exprs[0]) && AllParenFree(exprs[1..]))
  }

  lemma {:induction false} ChildrenBalanced(exprs: seq<Expr>)
    requires AllPrintable(exprs) && AllParenFree(exprs)
    ensures Balanced(Children(exprs).value)
    decreases ExprsSize(exprs), 2
  {
    if exprs == [] {
      NoParensBalanced("");
    } else {
      PrintBalanced(exprs[0]);
      ChildrenBalanced(exprs[1..]);
      NoParensBalanced(" ");
      BalancedConcat(" ", Print(exprs[0]).value);
      BalancedConcat(" " + Print(exprs[0]).value, Children(exprs[1..]).value);
    }
  }

  lemma ConcatShape(t: string, a: string, b: string)
    ensures "(" + t + (" " + a + (" " + b + "")) + ")" == "(" + t + " " + a + " " + b + ")"
  {
  }

  lemma GroupShape(a: string)
    ensures "(" + "group" + (" " + a + "") + ")" == "(group " + a + ")"
  {
    assert "(" + "group" + " " == "(group ";
  }

  /** `Binary` prints as `(op left right)`. */
  lemma PrintBinary(l: Expr, op: Token, r: Expr)
    requires Printable(l) && Printable(r)
    ensures Print(Binary(l, op, r)) == Some("(" + op.text + " " + Print(l).value + " " + Print(r).value + ")")
  {
    var pl, pr := Print(l).value, Print(r).value;
    ExprsSizeTwo(l, r);
    assert [l, r][0] == l && [l, r][1..] == [r] && [r][0] == r && [r][1..] == [];
    assert Children([r]) == Some(" " + pr + "");
    assert Children([l, r]) == Some(" " + pl + (" " + pr + ""));
    ConcatShape(op.text, pl, pr);
  }

  /** `Grouping` prints as `(group inner)`. */
  lemma PrintGrouping(x: Expr)
    requires Printable(x)
    ensures Print(Grouping(x)) == Some("(group " + Print(x).value + ")")
  {
    var px := Print(x).value;
    ExprsSizeOne(x);
    assert [x][0] == x && [x][1..] == [];
    assert Children([x]) == Some(" " + px + "");
    GroupShape(px);
  }
}
