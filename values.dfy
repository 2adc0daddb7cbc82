/**
 * Runtime values of the interpreter and the value-level operations that do
 * not touch the environment: truthiness, equality, and the operator switch of
 * `visitBinaryExpr` / `visitUnaryExpr`.
 *
 * Numbers are unbounded integers.  Host arithmetic whose meaning is floating
 * point or a JavaScript coercion (division, `-`, `*` and comparisons on
 * operands that are not both numbers, unary `-` on a non-number) is delegated
 * to an uninterpreted `coerce` oracle supplied by the caller.
 */
module Values {
  import opened Ast

  datatype Value =
    | Nil
      /** JavaScript `undefined`, which several code paths produce. */
    | Undefined
    | Bool(b: bool)
    | Num(n: int)
    | Str(s: string)
      /** A `LoxFunction`: its declaration and the index of the frame it closes over. */
    | LoxFunction(name: Token, params: seq<Token>, body: seq<Stmt>, closure: nat)
      /** A `ForeignFunction`: host code named by `id`, with its declared arity. */
    | ForeignFunction(id: nat, arity: nat)
    | LoxClass(className: string)
      /** A `LoxInstance`: `ref` indexes the table of field maps. */
    | LoxInstance(ref: nat, klass: string)

  /** The host's `(op, left, right) -> value` coercion behaviour, left uninterpreted. */
  type Coerce = (string, Value, Value) -> Value

  /** `visitLiteralExpr`: the literal's own value. */
  function LitValue(l: Lit): (r: Value)
    ensures l.NilLit? <==> r.Nil?
    ensures l.UndefinedLit? <==> r.Undefined?
    ensures l.BoolLit? ==> r == Bool(l.b)
    ensures l.NumLit? ==> r == Num(l.n)
    ensures l.StrLit? ==> r == Str(l.s)
  {
    match l
    case NilLit => Nil
    case UndefinedLit => Undefined
    case BoolLit(b) => Bool(b)
    case NumLit(n) => Num(n)
    case StrLit(s) => Str(s)
  }

  /**
   * `isTruthy`: `object == nil` is JavaScript's loose equality, which holds for
   * both `null` and `undefined`; a boolean is itself; everything else is truthy.
   */
  function IsTruthy(v: Value): (r: bool)
    ensures r <==> !(v.Nil? || v.Undefined? || v == Bool(false))
  {
    match v
    case Nil => false
    case Undefined => false
    case Bool(b) => b
    case _ => true
  }

  /** The host's `!v` is true exactly for these values (NaN is not modelled). */
  predicate JsFalsy(v: Value)
  {
    v.Nil? || v.Undefined? || v == Bool(false) || v == Num(0) || v == Str("")
  }

  /**
   * `equals(a, b)`: numbers with numbers and strings with strings by value,
   * nil with nil is true, a nil left operand otherwise false; every other pair
   * falls off the end of the function and yields `undefined`.
   */
  function Equals(a: Value, b: Value): (r: Value)
    ensures (a.Num? && b.Num?) || (a.Str? && b.Str?) ==> r == Bool(a == b)
    ensures a.Nil? ==> r == Bool(b.Nil?)
    ensures r.Undefined? <==> !((a.Num? && b.Num?) || (a.Str? && b.Str?) || a.Nil?)
    ensures r == Bool(true) ==> a == b
  {
    if (a.Num? && b.Num?) || (a.Str? && b.Str?) then Bool(a == b)
    else if a.Nil? && b.Nil? then Bool(true)
    else if a.Nil? then Bool(false)
    else Undefined
  }

  /** The operator switch of `visitBinaryExpr`, on the two evaluated operands. */
  function BinaryOp(coerce: Coerce, op: string, left: Value, right: Value): Value
  {
    match op
    case ">" => if left.Num? && right.Num? then Bool(left.n > right.n) else coerce(op, left, right)
    case ">=" => if left.Num? && right.Num? then Bool(left.n >= right.n) else coerce(op, left, right)
    case "<" => if left.Num? && right.Num? then Bool(left.n < right.n) else coerce(op, left, right)
    case "<=" => if left.Num? && right.Num? then Bool(left.n <= right.n) else coerce(op, left, right)
    case "-" => if left.Num? && right.Num? then Num(left.n - right.n) else coerce(op, left, right)
    case "*" => if left.Num? && right.Num? then Num(left.n * right.n) else coerce(op, left, right)
    case "/" => coerce(op, left, right)
    case "+" =>
      if left.Num? && right.Num? then Num(left.n + right.n)
      else if left.Str? && right.Str? then Str(left.s + right.s)
      else Nil
    case "!=" => Equals(left, right)
    case "==" => Equals(left, right)
    case _ => Nil
  }

  /** The operator switch of `visitUnaryExpr`: host negation `-v` and host `!v`. */
  function UnaryOp(coerce: Coerce, op: string, right: Value): Value
  {
    match op
    case "-" => if right.Num? then Num(-right.n) else coerce("unary-", right, right)
    case "!" => Bool(JsFalsy(right))
    case _ => Nil
  }

  // ---------------------------------------------------------------------------
  // Properties

  /** A host whose coercions never yield a Lox function makes every operator result a plain value. */
  lemma OperatorsMakeNoFunction(coerce: Coerce, op: string, left: Value, right: Value)
    requires forall o, a, b :: !coerce(o, a, b).LoxFunction?
    ensures !BinaryOp(coerce, op, left, right).LoxFunction?
    ensures !UnaryOp(coerce, op, right).LoxFunction?
  {
  }

  /** `0` and `""` are truthy, unlike in the host language. */
  lemma ZeroAndEmptyAreTruthy(coerce: Coerce)
    ensures IsTruthy(Num(0)) && IsTruthy(Str(""))
    ensures UnaryOp(coerce, "!", Num(0)) == Bool(true) && UnaryOp(coerce, "!", Str("")) == Bool(true)
  {
  }

  /** `!` disagrees with `isTruthy` exactly on `0` and `""`. */
  lemma NotIsHostNegation(coerce: Coerce, v: Value)
    ensures UnaryOp(coerce, "!", v) == Bool(!IsTruthy(v)) <==> !(v == Num(0) || v == Str(""))
  {
  }

  /** `+` adds two numbers, concatenates two strings, and yields nil for every other pair. */
  lemma PlusCases(coerce: Coerce, l: Value, r: Value)
    ensures l.Num? && r.Num? ==> BinaryOp(coerce, "+", l, r) == Num(l.n + r.n)
    ensures l.Str? && r.Str? ==> BinaryOp(coerce, "+", l, r) == Str(l.s + r.s)
    ensures BinaryOp(coerce, "+", l, r) == Nil <==> !((l.Num? && r.Num?) || (l.Str? && r.Str?))
  {
  }

  /** On two numbers the comparisons, `-` and `*` are the integer operations; `/` is always the host's. */
  lemma NumericOperators(coerce: Coerce, a: int, b: int)
    ensures BinaryOp(coerce, ">", Num(a), Num(b)) == Bool(a > b) && BinaryOp(coerce, ">=", Num(a), Num(b)) == Bool(a >= b)
    ensures BinaryOp(coerce, "<", Num(a), Num(b)) == Bool(a < b) && BinaryOp(coerce, "<=", Num(a), Num(b)) == Bool(a <= b)
    ensures BinaryOp(coerce, "-", Num(a), Num(b)) == Num(a - b) && BinaryOp(coerce, "*", Num(a), Num(b)) == Num(a * b)
    ensures BinaryOp(coerce, "/", Num(a), Num(b)) == coerce("/", Num(a), Num(b))
  {
  }

  /** `!=` computes the same value as `==`. */
  lemma NotEqualIsEqual(coerce: Coerce, l: Value, r: Value)
    ensures BinaryOp(coerce, "!=", l, r) == BinaryOp(coerce, "==", l, r) == Equals(l, r)
    ensures BinaryOp(coerce, "!=", Num(1), Num(1)) == Bool(true)
  {
  }

  /** Two booleans never compare equal, and the nil rule is one-sided. */
  lemma EqualsQuirks(x: bool)
    ensures Equals(Bool(x), Bool(x)) == Undefined
    ensures Equals(Nil, Num(1)) == Bool(false) && Equals(Num(1), Nil) == Undefined
  {
  }
}
