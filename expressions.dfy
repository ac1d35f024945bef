/**
 * The expression nodes of 8.cpp. Constant and Variable are the leaf objects the
 * factory hands out (their identity is the identity of the shared node); a tree
 * is a value of Expr whose leaves hold those objects and whose inner nodes are
 * Addition and Multiplication. `calculate` is Eval and `print` is Render.
 */
module Expressions {
  import opened Wrappers
  import Decimal

  /** A constant leaf; its value is fixed at construction. */
  class Constant {
    const value: int

    constructor (v: int)
      ensures value == v
    {
      value := v;
    }
  }

  /** A variable leaf; its name is fixed at construction. */
  class Variable {
    const name: string

    constructor (n: string)
      ensures name == n
    {
      name := n;
    }
  }

  datatype Expr =
    | Const(constant: Constant)
    | Var(variable: Variable)
    | Addition(left: Expr, right: Expr)
    | Multiplication(left: Expr, right: Expr)

  /** The single failure of evaluation: a variable with no binding in the context. */
  datatype EvalError = UnboundVariable(name: string)

  type Context = map<string, int>

  /** `calculate`: the left operand is evaluated first and its failure is the one reported. */
  function Eval(e: Expr, context: Context): Result<int, EvalError> {
    match e
    case Const(c) => Success(c.value)
    case Var(v) =>
      if v.name in context then Success(context[v.name]) else Failure(UnboundVariable(v.name))
    case Addition(l, r) =>
      var a := Eval(l, context);
      if a.Failure? then a else
      var b := Eval(r, context);
      if b.Failure? then b else Success(a.value + b.value)
    case Multiplication(l, r) =>
      var a := Eval(l, context);
      if a.Failure? then a else
      var b := Eval(r, context);
      if b.Failure? then b else Success(a.value * b.value)
  }

  /** `print`: fully parenthesised infix text. */
  function Render(e: Expr): string {
    match e
    case Const(c) => Decimal.IntToString(c.value)
    case Var(v) => v.name
    case Addition(l, r) => "(" + Render(l) + " + " + Render(r) + ")"
    case Multiplication(l, r) => "(" + Render(l) + " * " + Render(r) + ")"
  }

  /** Names of the variables occurring in a tree. */
  function FreeVars(e: Expr): set<string> {
    match e
    case Const(_) => {}
    case Var(v) => {v.name}
    case Addition(l, r) => FreeVars(l) + FreeVars(r)
    case Multiplication(l, r) => FreeVars(l) + FreeVars(r)
  }

  /** Two contexts that bind the same names of `names` to the same values. */
  ghost predicate AgreeOn(names: set<string>, c1: Context, c2: Context) {
    forall n :: n in names ==> (n in c1 <==> n in c2) && (n in c1 ==> c1[n] == c2[n])
  }

  // ----- evaluation of each kind of node -----

  /** A constant yields its value under every context and never fails. */
  lemma EvalConstant(c: Constant, context: Context)
    ensures Eval(Const(c), context) == Success(c.value)
  {
  }

  /** A variable yields its binding, and fails naming itself when it has none. */
  lemma EvalVariable(v: Variable, context: Context)
    ensures Eval(Var(v), context).Success? <==> v.name in context
    ensures v.name in context ==> Eval(Var(v), context).value == context[v.name]
    ensures v.name !in context ==> Eval(Var(v), context) == Failure(UnboundVariable(v.name))
  {
  }

  /** A sum succeeds exactly when both operands do, and then yields their sum. */
  lemma EvalAddition(l: Expr, r: Expr, context: Context)
    ensures Eval(Addition(l, r), context).Success? <==>
              Eval(l, context).Success? && Eval(r, context).Success?
    ensures Eval(Addition(l, r), context).Success? ==>
              Eval(Addition(l, r), context).value == Eval(l, context).value + Eval(r, context).value
  {
  }

  /** A product succeeds exactly when both operands do, and then yields their product. */
  lemma EvalMultiplication(l: Expr, r: Expr, context: Context)
    ensures Eval(Multiplication(l, r), context).Success? <==>
              Eval(l, context).Success? && Eval(r, context).Success?
    ensures Eval(Multiplication(l, r), context).Success? ==>
              Eval(Multiplication(l, r), context).value == Eval(l, context).value * Eval(r, context).value
  {
  }

  /** A constant prints as the canonical decimal numeral of its value. */
  lemma RenderConstant(c: Constant)
    ensures Decimal.Canonical(Render(Const(c)))
    ensures Decimal.IsNumeral(Render(Const(c)))
    ensures Decimal.ParseInt(Render(Const(c))) == c.value
  {
    Decimal.IntToStringRoundTrip(c.value);
  }

  // ----- properties of whole trees -----

  /** Evaluation fails exactly when some variable of the tree is unbound, and the
      error it reports names such a variable, whatever the operand order. */
  lemma {:induction false} EvalFailsIffUnbound(e: Expr, context: Context)
    ensures Eval(e, context).Success? <==> FreeVars(e) <= context.Keys
    ensures Eval(e, context).Failure? ==>
              Eval(e, context).error.name in FreeVars(e) &&
              Eval(e, context).error.name !in context
  {
    match e
    case Const(_) =>
    case Var(_) =>
    case Addition(l, r) =>
      EvalFailsIffUnbound(l, context);
      EvalFailsIffUnbound(r, context);
    case Multiplication(l, r) =>
      EvalFailsIffUnbound(l, context);
      EvalFailsIffUnbound(r, context);
  }

  /** The result depends only on the bindings of the tree's own variables. */
  lemma {:induction false} EvalDependsOnlyOnFreeVars(e: Expr, c1: Context, c2: Context)
    requires AgreeOn(FreeVars(e), c1, c2)
    ensures Eval(e, c1) == Eval(e, c2)
  {
    match e
    case Const(_) =>
    case Var(_) =>
    case Addition(l, r) =>
      EvalDependsOnlyOnFreeVars(l, c1, c2);
      EvalDependsOnlyOnFreeVars(r, c1, c2);
    case Multiplication(l, r) =>
      EvalDependsOnlyOnFreeVars(l, c1, c2);
      EvalDependsOnlyOnFreeVars(r, c1, c2);
  }

  /** Adding bindings to a context in which a tree evaluates does not change its value. */
  lemma EvalMonotone(e: Expr, c1: Context, c2: Context)
    requires Eval(e, c1).Success?
    requires forall n :: n in c1 ==> n in c2 && c2[n] == c1[n]
    ensures Eval(e, c2) == Eval(e, c1)
  {
    EvalFailsIffUnbound(e, c1);
    EvalDependsOnlyOnFreeVars(e, c1, c2);
  }
}
