/**
 * The program of 8.cpp's `main` and the sharing behaviour a client of the factory
 * observes, each run against a new factory.
 */
module Example {
  import opened Wrappers
  import opened Expressions
  import opened Factory

  /** Builds (2 + x) * 4 through the factory and evaluates it with x bound to 3. */
  method WorkedExample() returns (result: Result<int, EvalError>, text: string)
    ensures result == Success(20)
    ensures text == "((2 + x) * 4)"
  {
    var factory := new ExpressionFactory();
    var two := factory.CreateConstant(2, {});
    var x := factory.CreateVariable("x", {});
    var four := factory.CreateConstant(4, {two, x});
    var sum := Addition(Const(two), Var(x));
    var tree := Multiplication(sum, Const(four));
    var context := map["x" := 3];
    assert Eval(sum, context) == Success(5);
    assert Eval(Const(four), context) == Success(4);
    result := Eval(tree, context);
    assert Render(Const(two)) == "2" && Render(Const(four)) == "4";
    assert Render(sum) == "(2 + x)";
    text := Render(tree);
  }

  /** Asks twice for the same constant; `held` says whether the first handle is still
      owned at the second request. */
  method RepeatedConstant(value: int, held: bool) returns (first: Constant, second: Constant)
    ensures first.value == value && second.value == value
    ensures InPredefinedRange(value) || held ==> second == first
    ensures !InPredefinedRange(value) && !held ==> second != first
  {
    var factory := new ExpressionFactory();
    first := factory.CreateConstant(value, {});
    var live: set<object> := if held then {first} else {};
    second := factory.CreateConstant(value, live);
  }

  /** Asks twice for the same variable; `held` says whether the first handle is still
      owned at the second request. */
  method RepeatedVariable(name: string, held: bool) returns (first: Variable, second: Variable)
    ensures first.name == name && second.name == name
    ensures held <==> second == first
  {
    var factory := new ExpressionFactory();
    first := factory.CreateVariable(name, {});
    var live: set<object> := if held then {first} else {};
    second := factory.CreateVariable(name, live);
  }
}
