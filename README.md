# Expression trees and their caching factory

A model of the expression evaluator in `8.cpp`: trees built from Constant and
Variable leaves joined by Addition and Multiplication nodes, evaluated against a
context that binds names to integers (`calculate`) and printed in fully
parenthesised infix form (`print`); and the `ExpressionFactory` that hands out
leaves, owning one Constant for each value in [-5, 256] and caching the other
constants and all variables through weak references.

Modules:

- `Wrappers` (`wrappers.dfy`): `Option` and `Result`.
- `Decimal` (`decimal.dfy`): the text `os << int` writes, with a reader that inverts it.
- `Expressions` (`expressions.dfy`): the leaf classes `Constant` and `Variable`
  (immutable `const` fields; object identity stands for the identity of the shared node),
  the tree datatype `Expr`, `Eval` (`calculate`), `Render` (`print`) and the facts
  about evaluation. `Eval` fails only with `UnboundVariable(name)`.
- `RenderFacts` (`render_facts.dfy`): a reader of the printed form. It shows that
  printing loses nothing but node identity, provided that variable names are
  identifiers. An identifier is non-empty, has no space or parenthesis and does not
  start with a digit or '-'. For other names the printed text can be ambiguous: a variable named
  `2` prints like the constant 2.
- `Factory` (`factory.dfy`): `ExpressionFactory` as a class with the three maps of
  the source as map fields, updated in place by `InitPredefined`, `CreateConstant`
  and `CreateVariable`.
- `Example` (`example.dfy`): the tree built by `main` and the reuse a client observes.

Weak references: a cache entry holds the object it was made from. Whether
`weak.lock()` succeeds depends on owners outside the factory. So both creation
methods take `live`, the set of objects that are still owned: lock succeeds exactly
when the cached object is in `live`. Predefined constants are owned by the factory
and never consult `live`. As in the source, `CreateConstant` overwrites an expired
entry only, while `CreateVariable` first erases an expired entry for the name and
then records the fresh node.

`Eval` and `Render` are functions, so evaluating or printing the same tree twice
gives the same result by construction.

## Model

| member | source | states |
|---|---|---|
| `Decimal.NatToString` | 8.cpp:26 | the text of a magnitude is a non-empty digit string without a leading zero, "0" for zero |
| `Decimal.IntToString` | 8.cpp:24-27 | the printed text of an integer is canonical: digits without a leading zero ("0" for zero), preceded by '-' exactly for negative values |
| `Decimal.CanonicalIsIntToString` | 8.cpp:24-27 | every canonical numeral is the printed text of the integer it denotes, so an integer has exactly one canonical text |
| `Decimal.NatToStringOfCanonical` | 8.cpp:26 | a digit string without a leading zero is the text of its own value |
| `Decimal.ParseNatToString` | 8.cpp:26 | reading back the digits of a magnitude gives the magnitude |
| `Decimal.IntToStringRoundTrip` | 8.cpp:24-27 | the printed text of every integer is a numeral that reads back as that integer |
| `Decimal.IntToStringInjective` | 8.cpp:24-27 | distinct integers print differently |
| `Expressions.Constant.constructor` | 8.cpp:19 | a Constant holds the value it was built with |
| `Expressions.Variable.constructor` | 8.cpp:35 | a Variable holds the name it was built with |
| `Expressions.EvalConstant` | 8.cpp:20-23 | a constant yields its value under every context and never fails |
| `Expressions.EvalVariable` | 8.cpp:36-41 | a variable succeeds exactly when its name is bound, yielding the binding, and otherwise fails with UnboundVariable of its own name |
| `Expressions.EvalAddition` | 8.cpp:56-59 | a sum succeeds exactly when both operands succeed, and then yields the sum of their values |
| `Expressions.EvalMultiplication` | 8.cpp:79-81 | a product succeeds exactly when both operands succeed, and then yields the product of their values |
| `Expressions.Eval` | 8.cpp:20-81 | `calculate` for all four node kinds; specified by EvalConstant, EvalVariable, EvalAddition, EvalMultiplication, EvalFailsIffUnbound, EvalDependsOnlyOnFreeVars and EvalMonotone |
| `Expressions.Render` | 8.cpp:24-89 | `print` for all four node kinds; specified by RenderConstant and RenderFacts.RenderRoundTrip |
| `Expressions.RenderConstant` | 8.cpp:24-27 | a constant prints as the canonical decimal numeral of its value, which reads back as that value |
| `Expressions.EvalFailsIffUnbound` | 8.cpp:36-81 | evaluation of any tree succeeds if and only if every variable in it is bound; a failure names a variable of the tree that the context lacks |
| `Expressions.EvalDependsOnlyOnFreeVars` | 8.cpp:36-81 | two contexts that agree on the tree's variables give the same result, error included |
| `Expressions.EvalMonotone` | 8.cpp:20-81 | extending a context in which a tree evaluates does not change its value |
| `RenderFacts.ParseRender` | 8.cpp:61-89 | reading the printed form of a well-named tree, followed by text that starts with a delimiter, gives back its shape and exactly that following text |
| `RenderFacts.RenderRoundTrip` | 8.cpp:24-89 | the printed form of a well-named tree reads back as exactly its shape (value leaves, name leaves, '+' and '*' nodes) |
| `RenderFacts.RenderDeterminesShape` | 8.cpp:61-89 | well-named trees that print alike have the same shape |
| `RenderFacts.EvalDependsOnlyOnShape` | 8.cpp:20-81 | evaluation depends on the shape only, not on which leaf objects are shared |
| `RenderFacts.SameRenderingSameValue` | 8.cpp:20-89 | well-named trees that print alike evaluate alike under every context |
| `Factory.ExpressionFactory.constructor` | 8.cpp:104 | a new factory owns a fresh Constant of value v for exactly the keys v in [-5, 256] and caches no dynamic constant and no variable |
| `Factory.ExpressionFactory.InitPredefined` | 8.cpp:98-101 | after the loop, every key in [-5, 256] maps to a fresh Constant of that value; other keys and the two caches are unchanged |
| `Factory.ExpressionFactory.CreateConstant` | 8.cpp:106-116 | in [-5, 256]: the owned instance, no state changes; outside: a live cached instance is returned unchanged, otherwise a fresh Constant of that value is recorded under that key only |
| `Factory.ExpressionFactory.CreateVariable` | 8.cpp:118-135 | a live cached Variable is returned with nothing changed; otherwise a fresh Variable of that name replaces the entry for that name only |
| `Example.WorkedExample` | 8.cpp:138-155 | (2 + x) * 4 built through the factory evaluates to 20 with x bound to 3 and prints as "((2 + x) * 4)" |
| `Example.RepeatedConstant` | 8.cpp:106-116 | two requests for the same value return one instance when the value is predefined or the first is still held, and distinct instances otherwise |
| `Example.RepeatedVariable` | 8.cpp:118-135 | two requests for the same name return one instance exactly when the first is still held |

## Left out

- `5.cpp`, the logging singleton, is not part of this model. It depends on the clock, `sleep` and console output.
- The two `main` functions are I/O drivers. The values printed by the one in `8.cpp` are kept in `Example.WorkedExample`.
- `std::ostream`: `print` is modelled as a function returning the text it would write. The model assumes the stream's default formatting (decimal, no `std::showpos`, no width or fill), which is what `main` uses; other format flags would change how constants are written.
- Reference counting and destruction: liveness of cached nodes is the `live` parameter supplied by the caller. The model does not require that an object which has expired stays expired, which real weak references guarantee.
- Expressions.Eval: does not model C++ `int` overflow in `+` and `*`, which is undefined behaviour. Values are unbounded integers, so the model agrees with the program whenever no intermediate value overflows.
- Expressions.Eval: C++ leaves the order in which the two operands of `+` and `*` are evaluated unspecified. The model evaluates the left operand first, so when both fail it reports the left failure. The lemmas state only facts that hold for either order.
- The text of the exception thrown for an unbound variable: the model's error carries only the missing name.
- RenderFacts.RenderRoundTrip: holds only for trees whose variable names are identifiers, because the source prints names verbatim.
