/**
 * What the text produced by Render determines. A reader of the fully parenthesised
 * form (ParseTerm) recovers the shape of the tree, so the rendering is unambiguous
 * for trees whose variable names are identifiers, and two such trees printed alike
 * evaluate alike.
 */
module RenderFacts {
  import opened Wrappers
  import opened Decimal
  import opened Expressions

  /** A tree with node identity forgotten: only values, names and operators remain. */
  datatype Term =
    | Num(value: int)
    | Name(id: string)
    | Sum(left: Term, right: Term)
    | Product(left: Term, right: Term)

  function Shape(e: Expr): Term {
    match e
    case Const(c) => Num(c.value)
    case Var(v) => Name(v.name)
    case Addition(l, r) => Sum(Shape(l), Shape(r))
    case Multiplication(l, r) => Product(Shape(l), Shape(r))
  }

  predicate IsDelimiter(c: char) {
    c == ' ' || c == '(' || c == ')'
  }

  predicate NoDelimiter(s: string) {
    forall i :: 0 <= i < |s| ==> !IsDelimiter(s[i])
  }

  /** A name that cannot be confused with a number or with the punctuation of the rendering. */
  predicate IsIdentifier(n: string) {
    |n| > 0 && NoDelimiter(n) && n[0] != '-' && !IsDigit(n[0])
  }

  ghost predicate WellNamed(e: Expr) {
    forall n :: n in FreeVars(e) ==> IsIdentifier(n)
  }

  /** Length of the leading run of characters that are not delimiters. */
  function TokenLength(s: string): (k: nat)
    ensures k <= |s|
    decreases |s|
  {
    if s == [] || IsDelimiter(s[0]) then 0 else 1 + TokenLength(s[1..])
  }

  function ParseLeaf(token: string): Option<Term> {
    if token == [] then None
    else if token[0] == '-' || IsDigit(token[0]) then
      if IsNumeral(token) then Some(Num(ParseInt(token))) else None
    else Some(Name(token))
  }

  /** Reads one term from the front of s and returns it with the text after it. */
  function ParseTerm(s: string): (r: Option<(Term, string)>)
    ensures r.Some? ==> |r.value.1| < |s|
    decreases |s|
  {
    if s == [] then None
    else if s[0] == '(' then
      match ParseTerm(s[1..])
      case None => None
      case Some((left, rest)) =>
        if |rest| < 3 || rest[0] != ' ' || rest[2] != ' ' || (rest[1] != '+' && rest[1] != '*') then None
        else
          match ParseTerm(rest[3..])
          case None => None
          case Some((right, rest')) =>
            if rest' == [] || rest'[0] != ')' then None
            else Some((if rest[1] == '+' then Sum(left, right) else Product(left, right), rest'[1..]))
    else
      var k := TokenLength(s);
      match ParseLeaf(s[..k])
      case None => None
      case Some(t) => Some((t, s[k..]))
  }

  /** Reads a whole text as one term. */
  function Parse(s: string): Option<Term> {
    match ParseTerm(s)
    case Some((t, rest)) => if rest == [] then Some(t) else None
    case None => None
  }

  lemma {:induction false} TokenLengthOf(token: string, rest: string)
    requires NoDelimiter(token)
    requires rest == [] || IsDelimiter(rest[0])
    ensures TokenLength(token + rest) == |token|
    decreases |token|
  {
    if token != [] {
      assert (token + rest)[1..] == token[1..] + rest;
      TokenLengthOf(token[1..], rest);
    } else {
      assert token + rest == rest;
    }
  }

  /** Reading the rendering of a leaf gives back its shape and leaves what follows it. */
  lemma ParseRenderLeaf(e: Expr, rest: string)
    requires e.Const? || e.Var?
    requires WellNamed(e)
    requires rest == [] || IsDelimiter(rest[0])
    ensures ParseTerm(Render(e) + rest) == Some((Shape(e), rest))
  {
    var token := Render(e);
    var s := token + rest;
    if e.Const? {
      IntToStringRoundTrip(e.constant.value);
    } else {
      assert e.variable.name in FreeVars(e);
    }
    TokenLengthOf(token, rest);
    assert s[0] == token[0];
    assert s[..|token|] == token && s[|token|..] == rest;
  }

  /** One step of reading a binary node: "(", the left term, the operator, the right
      term, ")". */
  lemma ParseBinary(s: string, left: string, afterLeft: string, right: string, afterRight: string,
                    rest: string, op: char, l: Term, r: Term)
    requires op == '+' || op == '*'
    requires s == ['('] + (left + afterLeft)
    requires afterLeft == [' ', op, ' '] + (right + afterRight)
    requires afterRight == [')'] + rest
    requires ParseTerm(left + afterLeft) == Some((l, afterLeft))
    requires ParseTerm(right + afterRight) == Some((r, afterRight))
    ensures ParseTerm(s) == Some((if op == '+' then Sum(l, r) else Product(l, r), rest))
  {
    assert s[0] == '(' && s[1..] == left + afterLeft;
    assert afterLeft[0] == ' ' && afterLeft[1] == op && afterLeft[2] == ' ';
    assert afterLeft[3..] == right + afterRight;
    assert afterRight[0] == ')' && afterRight[1..] == rest;
  }

  /** Reading the rendering of a well-named tree gives back its shape, followed by
      any text that starts with a delimiter. */
  lemma {:induction false} ParseRender(e: Expr, rest: string)
    requires WellNamed(e)
    requires rest == [] || IsDelimiter(rest[0])
    ensures ParseTerm(Render(e) + rest) == Some((Shape(e), rest))
  {
    if e.Const? || e.Var? {
      ParseRenderLeaf(e, rest);
    } else {
      var op := if e.Addition? then '+' else '*';
      var afterRight := [')'] + rest;
      var afterLeft := [' ', op, ' '] + (Render(e.right) + afterRight);
      RenderBinaryText(e, op, rest);
      ParseRender(e.left, afterLeft);
      ParseRender(e.right, afterRight);
      ParseBinary(Render(e) + rest, Render(e.left), afterLeft, Render(e.right), afterRight, rest, op,
                  Shape(e.left), Shape(e.right));
    }
  }

  /** The printed form of a binary node, regrouped for reading from the left. */
  lemma RenderBinaryText(e: Expr, op: char, rest: string)
    requires e.Addition? || e.Multiplication?
    requires op == if e.Addition? then '+' else '*'
    ensures Render(e) + rest ==
              ['('] + (Render(e.left) + ([' ', op, ' '] + (Render(e.right) + ([')'] + rest))))
  {
  }

  /** The rendering of a well-named tree reads back as exactly its shape. */
  lemma RenderRoundTrip(e: Expr)
    requires WellNamed(e)
    ensures Parse(Render(e)) == Some(Shape(e))
  {
    ParseRender(e, []);
    assert Render(e) + [] == Render(e);
  }

  /** Well-named trees with the same rendering have the same shape. */
  lemma RenderDeterminesShape(e1: Expr, e2: Expr)
    requires WellNamed(e1) && WellNamed(e2)
    requires Render(e1) == Render(e2)
    ensures Shape(e1) == Shape(e2)
  {
    RenderRoundTrip(e1);
    RenderRoundTrip(e2);
  }

  /** Evaluation sees only the shape of a tree, not the identity of its leaf objects. */
  lemma {:induction false} EvalDependsOnlyOnShape(e1: Expr, e2: Expr, context: Context)
    requires Shape(e1) == Shape(e2)
    ensures Eval(e1, context) == Eval(e2, context)
  {
    match e1
    case Const(_) =>
    case Var(_) =>
    case Addition(l, r) =>
      EvalDependsOnlyOnShape(l, e2.left, context);
      EvalDependsOnlyOnShape(r, e2.right, context);
    case Multiplication(l, r) =>
      EvalDependsOnlyOnShape(l, e2.left, context);
      EvalDependsOnlyOnShape(r, e2.right, context);
  }

  /** Well-named trees printed alike evaluate alike under every context. */
  lemma SameRenderingSameValue(e1: Expr, e2: Expr, context: Context)
    requires WellNamed(e1) && WellNamed(e2)
    requires Render(e1) == Render(e2)
    ensures Eval(e1, context) == Eval(e2, context)
  {
    RenderDeterminesShape(e1, e2);
    EvalDependsOnlyOnShape(e1, e2, context);
  }
}
