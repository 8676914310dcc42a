/**
 * Day 18, Operation Order: the homework's arithmetic over single digits,
 * '+', '*' and parentheses.  evaluate applies the operators strictly left
 * to right; advanced_evaluate gives '+' precedence over '*'.  Both read
 * the characters through one shared cursor (spaces removed first), and a
 * '(' evaluates a sub-expression by a recursive call that returns at its
 * matching ')'.  The source's panics are the Err results here.
 */
module OperationOrder {
  import opened Text

  datatype Op = Plus | Times

  function Apply(op: Op, a: nat, b: nat): nat
  {
    match op
    case Plus => a + b
    case Times => a * b
  }

  const EmptyParenthesis := "Expecting parenthesis to not be empty"
  const NotADigit := "Expecting non-operators to be digits"
  const UnexpectedSituation := "Unexpected situation"
  const EmptyExpression := "Expected a non-empty expression"
  const NoNumberBeforeAddition := "Expected a number before the addition"

  /** The characters evaluate reads: the expression without its spaces. */
  function NoSpaces(expression: string): string
  {
    Filter(expression, c => c != ' ')
  }

  // Left-to-right evaluation.

  /** The bookkeeping after each character of sub_evaluate: a total and an
      operator are waiting for the next number; a number with no total
      starts one, a number after a total and an operator combines them,
      an operator after a total waits, and anything else is an error. */
  function Combine(total: Option<nat>, op: Option<Op>, number: Option<nat>): Result<(Option<nat>, Option<Op>)>
  {
    if total.None? && op.None? && number.Some? then Ok((number, None))
    else if total.Some? && op.Some? && number.Some? then Ok((Some(Apply(op.value, total.value, number.value)), None))
    else if total.Some? && op.Some? && number.None? then Ok((total, op))
    else Err(UnexpectedSituation)
  }

  /** What sub_evaluate returns from the characters cs in the state
      (total, op), with the characters it leaves unread; a panic leaves
      nothing to read. */
  function Eval(cs: string, total: Option<nat>, op: Option<Op>): (r: (Result<nat>, string))
    ensures |r.1| < |cs| || (cs == [] && r.1 == [])
    decreases |cs|, 1
  {
    if cs == [] then (if total.None? then Err(EmptyExpression) else Ok(total.value), [])
    else
      var c, rest := cs[0], cs[1..];
      if c == '(' then
        var (inner, after) := Eval(rest, None, None);
        if inner.Err? then (inner, []) else EvalNext(after, Combine(total, op, Some(inner.value)))
      else if c == ')' then
        if total.None? then (Err(EmptyParenthesis), []) else (Ok(total.value), rest)
      else if c == '*' then EvalNext(rest, Combine(total, Some(Times), None))
      else if c == '+' then EvalNext(rest, Combine(total, Some(Plus), None))
      else if IsDigit(c) then EvalNext(rest, Combine(total, op, Some(DigitValue(c))))
      else (Err(NotADigit), [])
  }

  function EvalNext(rest: string, state: Result<(Option<nat>, Option<Op>)>): (r: (Result<nat>, string))
    ensures |r.1| <= |rest|
    decreases |rest|, 2
  {
    match state
    case Err(e) => (Err(e), [])
    case Ok((t, o)) => Eval(rest, t, o)
  }

  /** evaluate: the expression without spaces, evaluated from the start. */
  function Evaluate(expression: string): Result<nat>
  {
    Eval(NoSpaces(expression), None, None).0
  }

  /** sub_evaluate: reads characters from pos on, evaluating each
      parenthesised group by a recursive call that continues from where
      the group ended; returns at a ')' or at the end. */
  method SubEvaluate(chars: string, pos: nat) returns (r: Result<nat>, next: nat)
    requires pos <= |chars|
    ensures pos <= next <= |chars|
    ensures (r, chars[next..]) == Eval(chars[pos..], None, None)
    decreases |chars| - pos
  {
    assert chars[|chars|..] == [];
    var total: Option<nat> := None;
    var op: Option<Op> := None;
    var i := pos;
    while i < |chars|
      invariant pos <= i <= |chars|
      invariant Eval(chars[i..], total, op) == Eval(chars[pos..], None, None)
      decreases |chars| - i
    {
      var c := chars[i];
      assert chars[i..][0] == c && chars[i..][1..] == chars[i + 1..];
      i := i + 1;
      var number: Option<nat> := None;
      if c == '(' {
        var inner, after := SubEvaluate(chars, i);
        if inner.Err? {
          return inner, |chars|;
        }
        number := Some(inner.value);
        i := after;
      } else if c == ')' {
        if total.None? {
          return Err(EmptyParenthesis), |chars|;
        }
        return Ok(total.value), i;
      } else if c == '*' {
        op := Some(Times);
      } else if c == '+' {
        op := Some(Plus);
      } else if IsDigit(c) {
        number := Some(DigitValue(c));
      } else {
        return Err(NotADigit), |chars|;
      }
      var state := Combine(total, op, number);
      if state.Err? {
        return Err(state.error), |chars|;
      }
      total, op := state.value.0, state.value.1;
    }
    assert chars[|chars|..] == [];
    if total.None? {
      return Err(EmptyExpression), |chars|;
    }
    return Ok(total.value), |chars|;
  }

  // Evaluation with '+' before '*'.

  function Product(xs: seq<nat>): nat
  {
    if xs == [] then 1 else Product(xs[..|xs| - 1]) * xs[|xs| - 1]
  }

  /** The number stack of advanced_sub_evaluate after a number: pushed,
      or added to the top when a '+' is pending (an empty stack is then
      an error). */
  function Push(stack: seq<nat>, isAddition: bool, n: nat): Result<seq<nat>>
  {
    if !isAddition then Ok(stack + [n])
    else if stack == [] then Err(NoNumberBeforeAddition)
    else Ok(stack[..|stack| - 1] + [stack[|stack| - 1] + n])
  }

  /** What advanced_sub_evaluate returns from cs with the given stack and
      pending '+', with the characters it leaves unread. */
  function AdvEval(cs: string, stack: seq<nat>, isAddition: bool): (r: (Result<nat>, string))
    ensures |r.1| < |cs| || (cs == [] && r.1 == [])
    decreases |cs|, 1
  {
    if cs == [] then (Ok(Product(stack)), [])
    else
      var c, rest := cs[0], cs[1..];
      if c == '(' then
        var (inner, after) := AdvEval(rest, [], false);
        if inner.Err? then (inner, []) else AdvEvalOn(after, stack, isAddition, inner.value)
      else if c == ')' then (Ok(Product(stack)), rest)
      else if c == '*' then AdvEval(rest, stack, isAddition)
      else if c == '+' then AdvEval(rest, stack, true)
      else if IsDigit(c) then AdvEvalOn(rest, stack, isAddition, DigitValue(c))
      else (Err(NotADigit), [])
  }

  function AdvEvalOn(rest: string, stack: seq<nat>, isAddition: bool, n: nat): (r: (Result<nat>, string))
    ensures |r.1| <= |rest|
    decreases |rest|, 2
  {
    match Push(stack, isAddition, n)
    case Err(e) => (Err(e), [])
    case Ok(s) => AdvEval(rest, s, false)
  }

  /** advanced_evaluate: the expression without spaces, evaluated from the
      start. */
  function AdvancedEvaluate(expression: string): Result<nat>
  {
    AdvEval(NoSpaces(expression), [], false).0
  }

  /** advanced_sub_evaluate: a number stack whose top absorbs a number
      after '+', and whose product is the result at a ')' or at the end. */
  method AdvancedSubEvaluate(chars: string, pos: nat) returns (r: Result<nat>, next: nat)
    requires pos <= |chars|
    ensures pos <= next <= |chars|
    ensures (r, chars[next..]) == AdvEval(chars[pos..], [], false)
    decreases |chars| - pos
  {
    assert chars[|chars|..] == [];
    var numberStack: seq<nat> := [];
    var isAddition := false;
    var i := pos;
    while i < |chars|
      invariant pos <= i <= |chars|
      invariant AdvEval(chars[i..], numberStack, isAddition) == AdvEval(chars[pos..], [], false)
      decreases |chars| - i
    {
      var c := chars[i];
      assert chars[i..][0] == c && chars[i..][1..] == chars[i + 1..];
      i := i + 1;
      var number: Option<nat> := None;
      if c == '(' {
        var inner, after := AdvancedSubEvaluate(chars, i);
        if inner.Err? {
          return inner, |chars|;
        }
        number := Some(inner.value);
        i := after;
      } else if c == ')' {
        return Ok(Product(numberStack)), i;
      } else if c == '*' {
      } else if c == '+' {
        isAddition := true;
      } else if IsDigit(c) {
        number := Some(DigitValue(c));
      } else {
        return Err(NotADigit), |chars|;
      }
      if number.Some? {
        if isAddition {
          if numberStack == [] {
            return Err(NoNumberBeforeAddition), |chars|;
          }
          var last := numberStack[|numberStack| - 1];
          numberStack := numberStack[..|numberStack| - 1];
          numberStack := numberStack + [last + number.value];
          isAddition := false;
        } else {
          numberStack := numberStack + [number.value];
        }
      }
    }
    assert chars[|chars|..] == [];
    return Ok(Product(numberStack)), |chars|;
  }

  /** evaluate as the source runs it: spaces dropped, then sub_evaluate
      from the first character. */
  method EvaluateLine(expression: string) returns (r: Result<nat>)
    ensures r == Evaluate(expression)
  {
    var next;
    r, next := SubEvaluate(NoSpaces(expression), 0);
  }

  /** advanced_evaluate as the source runs it. */
  method AdvancedEvaluateLine(expression: string) returns (r: Result<nat>)
    ensures r == AdvancedEvaluate(expression)
  {
    var next;
    r, next := AdvancedSubEvaluate(NoSpaces(expression), 0);
  }

  // The homework's grammar: an expression is a term followed by any
  // number of operator-term pairs, a term a digit or a parenthesised
  // expression.  Chain is left-nested, in reading order.

  datatype Term = Num(digit: nat) | Group(inner: Expr)

  datatype Expr = Single(term: Term) | Chain(left: Expr, op: Op, right: Term)

  predicate TermOk(t: Term)
  {
    match t
    case Num(d) => d < 10
    case Group(e) => ExprOk(e)
  }

  predicate ExprOk(e: Expr)
  {
    match e
    case Single(t) => TermOk(t)
    case Chain(l, _, r) => ExprOk(l) && TermOk(r)
  }

  function OpChar(op: Op): char
  {
    match op
    case Plus => '+'
    case Times => '*'
  }

  /** The expression as the homework writes it: operators between single
      spaces, parentheses tight around their contents. */
  function Show(e: Expr): string
    requires ExprOk(e)
  {
    match e
    case Single(t) => ShowTerm(t)
    case Chain(l, op, r) => Show(l) + " " + [OpChar(op)] + " " + ShowTerm(r)
  }

  function ShowTerm(t: Term): string
    requires TermOk(t)
  {
    match t
    case Num(d) => [DigitChar(d)]
    case Group(e) => "(" + Show(e) + ")"
  }

  /** The expression without spaces. */
  function Compact(e: Expr): string
    requires ExprOk(e)
  {
    match e
    case Single(t) => CompactTerm(t)
    case Chain(l, op, r) => Compact(l) + [OpChar(op)] + CompactTerm(r)
  }

  function CompactTerm(t: Term): string
    requires TermOk(t)
  {
    match t
    case Num(d) => [DigitChar(d)]
    case Group(e) => "(" + Compact(e) + ")"
  }

  /** Equal precedence: each operator applies to everything on its left. */
  function LeftValue(e: Expr): nat
  {
    match e
    case Single(t) => TermValue(t)
    case Chain(l, op, r) => Apply(op, LeftValue(l), TermValue(r))
  }

  function TermValue(t: Term): nat
  {
    match t
    case Num(d) => d
    case Group(e) => LeftValue(e)
  }

  /** '+' before '*': the sums of the runs between the '*'s, left to
      right. */
  function Sums(e: Expr): (r: seq<nat>)
    ensures |r| >= 1
    decreases e, 0
  {
    match e
    case Single(t) => [AdvTermValue(t)]
    case Chain(l, Plus, r) =>
      var s := Sums(l);
      s[..|s| - 1] + [s[|s| - 1] + AdvTermValue(r)]
    case Chain(l, Times, r) => Sums(l) + [AdvTermValue(r)]
  }

  /** The value with '+' binding tighter: the product of the sums. */
  function AdvValue(e: Expr): nat
    decreases e, 1
  {
    Product(Sums(e))
  }

  function AdvTermValue(t: Term): nat
    decreases t, 2
  {
    match t
    case Num(d) => d
    case Group(e) => AdvValue(e)
  }

  /** Reading a whole expression leaves sub_evaluate with its
      left-to-right value as the total and no operator. */
  lemma {:induction false} EvalExpr(e: Expr, rest: string)
    requires ExprOk(e)
    ensures Eval(Compact(e) + rest, None, None) == Eval(rest, Some(LeftValue(e)), None)
    decreases e, 1
  {
    match e
    case Single(t) =>
      EvalTerm(t, rest, None, None);
    case Chain(l, op, r) =>
      var tail := [OpChar(op)] + CompactTerm(r) + rest;
      assert Compact(e) + rest == Compact(l) + tail;
      EvalExpr(l, tail);
      assert tail[0] == OpChar(op) && tail[1..] == CompactTerm(r) + rest;
      EvalTerm(r, rest, Some(LeftValue(l)), Some(op));
  }

  /** Reading a term hands its value to sub_evaluate's bookkeeping. */
  lemma {:induction false} EvalTerm(t: Term, rest: string, total: Option<nat>, op: Option<Op>)
    requires TermOk(t)
    ensures Eval(CompactTerm(t) + rest, total, op) == EvalNext(rest, Combine(total, op, Some(TermValue(t))))
    decreases t, 0
  {
    match t
    case Num(d) =>
      assert ([DigitChar(d)] + rest)[1..] == rest;
    case Group(inner) =>
      var cs := CompactTerm(t) + rest;
      assert cs[0] == '(' && cs[1..] == Compact(inner) + (")" + rest);
      EvalExpr(inner, ")" + rest);
      assert (")" + rest)[1..] == rest;
  }

  /** The same for advanced_sub_evaluate: a whole expression leaves its
      sums on the stack. */
  lemma {:induction false} AdvEvalExpr(e: Expr, rest: string)
    requires ExprOk(e)
    ensures AdvEval(Compact(e) + rest, [], false) == AdvEval(rest, Sums(e), false)
    decreases e, 1
  {
    match e
    case Single(t) =>
      AdvEvalTerm(t, rest, [], false);
      assert [] + [AdvTermValue(t)] == Sums(e);
    case Chain(l, op, r) =>
      var tail := [OpChar(op)] + CompactTerm(r) + rest;
      assert Compact(e) + rest == Compact(l) + tail;
      AdvEvalExpr(l, tail);
      AdvEvalOperator(l, op, r, rest);
  }

  lemma AdvEvalOperator(l: Expr, op: Op, r: Term, rest: string)
    requires ExprOk(l) && TermOk(r)
    ensures AdvEval([OpChar(op)] + CompactTerm(r) + rest, Sums(l), false)
      == AdvEval(rest, Sums(Chain(l, op, r)), false)
    decreases Chain(l, op, r), 0
  {
    AdvEvalOpChar(op, CompactTerm(r) + rest, Sums(l));
    assert [OpChar(op)] + CompactTerm(r) + rest == [OpChar(op)] + (CompactTerm(r) + rest);
    AdvEvalTerm(r, rest, Sums(l), op == Plus);
    PushSums(l, op, r);
  }

  /** An operator character only records whether a '+' is pending. */
  lemma AdvEvalOpChar(op: Op, rest: string, stack: seq<nat>)
    ensures AdvEval([OpChar(op)] + rest, stack, false) == AdvEval(rest, stack, op == Plus)
  {
    var cs := [OpChar(op)] + rest;
    assert cs[0] == OpChar(op) && cs[1..] == rest;
  }

  /** Pushing the next term's value extends the run sums of the chain. */
  lemma PushSums(l: Expr, op: Op, r: Term)
    ensures Push(Sums(l), op == Plus, AdvTermValue(r)) == Ok(Sums(Chain(l, op, r)))
  {
  }

  lemma {:induction false} AdvEvalTerm(t: Term, rest: string, stack: seq<nat>, isAddition: bool)
    requires TermOk(t)
    ensures AdvEval(CompactTerm(t) + rest, stack, isAddition) == AdvEvalOn(rest, stack, isAddition, AdvTermValue(t))
    decreases t, 0
  {
    match t
    case Num(d) =>
      assert ([DigitChar(d)] + rest)[1..] == rest;
    case Group(inner) =>
      var cs := CompactTerm(t) + rest;
      assert cs[0] == '(' && cs[1..] == Compact(inner) + (")" + rest);
      AdvEvalExpr(inner, ")" + rest);
      assert (")" + rest)[1..] == rest;
  }

  /** Removing the spaces from the homework notation leaves the compact
      form. */
  lemma {:induction false} NoSpacesShow(e: Expr)
    requires ExprOk(e)
    ensures NoSpaces(Show(e)) == Compact(e)
    decreases e, 1
  {
    match e
    case Single(t) => NoSpacesShowTerm(t);
    case Chain(l, op, r) =>
      NoSpacesShow(l);
      NoSpacesShowTerm(r);
      var keep := (c: char) => c != ' ';
      FilterAppend(Show(l) + " " + [OpChar(op)] + " ", ShowTerm(r), keep);
      FilterAppend(Show(l) + " " + [OpChar(op)], " ", keep);
      FilterAppend(Show(l) + " ", [OpChar(op)], keep);
      FilterAppend(Show(l), " ", keep);
      assert Filter(" ", keep) == [];
      assert Filter([OpChar(op)], keep) == [OpChar(op)];
  }

  lemma {:induction false} NoSpacesShowTerm(t: Term)
    requires TermOk(t)
    ensures NoSpaces(ShowTerm(t)) == CompactTerm(t)
    decreases t, 0
  {
    var keep := (c: char) => c != ' ';
    match t
    case Num(d) =>
      assert Filter([DigitChar(d)], keep) == [DigitChar(d)];
    case Group(e) =>
      NoSpacesShow(e);
      FilterAppend("(" + Show(e), ")", keep);
      FilterAppend("(", Show(e), keep);
      assert Filter("(", keep) == "(" && Filter(")", keep) == ")";
  }

  /** evaluate gives every well-formed expression its left-to-right
      value. */
  lemma EvaluateShow(e: Expr)
    requires ExprOk(e)
    ensures Evaluate(Show(e)) == Ok(LeftValue(e))
  {
    NoSpacesShow(e);
    EvalExpr(e, "");
    assert Compact(e) + "" == Compact(e);
  }

  /** advanced_evaluate gives every well-formed expression its value with
      '+' before '*'. */
  lemma AdvancedEvaluateShow(e: Expr)
    requires ExprOk(e)
    ensures AdvancedEvaluate(Show(e)) == Ok(AdvValue(e))
  {
    NoSpacesShow(e);
    AdvEvalExpr(e, "");
    assert Compact(e) + "" == Compact(e);
  }

  // The homework examples.

  function Sum2(l: Expr, r: Term): Expr { Chain(l, Plus, r) }
  function Mul2(l: Expr, r: Term): Expr { Chain(l, Times, r) }
  function D(d: nat): Expr { Single(Num(d)) }

  /** 1 + 2 * 3 + 4 * 5 + 6 */
  function Example1(): Expr
  {
    Sum2(Mul2(Sum2(Mul2(Sum2(D(1), Num(2)), Num(3)), Num(4)), Num(5)), Num(6))
  }

  /** 1 + (2 * 3) + (4 * (5 + 6)) */
  function Example2(): Expr
  {
    Sum2(Sum2(D(1), Group(Mul2(D(2), Num(3)))), Group(Mul2(D(4), Group(Sum2(D(5), Num(6))))))
  }

  /** 2 * 3 + (4 * 5) */
  function Example3(): Expr
  {
    Sum2(Mul2(D(2), Num(3)), Group(Mul2(D(4), Num(5))))
  }

  /** 5 + (8 * 3 + 9 + 3 * 4 * 3) */
  function Example4(): Expr
  {
    Sum2(D(5), Group(Mul2(Mul2(Sum2(Sum2(Mul2(D(8), Num(3)), Num(9)), Num(3)), Num(4)), Num(3))))
  }

  /** 8 + 6 * 4, inside example 5 */
  function Inner5(): Expr { Mul2(Sum2(D(8), Num(6)), Num(4)) }

  /** 7 * 3 * 3 + 9 * 3 + (8 + 6 * 4), inside example 5 */
  function Middle5(): Expr
  {
    Sum2(Mul2(Sum2(Mul2(Mul2(D(7), Num(3)), Num(3)), Num(9)), Num(3)), Group(Inner5()))
  }

  /** 5 * 9 * (7 * 3 * 3 + 9 * 3 + (8 + 6 * 4)) */
  function Example5(): Expr { Mul2(Mul2(D(5), Num(9)), Group(Middle5())) }

  /** 2 + 4 * 9, inside example 6 */
  function First6(): Expr { Mul2(Sum2(D(2), Num(4)), Num(9)) }

  /** 6 + 9 * 8 + 6, inside example 6 */
  function Second6(): Expr { Sum2(Mul2(Sum2(D(6), Num(9)), Num(8)), Num(6)) }

  /** (2 + 4 * 9) * (6 + 9 * 8 + 6) + 6, inside example 6 */
  function Outer6(): Expr { Sum2(Mul2(Single(Group(First6())), Group(Second6())), Num(6)) }

  /** ((2 + 4 * 9) * (6 + 9 * 8 + 6) + 6) + 2 + 4 * 2 */
  function Example6(): Expr { Mul2(Sum2(Sum2(Single(Group(Outer6())), Num(2)), Num(4)), Num(2)) }

  lemma ShowExample1(e: Expr)
    requires e == Example1()
    ensures ExprOk(e) && Show(e) == "1 + 2 * 3 + 4 * 5 + 6"
  {
  }

  lemma ShowExample2(e: Expr)
    requires e == Example2()
    ensures ExprOk(e) && Show(e) == "1 + (2 * 3) + (4 * (5 + 6))"
  {
    var a := Group(Mul2(D(2), Num(3)));
    var c := Group(Mul2(D(4), Group(Sum2(D(5), Num(6)))));
    ShowFirstGroup2(a);
    ShowSecondGroup2(c);
    ShowStep(D(1), Plus, a, "1", "(2 * 3)");
    ShowStep(Sum2(D(1), a), Plus, c, "1" + " " + [OpChar(Plus)] + " " + "(2 * 3)", "(4 * (5 + 6))");
    Text2("1" + " " + [OpChar(Plus)] + " " + "(2 * 3)");
  }

  lemma ShowFirstGroup2(a: Term)
    requires a == Group(Mul2(D(2), Num(3)))
    ensures TermOk(a) && ShowTerm(a) == "(2 * 3)"
  {
    ShowStep(D(2), Times, Num(3), "2", "3");
  }

  lemma ShowSecondGroup2(c: Term)
    requires c == Group(Mul2(D(4), Group(Sum2(D(5), Num(6)))))
    ensures TermOk(c) && ShowTerm(c) == "(4 * (5 + 6))"
  {
    var b := Group(Sum2(D(5), Num(6)));
    assert ShowTerm(b) == "(5 + 6)";
    ShowStep(D(4), Times, b, "4", "(5 + 6)");
  }

  lemma Text2(s: string)
    requires s == "1" + " " + [OpChar(Plus)] + " " + "(2 * 3)"
    ensures s + " " + [OpChar(Plus)] + " " + "(4 * (5 + 6))" == "1 + (2 * 3) + (4 * (5 + 6))"
  {
    assert s == "1 + (2 * 3)";
  }

  /** A homework line that shows a well-formed expression evaluates to
      its values. */
  lemma EvaluateByShow(e: Expr, s: string, v: nat, w: nat)
    requires ExprOk(e) && Show(e) == s && LeftValue(e) == v && AdvValue(e) == w
    ensures Evaluate(s) == Ok(v) && AdvancedEvaluate(s) == Ok(w)
  {
    EvaluateShow(e);
    AdvancedEvaluateShow(e);
  }

  // The values of the examples, one node at a time: each node is a
  // parameter equal to an operator applied to the previous one, and the
  // run sums are written as ChainStep returns them.

  lemma ValuesExample1(e: Expr)
    requires e == Example1()
    ensures LeftValue(e) == 71 && AdvValue(e) == 231
  {
    var a := Chain(Single(Num(1)), Plus, Num(2));
    var b := Chain(a, Times, Num(3));
    var c := Chain(b, Plus, Num(4));
    var d := Chain(c, Times, Num(5));
    ValuesChain1(a, b, c, d, e);
  }

  /** 1 + 2 * 3 + 4 * 5 + 6 */
  lemma ValuesChain1(a: Expr, b: Expr, c: Expr, d: Expr, e: Expr)
    requires a == Chain(Single(Num(1)), Plus, Num(2)) && b == Chain(a, Times, Num(3)) && c == Chain(b, Plus, Num(4))
    requires d == Chain(c, Times, Num(5)) && e == Chain(d, Plus, Num(6))
    ensures LeftValue(e) == 71 && AdvValue(e) == 231
  {
    ChainStep(Single(Num(1)), Plus, Num(2), 1, [], 1, 2, 2);
    ChainStep(a, Times, Num(3), 3, [], 3, 3, 3);
    ChainStep(b, Plus, Num(4), 9, [] + [3], 3, 4, 4);
    ChainStep(c, Times, Num(5), 13, [] + [3], 7, 5, 5);
    ChainStep(d, Plus, Num(6), 65, [] + [3] + [7], 5, 6, 6);
    ProductStep([], 3, 1);
    ProductStep([] + [3], 7, 3);
    ProductStep([] + [3] + [7], 11, 21);
  }

  lemma ValuesExample2(e: Expr)
    requires e == Example2()
    ensures LeftValue(e) == 51 && AdvValue(e) == 51
  {
    var g1 := Chain(Single(Num(2)), Times, Num(3));
    var g2 := Chain(Single(Num(5)), Plus, Num(6));
    var g3 := Chain(Single(Num(4)), Times, Group(g2));
    ValuesChain2(g1, g2, g3, Chain(Single(Num(1)), Plus, Group(g1)), e);
  }

  /** 1 + (2 * 3) + (4 * (5 + 6)) */
  lemma ValuesChain2(g1: Expr, g2: Expr, g3: Expr, a: Expr, e: Expr)
    requires g1 == Chain(Single(Num(2)), Times, Num(3)) && g2 == Chain(Single(Num(5)), Plus, Num(6)) && g3 == Chain(Single(Num(4)), Times, Group(g2))
    requires a == Chain(Single(Num(1)), Plus, Group(g1)) && e == Chain(a, Plus, Group(g3))
    ensures LeftValue(e) == 51 && AdvValue(e) == 51
  {
    ValuesTimes2(g1);
    ValuesSum2(g2);
    ValuesTimesGroup2(g2, g3);
    ValuesAround2(g1, g3, a, e);
  }

  /** 2 * 3 */
  lemma ValuesTimes2(g1: Expr)
    requires g1 == Chain(Single(Num(2)), Times, Num(3))
    ensures LeftValue(g1) == 6 && AdvValue(g1) == 6
  {
    ChainStep(Single(Num(2)), Times, Num(3), 2, [], 2, 3, 3);
    ProductStep([], 2, 1);
    ProductStep([] + [2], 3, 2);
  }

  /** 5 + 6 */
  lemma ValuesSum2(g2: Expr)
    requires g2 == Chain(Single(Num(5)), Plus, Num(6))
    ensures LeftValue(g2) == 11 && AdvValue(g2) == 11
  {
    ChainStep(Single(Num(5)), Plus, Num(6), 5, [], 5, 6, 6);
    ProductStep([], 11, 1);
  }

  /** 4 * (g2), from the values of the group. */
  lemma ValuesTimesGroup2(g2: Expr, g3: Expr)
    requires LeftValue(g2) == 11 && AdvValue(g2) == 11 && g3 == Chain(Single(Num(4)), Times, Group(g2))
    ensures LeftValue(g3) == 44 && AdvValue(g3) == 44
  {
    GroupStep(Single(Num(4)), Times, g2, 4, [], 4, 11, 11);
    ProductStep([], 4, 1);
    ProductStep([] + [4], 11, 4);
  }

  /** 1 + (g1) + (g3), from the values of the two groups. */
  lemma ValuesAround2(g1: Expr, g3: Expr, a: Expr, e: Expr)
    requires LeftValue(g1) == 6 && AdvValue(g1) == 6
    requires LeftValue(g3) == 44 && AdvValue(g3) == 44
    requires a == Chain(Single(Num(1)), Plus, Group(g1)) && e == Chain(a, Plus, Group(g3))
    ensures LeftValue(e) == 51 && AdvValue(e) == 51
  {
    ValuesFirstGroup2(g1, a);
    ValuesSecondGroup2(g3, a, e);
  }

  lemma ValuesFirstGroup2(g1: Expr, a: Expr)
    requires LeftValue(g1) == 6 && AdvValue(g1) == 6
    requires a == Chain(Single(Num(1)), Plus, Group(g1))
    ensures LeftValue(a) == 7 && Sums(a) == [] + [7]
  {
    GroupStep(Single(Num(1)), Plus, g1, 1, [], 1, 6, 6);
  }

  lemma ValuesSecondGroup2(g3: Expr, a: Expr, e: Expr)
    requires LeftValue(a) == 7 && Sums(a) == [] + [7]
    requires LeftValue(g3) == 44 && AdvValue(g3) == 44
    requires e == Chain(a, Plus, Group(g3))
    ensures LeftValue(e) == 51 && AdvValue(e) == 51
  {
    GroupStep(a, Plus, g3, 7, [], 7, 44, 44);
    ProductStep([], 51, 1);
  }

  lemma ValuesExample3(e: Expr)
    requires e == Example3()
    ensures LeftValue(e) == 26 && AdvValue(e) == 46
  {
    var g := Chain(Single(Num(4)), Times, Num(5));
    ValuesTimes3(g);
    ValuesAround3(g, Chain(Single(Num(2)), Times, Num(3)), e);
  }

  /** 4 * 5 */
  lemma ValuesTimes3(g: Expr)
    requires g == Chain(Single(Num(4)), Times, Num(5))
    ensures LeftValue(g) == 20 && AdvValue(g) == 20
  {
    ChainStep(Single(Num(4)), Times, Num(5), 4, [], 4, 5, 5);
    ProductStep([], 4, 1);
    ProductStep([] + [4], 5, 4);
  }

  /** 2 * 3 + (g), from the values of the group. */
  lemma ValuesAround3(g: Expr, a: Expr, e: Expr)
    requires LeftValue(g) == 20 && AdvValue(g) == 20
    requires a == Chain(Single(Num(2)), Times, Num(3)) && e == Chain(a, Plus, Group(g))
    ensures LeftValue(e) == 26 && AdvValue(e) == 46
  {
    ChainStep(Single(Num(2)), Times, Num(3), 2, [], 2, 3, 3);
    GroupStep(a, Plus, g, 6, [] + [2], 3, 20, 20);
    ProductStep([], 2, 1);
    ProductStep([] + [2], 23, 2);
  }

  lemma ValuesExample4(e: Expr)
    requires e == Example4()
    ensures LeftValue(e) == 437 && AdvValue(e) == 1445
  {
    var a := Chain(Single(Num(8)), Times, Num(3));
    var b := Chain(a, Plus, Num(9));
    var c := Chain(b, Plus, Num(3));
    var d := Chain(c, Times, Num(4));
    var inner := Chain(d, Times, Num(3));
    ValuesInner4(a, b, c, d, inner);
    ValuesAround4(inner, e);
  }

  /** 8 * 3 + 9 + 3 * 4 * 3 */
  lemma ValuesInner4(a: Expr, b: Expr, c: Expr, d: Expr, inner: Expr)
    requires a == Chain(Single(Num(8)), Times, Num(3)) && b == Chain(a, Plus, Num(9)) && c == Chain(b, Plus, Num(3))
    requires d == Chain(c, Times, Num(4)) && inner == Chain(d, Times, Num(3))
    ensures LeftValue(inner) == 432 && AdvValue(inner) == 1440
  {
    ChainStep(Single(Num(8)), Times, Num(3), 8, [], 8, 3, 3);
    ChainStep(a, Plus, Num(9), 24, [] + [8], 3, 9, 9);
    ChainStep(b, Plus, Num(3), 33, [] + [8], 12, 3, 3);
    ChainStep(c, Times, Num(4), 36, [] + [8], 15, 4, 4);
    ChainStep(d, Times, Num(3), 144, [] + [8] + [15], 4, 3, 3);
    ProductStep([], 8, 1);
    ProductStep([] + [8], 15, 8);
    ProductStep([] + [8] + [15], 4, 120);
    ProductStep([] + [8] + [15] + [4], 3, 480);
  }

  /** 5 + (inner), from the values of the group. */
  lemma ValuesAround4(inner: Expr, e: Expr)
    requires LeftValue(inner) == 432 && AdvValue(inner) == 1440
    requires e == Chain(Single(Num(5)), Plus, Group(inner))
    ensures LeftValue(e) == 437 && AdvValue(e) == 1445
  {
    GroupStep(Single(Num(5)), Plus, inner, 5, [], 5, 432, 1440);
    ProductStep([], 1445, 1);
  }

  lemma ValuesExample5(e: Expr)
    requires e == Example5()
    ensures LeftValue(e) == 12240 && AdvValue(e) == 669060
  {
    ValuesMiddle5(Middle5());
    ValuesAroundMiddle5(Middle5(), Chain(Single(Num(5)), Times, Num(9)), e);
  }

  lemma ValuesMiddle5(m: Expr)
    requires m == Middle5()
    ensures LeftValue(m) == 272 && AdvValue(m) == 14868
  {
    var h := Chain(Single(Num(8)), Plus, Num(6));
    var g := Chain(h, Times, Num(4));
    ValuesInner5(h, g);
    var a := Chain(Single(Num(7)), Times, Num(3));
    var b := Chain(a, Times, Num(3));
    var c := Chain(b, Plus, Num(9));
    var d := Chain(c, Times, Num(3));
    ValuesAround5(g, a, b, c, d, m);
  }

  /** 8 + 6 * 4 */
  lemma ValuesInner5(h: Expr, g: Expr)
    requires h == Chain(Single(Num(8)), Plus, Num(6)) && g == Chain(h, Times, Num(4))
    ensures LeftValue(g) == 56 && AdvValue(g) == 56
  {
    ChainStep(Single(Num(8)), Plus, Num(6), 8, [], 8, 6, 6);
    ChainStep(h, Times, Num(4), 14, [], 14, 4, 4);
    ProductStep([], 14, 1);
    ProductStep([] + [14], 4, 14);
  }

  /** 7 * 3 * 3 + 9 * 3 + (g), from the values of the group. */
  lemma ValuesAround5(g: Expr, a: Expr, b: Expr, c: Expr, d: Expr, m: Expr)
    requires LeftValue(g) == 56 && AdvValue(g) == 56
    requires a == Chain(Single(Num(7)), Times, Num(3)) && b == Chain(a, Times, Num(3)) && c == Chain(b, Plus, Num(9))
    requires d == Chain(c, Times, Num(3)) && m == Chain(d, Plus, Group(g))
    ensures LeftValue(m) == 272 && AdvValue(m) == 14868
  {
    ChainStep(Single(Num(7)), Times, Num(3), 7, [], 7, 3, 3);
    ChainStep(a, Times, Num(3), 21, [] + [7], 3, 3, 3);
    ChainStep(b, Plus, Num(9), 63, [] + [7] + [3], 3, 9, 9);
    ChainStep(c, Times, Num(3), 72, [] + [7] + [3], 12, 3, 3);
    GroupStep(d, Plus, g, 216, [] + [7] + [3] + [12], 3, 56, 56);
    ProductStep([], 7, 1);
    ProductStep([] + [7], 3, 7);
    ProductStep([] + [7] + [3], 12, 21);
    ProductStep([] + [7] + [3] + [12], 59, 252);
  }

  /** 5 * 9 * (m), from the values of the group. */
  lemma ValuesAroundMiddle5(m: Expr, f: Expr, e: Expr)
    requires LeftValue(m) == 272 && AdvValue(m) == 14868
    requires f == Chain(Single(Num(5)), Times, Num(9)) && e == Chain(f, Times, Group(m))
    ensures LeftValue(e) == 12240 && AdvValue(e) == 669060
  {
    ChainStep(Single(Num(5)), Times, Num(9), 5, [], 5, 9, 9);
    GroupStep(f, Times, m, 45, [] + [5], 9, 272, 14868);
    ProductStep([], 5, 1);
    ProductStep([] + [5], 9, 5);
    ProductStep([] + [5] + [9], 14868, 45);
  }

  lemma ValuesOuter6(o: Expr)
    requires o == Outer6()
    ensures LeftValue(o) == 6810 && AdvValue(o) == 11664
  {
    var f := First6();
    var g := Second6();
    ValuesFirst6(Chain(Single(Num(2)), Plus, Num(4)), f);
    ValuesSecond6(Chain(Single(Num(6)), Plus, Num(9)), Chain(Chain(Single(Num(6)), Plus, Num(9)), Times, Num(8)), g);
    var a := Single(Group(f));
    ValuesAroundGroups6(f, g, a, Chain(a, Times, Group(g)), o);
  }

  /** 2 + 4 * 9 */
  lemma ValuesFirst6(h: Expr, f: Expr)
    requires h == Chain(Single(Num(2)), Plus, Num(4)) && f == Chain(h, Times, Num(9))
    ensures LeftValue(f) == 54 && AdvValue(f) == 54
  {
    ChainStep(Single(Num(2)), Plus, Num(4), 2, [], 2, 4, 4);
    ChainStep(h, Times, Num(9), 6, [], 6, 9, 9);
    ProductStep([], 6, 1);
    ProductStep([] + [6], 9, 6);
  }

  /** 6 + 9 * 8 + 6 */
  lemma ValuesSecond6(h: Expr, k: Expr, g: Expr)
    requires h == Chain(Single(Num(6)), Plus, Num(9)) && k == Chain(h, Times, Num(8)) && g == Chain(k, Plus, Num(6))
    ensures LeftValue(g) == 126 && AdvValue(g) == 210
  {
    SumsSecond6(h, k, g);
    ProductStep([], 15, 1);
    ProductStep([] + [15], 14, 15);
  }

  lemma SumsSecond6(h: Expr, k: Expr, g: Expr)
    requires h == Chain(Single(Num(6)), Plus, Num(9)) && k == Chain(h, Times, Num(8)) && g == Chain(k, Plus, Num(6))
    ensures LeftValue(g) == 126 && Sums(g) == [] + [15] + [14]
  {
    ChainStep(Single(Num(6)), Plus, Num(9), 6, [], 6, 9, 9);
    ChainStep(h, Times, Num(8), 15, [], 15, 8, 8);
    ChainStep(k, Plus, Num(6), 120, [] + [15], 8, 6, 6);
  }

  /** (f) * (g) + 6, from the values of the two groups. */
  lemma ValuesAroundGroups6(f: Expr, g: Expr, a: Expr, b: Expr, o: Expr)
    requires LeftValue(f) == 54 && AdvValue(f) == 54
    requires LeftValue(g) == 126 && AdvValue(g) == 210
    requires a == Single(Group(f)) && b == Chain(a, Times, Group(g)) && o == Chain(b, Plus, Num(6))
    ensures LeftValue(o) == 6810 && AdvValue(o) == 11664
  {
    assert Sums(a) == [] + [54];
    GroupStep(a, Times, g, 54, [], 54, 126, 210);
    ChainStep(b, Plus, Num(6), 6804, [] + [54], 210, 6, 6);
    ProductStep([], 54, 1);
    ProductStep([] + [54], 216, 54);
  }

  lemma ValuesExample6(e: Expr)
    requires e == Example6()
    ensures LeftValue(e) == 13632 && AdvValue(e) == 23340
  {
    var o := Outer6();
    var a := Single(Group(o));
    var b := Chain(a, Plus, Num(2));
    ValuesChain6(o, a, b, Chain(b, Plus, Num(4)), e);
  }

  /** ((2 + 4 * 9) * (6 + 9 * 8 + 6) + 6) + 2 + 4 * 2 */
  lemma ValuesChain6(o: Expr, a: Expr, b: Expr, c: Expr, e: Expr)
    requires o == Outer6() && a == Single(Group(o)) && b == Chain(a, Plus, Num(2))
    requires c == Chain(b, Plus, Num(4)) && e == Chain(c, Times, Num(2))
    ensures LeftValue(e) == 13632 && AdvValue(e) == 23340
  {
    ValuesOuter6(o);
    ValuesAroundOuter6(o, a, b, c, e);
  }

  /** (o) + 2 + 4 * 2, from the values of the group. */
  lemma ValuesAroundOuter6(o: Expr, a: Expr, b: Expr, c: Expr, e: Expr)
    requires LeftValue(o) == 6810 && AdvValue(o) == 11664
    requires a == Single(Group(o)) && b == Chain(a, Plus, Num(2)) && c == Chain(b, Plus, Num(4))
    requires e == Chain(c, Times, Num(2))
    ensures LeftValue(e) == 13632 && AdvValue(e) == 23340
  {
    assert Sums(a) == [] + [11664];
    ChainStep(a, Plus, Num(2), 6810, [], 11664, 2, 2);
    ChainStep(b, Plus, Num(4), 6812, [], 11666, 4, 4);
    ChainStep(c, Times, Num(2), 6816, [], 11670, 2, 2);
    ProductStep([], 11670, 1);
    ProductStep([] + [11670], 2, 11670);
  }

  /** 1 + 2 * 3 + 4 * 5 + 6 is 71 left to right and 231 with '+' first. */
  lemma EvaluateExample1(s: string)
    requires s == "1 + 2 * 3 + 4 * 5 + 6"
    ensures Evaluate(s) == Ok(71) && AdvancedEvaluate(s) == Ok(231)
  {
    var e := Example1();
    ShowExample1(e);
    ValuesExample1(e);
    EvaluateByShow(e, s, 71, 231);
  }

  /** 1 + (2 * 3) + (4 * (5 + 6)) is 51 under both rules. */
  lemma EvaluateExample2(s: string)
    requires s == "1 + (2 * 3) + (4 * (5 + 6))"
    ensures Evaluate(s) == Ok(51) && AdvancedEvaluate(s) == Ok(51)
  {
    var e := Example2();
    ShowExample2(e);
    ValuesExample2(e);
    EvaluateByShow(e, s, 51, 51);
  }

  lemma ShowExample3(e: Expr)
    requires e == Example3()
    ensures ExprOk(e) && Show(e) == "2 * 3 + (4 * 5)"
  {
    assert ShowTerm(Group(Mul2(D(4), Num(5)))) == "(4 * 5)";
  }

  /** 2 * 3 + (4 * 5) is 26 left to right and 46 with '+' first. */
  lemma EvaluateExample3(s: string)
    requires s == "2 * 3 + (4 * 5)"
    ensures Evaluate(s) == Ok(26) && AdvancedEvaluate(s) == Ok(46)
  {
    var e := Example3();
    ShowExample3(e);
    ValuesExample3(e);
    EvaluateByShow(e, s, 26, 46);
  }

  lemma ShowExample4(e: Expr)
    requires e == Example4()
    ensures ExprOk(e) && Show(e) == "5 + (8 * 3 + 9 + 3 * 4 * 3)"
  {
    var inner := Mul2(Mul2(Sum2(Sum2(Mul2(D(8), Num(3)), Num(9)), Num(3)), Num(4)), Num(3));
    var si := "8 * 3 + 9 + 3 * 4 * 3";
    ShowInner4(inner);
    ShowGroup(inner, si);
    ShowStep(D(5), Plus, Group(inner), "5", "(" + si + ")");
    Text4(si);
  }

  lemma Text4(si: string)
    requires si == "8 * 3 + 9 + 3 * 4 * 3"
    ensures "5" + " " + [OpChar(Plus)] + " " + ("(" + si + ")") == "5 + (8 * 3 + 9 + 3 * 4 * 3)"
  {
    assert "(" + si + ")" == "(8 * 3 + 9 + 3 * 4 * 3)";
  }

  lemma ShowInner4(inner: Expr)
    requires inner == Mul2(Mul2(Sum2(Sum2(Mul2(D(8), Num(3)), Num(9)), Num(3)), Num(4)), Num(3))
    ensures ExprOk(inner) && Show(inner) == "8 * 3 + 9 + 3 * 4 * 3"
  {
    var a := Mul2(D(8), Num(3));
    ShowStep(D(8), Times, Num(3), "8", "3");
    var b := Sum2(a, Num(9));
    ShowStep(a, Plus, Num(9), "8 * 3", "9");
    var c := Sum2(b, Num(3));
    ShowStep(b, Plus, Num(3), "8 * 3 + 9", "3");
    var d := Mul2(c, Num(4));
    ShowStep(c, Times, Num(4), "8 * 3 + 9 + 3", "4");
    ShowStep(d, Times, Num(3), "8 * 3 + 9 + 3 * 4", "3");
  }

  lemma ShowStep(l: Expr, op: Op, r: Term, sl: string, sr: string)
    requires ExprOk(l) && TermOk(r) && Show(l) == sl && ShowTerm(r) == sr
    ensures ExprOk(Chain(l, op, r)) && Show(Chain(l, op, r)) == sl + " " + [OpChar(op)] + " " + sr
  {
  }

  /** Both values of l op r, from those of l and r; s + [top] are the
      run sums of l. */
  lemma ChainStep(l: Expr, op: Op, r: Term, lv: nat, s: seq<nat>, top: nat, rv: nat, ra: nat)
    requires LeftValue(l) == lv && Sums(l) == s + [top]
    requires TermValue(r) == rv && AdvTermValue(r) == ra
    ensures LeftValue(Chain(l, op, r)) == Apply(op, lv, rv)
    ensures Sums(Chain(l, op, r)) == if op == Plus then s + [top + ra] else s + [top] + [ra]
  {
    assert (s + [top])[..|s|] == s;
  }

  /** 5 + (8 * 3 + 9 + 3 * 4 * 3) is 437 left to right and 1445 with '+'
      first. */
  lemma EvaluateExample4(s: string)
    requires s == "5 + (8 * 3 + 9 + 3 * 4 * 3)"
    ensures Evaluate(s) == Ok(437) && AdvancedEvaluate(s) == Ok(1445)
  {
    var e := Example4();
    ShowExample4(e);
    ValuesExample4(e);
    EvaluateByShow(e, s, 437, 1445);
  }

  lemma ShowGroup(e: Expr, s: string)
    requires ExprOk(e) && Show(e) == s
    ensures TermOk(Group(e)) && ShowTerm(Group(e)) == "(" + s + ")"
  {
  }

  /** ChainStep for a parenthesised right operand, from the values of
      the group. */
  lemma GroupStep(l: Expr, op: Op, g: Expr, lv: nat, s: seq<nat>, top: nat, gv: nat, ga: nat)
    requires LeftValue(l) == lv && Sums(l) == s + [top]
    requires LeftValue(g) == gv && AdvValue(g) == ga
    ensures LeftValue(Chain(l, op, Group(g))) == Apply(op, lv, gv)
    ensures Sums(Chain(l, op, Group(g))) == if op == Plus then s + [top + ga] else s + [top] + [ga]
  {
    ChainStep(l, op, Group(g), lv, s, top, gv, ga);
  }

  lemma ProductStep(xs: seq<nat>, x: nat, p: nat)
    requires Product(xs) == p
    ensures Product(xs + [x]) == p * x
  {
    assert (xs + [x])[..|xs|] == xs;
  }

  lemma ShowExample5(e: Expr)
    requires e == Example5()
    ensures ExprOk(e) && Show(e) == "5 * 9 * (7 * 3 * 3 + 9 * 3 + (8 + 6 * 4))"
  {
    var m := Middle5();
    ShowMiddle5(m);
    var sm := "7 * 3 * 3 + 9 * 3 + (8 + 6 * 4)";
    ShowTimesGroup(D(5), Num(9), m, "5", "9", sm);
    Text5(sm);
  }

  /** Show of a * b * (m), from the parts. */
  lemma ShowTimesGroup(a: Expr, b: Term, m: Expr, sa: string, sb: string, sm: string)
    requires ExprOk(a) && TermOk(b) && ExprOk(m)
    requires Show(a) == sa && ShowTerm(b) == sb && Show(m) == sm
    ensures ExprOk(Mul2(Mul2(a, b), Group(m)))
    ensures Show(Mul2(Mul2(a, b), Group(m))) == sa + " * " + sb + " * (" + sm + ")"
  {
    ShowStep(a, Times, b, sa, sb);
    ShowGroup(m, sm);
    ShowStep(Mul2(a, b), Times, Group(m), sa + " * " + sb, "(" + sm + ")");
  }

  lemma ShowMiddle5(m: Expr)
    requires m == Middle5()
    ensures ExprOk(m) && Show(m) == "7 * 3 * 3 + 9 * 3 + (8 + 6 * 4)"
  {
    ShowStep(D(8), Plus, Num(6), "8", "6");
    ShowStep(Sum2(D(8), Num(6)), Times, Num(4), "8 + 6", "4");
    ShowGroup(Inner5(), "8 + 6 * 4");
    var a := Mul2(D(7), Num(3));
    ShowStep(D(7), Times, Num(3), "7", "3");
    var b := Mul2(a, Num(3));
    ShowStep(a, Times, Num(3), "7 * 3", "3");
    var c := Sum2(b, Num(9));
    ShowStep(b, Plus, Num(9), "7 * 3 * 3", "9");
    var d := Mul2(c, Num(3));
    ShowStep(c, Times, Num(3), "7 * 3 * 3 + 9", "3");
    ShowStep(d, Plus, Group(Inner5()), "7 * 3 * 3 + 9 * 3", "(8 + 6 * 4)");
  }

  /** 5 * 9 * (7 * 3 * 3 + 9 * 3 + (8 + 6 * 4)) is 12240 left to right and
      669060 with '+' first. */
  lemma EvaluateExample5(s: string)
    requires s == "5 * 9 * (7 * 3 * 3 + 9 * 3 + (8 + 6 * 4))"
    ensures Evaluate(s) == Ok(12240) && AdvancedEvaluate(s) == Ok(669060)
  {
    var e := Example5();
    ShowExample5(e);
    ValuesExample5(e);
    EvaluateByShow(e, s, 12240, 669060);
  }

  lemma ShowExample6(e: Expr)
    requires e == Example6()
    ensures ExprOk(e) && Show(e) == "((2 + 4 * 9) * (6 + 9 * 8 + 6) + 6) + 2 + 4 * 2"
  {
    var o := Outer6();
    ShowOuter6(o);
    var so := "(2 + 4 * 9) * (6 + 9 * 8 + 6) + 6";
    ShowGroupSums(o, so);
    Text6();
  }

  /** Show of (o) + 2 + 4 * 2, from the part. */
  lemma ShowGroupSums(o: Expr, so: string)
    requires ExprOk(o) && Show(o) == so
    ensures ExprOk(Mul2(Sum2(Sum2(Single(Group(o)), Num(2)), Num(4)), Num(2)))
    ensures Show(Mul2(Sum2(Sum2(Single(Group(o)), Num(2)), Num(4)), Num(2))) == "(" + so + ") + 2 + 4 * 2"
  {
    var a := Single(Group(o));
    assert Show(a) == "(" + so + ")";
    assert ShowTerm(Num(2)) == "2" && ShowTerm(Num(4)) == "4";
    ShowStep(a, Plus, Num(2), "(" + so + ")", "2");
    ShowStep(Sum2(a, Num(2)), Plus, Num(4), "(" + so + ") + 2", "4");
    ShowStep(Sum2(Sum2(a, Num(2)), Num(4)), Times, Num(2), "(" + so + ") + 2 + 4", "2");
  }

  lemma ShowOuter6(o: Expr)
    requires o == Outer6()
    ensures ExprOk(o) && Show(o) == "(2 + 4 * 9) * (6 + 9 * 8 + 6) + 6"
  {
    ShowFirst6(First6());
    ShowSecond6(Second6());
    ShowAroundGroups6(First6(), Second6(), "2 + 4 * 9", "6 + 9 * 8 + 6");
  }

  lemma ShowFirst6(f: Expr)
    requires f == First6()
    ensures ExprOk(f) && Show(f) == "2 + 4 * 9"
  {
    ShowStep(D(2), Plus, Num(4), "2", "4");
    ShowStep(Sum2(D(2), Num(4)), Times, Num(9), "2 + 4", "9");
  }

  lemma ShowSecond6(g: Expr)
    requires g == Second6()
    ensures ExprOk(g) && Show(g) == "6 + 9 * 8 + 6"
  {
    ShowStep(D(6), Plus, Num(9), "6", "9");
    ShowStep(Sum2(D(6), Num(9)), Times, Num(8), "6 + 9", "8");
    ShowStep(Mul2(Sum2(D(6), Num(9)), Num(8)), Plus, Num(6), "6 + 9 * 8", "6");
  }

  /** Show of (f) * (g) + 6, from the two groups. */
  lemma ShowAroundGroups6(f: Expr, g: Expr, sf: string, sg: string)
    requires ExprOk(f) && Show(f) == sf && ExprOk(g) && Show(g) == sg
    requires sf == "2 + 4 * 9" && sg == "6 + 9 * 8 + 6"
    ensures ExprOk(Sum2(Mul2(Single(Group(f)), Group(g)), Num(6)))
    ensures Show(Sum2(Mul2(Single(Group(f)), Group(g)), Num(6))) == "(2 + 4 * 9) * (6 + 9 * 8 + 6) + 6"
  {
    var m := Mul2(Single(Group(f)), Group(g));
    ShowGroupProduct(f, g, sf, sg);
    Text6Product(sf, sg);
    ShowStep(m, Plus, Num(6), "(2 + 4 * 9) * (6 + 9 * 8 + 6)", "6");
  }

  /** Show of (f) * (g). */
  lemma ShowGroupProduct(f: Expr, g: Expr, sf: string, sg: string)
    requires ExprOk(f) && Show(f) == sf && ExprOk(g) && Show(g) == sg
    ensures ExprOk(Mul2(Single(Group(f)), Group(g)))
    ensures Show(Mul2(Single(Group(f)), Group(g))) == "(" + sf + ")" + " * " + "(" + sg + ")"
  {
    ShowGroup(f, sf);
    ShowGroup(g, sg);
    ShowStep(Single(Group(f)), Times, Group(g), "(" + sf + ")", "(" + sg + ")");
  }

  lemma Text6Product(sf: string, sg: string)
    requires sf == "2 + 4 * 9" && sg == "6 + 9 * 8 + 6"
    ensures "(" + sf + ")" + " * " + "(" + sg + ")" == "(2 + 4 * 9) * (6 + 9 * 8 + 6)"
  {
    assert "(" + sf + ")" == "(2 + 4 * 9)";
    assert "(" + sg + ")" == "(6 + 9 * 8 + 6)";
  }

  /** ((2 + 4 * 9) * (6 + 9 * 8 + 6) + 6) + 2 + 4 * 2 is 13632 left to
      right and 23340 with '+' first. */
  lemma EvaluateExample6(s: string)
    requires s == "((2 + 4 * 9) * (6 + 9 * 8 + 6) + 6) + 2 + 4 * 2"
    ensures Evaluate(s) == Ok(13632) && AdvancedEvaluate(s) == Ok(23340)
  {
    var e := Example6();
    ShowExample6(e);
    ValuesExample6(e);
    EvaluateByShow(e, s, 13632, 23340);
  }

  lemma Text5(sm: string)
    requires sm == "7 * 3 * 3 + 9 * 3 + (8 + 6 * 4)"
    ensures "5" + " * " + "9" + " * (" + sm + ")" == "5 * 9 * (7 * 3 * 3 + 9 * 3 + (8 + 6 * 4))"
  {
    var joined := "5" + " * " + "9" + " * (" + sm + ")";
    var text := "5 * 9 * (7 * 3 * 3 + 9 * 3 + (8 + 6 * 4))";
    assert |joined| == |text|;
    forall i | 0 <= i < |joined| ensures joined[i] == text[i] {
    }
  }

  lemma Text6()
    ensures "(" + "(2 + 4 * 9) * (6 + 9 * 8 + 6) + 6" + ") + 2 + 4 * 2"
      == "((2 + 4 * 9) * (6 + 9 * 8 + 6) + 6) + 2 + 4 * 2"
  {
    assert "(" + "(2 + 4 * 9) * (6 + 9 * 8 + 6) + 6" == "((2 + 4 * 9) * (6 + 9 * 8 + 6) + 6";
  }

  // The malformed lines the source rejects, and the ones advanced_evaluate
  // accepts where evaluate does not.

  /** Removing the spaces one character at a time. */
  lemma NoSpacesCons(c: char, rest: string, r: string)
    requires NoSpaces(rest) == r
    ensures NoSpaces([c] + rest) == (if c == ' ' then r else [c] + r)
  {
    FilterCons(c, rest, (ch: char) => ch != ' ');
  }

  /** An empty group and an empty line have no total to return. */
  lemma EmptyExamples(s: string, t: string)
    requires s == "()" && t == ""
    ensures Evaluate(s) == Err(EmptyParenthesis) && Evaluate(t) == Err(EmptyExpression)
    ensures AdvancedEvaluate(s) == Ok(1) && AdvancedEvaluate(t) == Ok(1)
  {
    NoSpacesCons(')', "", "");
    assert s == ['('] + ")";
    NoSpacesCons('(', ")", ")");
    EvalEmptyGroup(s);
  }

  lemma EvalEmptyGroup(cs: string)
    requires cs == "()"
    ensures Eval(cs, None, None).0 == Err(EmptyParenthesis)
    ensures AdvEval(cs, [], false).0 == Ok(1)
  {
    var close := ")";
    assert close[0] == ')' && close[1..] == "";
    assert cs[0] == '(' && cs[1..] == close;
    var none: seq<nat> := [];
    assert AdvEval(close, none, false) == (Ok(1), "");
    assert Push(none, false, 1) == Ok([1]) by { assert none + [1] == [1]; }
    ProductStep(none, 1, 1);
  }

  /** An operator with nothing before it. */
  lemma LeadingPlusExample(s: string)
    requires s == "+ 1"
    ensures Evaluate(s) == Err(UnexpectedSituation)
    ensures AdvancedEvaluate(s) == Err(NoNumberBeforeAddition)
  {
    NoSpacesLeadingPlus(s);
    EvalLeadingPlus(NoSpaces(s));
  }

  lemma NoSpacesLeadingPlus(s: string)
    requires s == "+ 1"
    ensures |NoSpaces(s)| == 2 && NoSpaces(s)[0] == '+' && NoSpaces(s)[1] == '1'
  {
    var s1 := s[1..];
    var s2 := s1[1..];
    assert s[0] == '+' && s1[0] == ' ' && s2[0] == '1' && s2[1..] == [];
    NoSpacesFirst(s);
    NoSpacesFirst(s1);
    NoSpacesFirst(s2);
  }

  lemma EvalLeadingPlus(cs: string)
    requires |cs| == 2 && cs[0] == '+' && cs[1] == '1'
    ensures Eval(cs, None, None).0 == Err(UnexpectedSituation)
    ensures AdvEval(cs, [], false).0 == Err(NoNumberBeforeAddition)
  {
    var one := cs[1..];
    assert one[0] == '1' && IsDigit('1');
    EvalOperatorFirst(cs);
    AdvEvalPlus(cs, one, []);
    AdvEvalDigitAfterPlus(one, []);
  }

  /** An operator with no total before it. */
  lemma EvalOperatorFirst(cs: string)
    requires |cs| > 0 && (cs[0] == '+' || cs[0] == '*')
    ensures Eval(cs, None, None).0 == Err(UnexpectedSituation)
  {
  }

  /** A '+' only marks the next number as an addition. */
  lemma AdvEvalPlus(cs: string, rest: string, stack: seq<nat>)
    requires |cs| > 0 && cs[0] == '+' && cs[1..] == rest
    ensures AdvEval(cs, stack, false) == AdvEval(rest, stack, true)
  {
  }

  /** A number after '+' with nothing on the stack. */
  lemma AdvEvalDigitAfterPlus(cs: string, stack: seq<nat>)
    requires |cs| > 0 && IsDigit(cs[0]) && stack == []
    ensures AdvEval(cs, stack, true).0 == Err(NoNumberBeforeAddition)
  {
  }

  /** Two numbers with no operator between them: evaluate panics, while
      advanced_evaluate multiplies them. */
  lemma AdjacentNumbersExample(s: string)
    requires s == "1 2"
    ensures Evaluate(s) == Err(UnexpectedSituation) && AdvancedEvaluate(s) == Ok(2)
  {
    NoSpacesAdjacent(s);
    EvalAdjacentNumbers(NoSpaces(s));
  }

  lemma NoSpacesAdjacent(s: string)
    requires s == "1 2"
    ensures |NoSpaces(s)| == 2 && NoSpaces(s)[0] == '1' && NoSpaces(s)[1] == '2'
  {
    NoSpacesCons('2', "", "");
    assert " 2" == [' '] + "2";
    NoSpacesCons(' ', "2", "2");
    assert s == ['1'] + " 2";
    NoSpacesCons('1', " 2", "2");
  }

  lemma EvalAdjacentNumbers(cs: string)
    requires |cs| == 2 && cs[0] == '1' && cs[1] == '2'
    ensures Eval(cs, None, None).0 == Err(UnexpectedSituation)
    ensures AdvEval(cs, [], false).0 == Ok(2)
  {
    var two := cs[1..];
    assert two[0] == '2' && two[1..] == [];
    EvalDigit(cs, two, None, None, 1);
    EvalDigit(two, two[1..], Some(1), None, 2);
    var none: seq<nat> := [];
    AdvEvalDigit(cs, '1', two, none, 1);
    assert none + [1] == [1];
    AdvEvalDigit(two, '2', two[1..], [1], 2);
    AdvEvalEnd([1], 2);
  }

  /** A digit hands its value to the bookkeeping. */
  lemma EvalDigit(cs: string, rest: string, total: Option<nat>, op: Option<Op>, n: nat)
    requires |cs| > 0 && cs[1..] == rest && IsDigit(cs[0]) && DigitValue(cs[0]) == n
    ensures Eval(cs, total, op) == EvalNext(rest, Combine(total, op, Some(n)))
  {
  }

  /** A digit with no '+' pending pushes its value. */
  lemma AdvEvalDigit(cs: string, c: char, rest: string, stack: seq<nat>, n: nat)
    requires |cs| > 0 && cs[0] == c && cs[1..] == rest && IsDigit(c) && DigitValue(c) == n
    ensures AdvEval(cs, stack, false) == AdvEval(rest, stack + [n], false)
  {
  }

  lemma AdvEvalEnd(stack: seq<nat>, n: nat)
    requires stack == [1]
    ensures AdvEval([], stack + [n], false).0 == Ok(n)
  {
    var none: seq<nat> := [];
    assert none + [1] == stack;
    ProductStep(none, 1, 1);
    ProductStep(stack, n, 1);
  }

  /** A character that is neither an operator nor a digit. */
  lemma NotADigitExample(s: string)
    requires s == "1 + a"
    ensures Evaluate(s) == Err(NotADigit) && AdvancedEvaluate(s) == Err(NotADigit)
  {
    NoSpacesNotADigit(s);
    EvalNotADigit(NoSpaces(s));
  }

  lemma NoSpacesNotADigit(s: string)
    requires s == "1 + a"
    ensures |NoSpaces(s)| == 3 && NoSpaces(s)[0] == '1' && NoSpaces(s)[1] == '+' && NoSpaces(s)[2] == 'a'
  {
    var s1 := s[1..];
    var s2 := s1[1..];
    var s3 := s2[1..];
    var s4 := s3[1..];
    assert s[0] == '1' && s1[0] == ' ' && s2[0] == '+' && s3[0] == ' ' && s4[0] == 'a' && s4[1..] == [];
    NoSpacesFirst(s);
    NoSpacesFirst(s1);
    NoSpacesFirst(s2);
    NoSpacesFirst(s3);
    NoSpacesFirst(s4);
  }

  /** The first character survives unless it is a space. */
  lemma NoSpacesFirst(s: string)
    requires |s| > 0
    ensures NoSpaces(s) == (if s[0] == ' ' then [] else [s[0]]) + NoSpaces(s[1..])
  {
  }

  lemma EvalNotADigit(cs: string)
    requires |cs| == 3 && cs[0] == '1' && cs[1] == '+' && cs[2] == 'a'
    ensures Eval(cs, None, None).0 == Err(NotADigit)
    ensures AdvEval(cs, [], false).0 == Err(NotADigit)
  {
    var plus := cs[1..];
    var a := plus[1..];
    assert plus[0] == '+' && a[0] == 'a' && !IsDigit('a');
    EvalDigit(cs, plus, None, None, 1);
    assert Eval(plus, Some(1), None) == Eval(a, Some(1), Some(Plus));
    assert Eval(a, Some(1), Some(Plus)).0 == Err(NotADigit);
    var none: seq<nat> := [];
    AdvEvalDigit(cs, '1', plus, none, 1);
    assert none + [1] == [1];
    assert AdvEval(plus, [1], false) == AdvEval(a, [1], true);
    assert AdvEval(a, [1], true).0 == Err(NotADigit);
  }
}
