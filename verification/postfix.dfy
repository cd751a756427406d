/** Homework 4 (`evaluate.cpp`): a recursive-descent converter from the
    infix token list to a postfix token list, and a stack evaluator for the
    postfix list in which names travel on the stack unresolved and are
    looked up only when an operator consumes them.

    The token list iterator is a position in the sequence of tokens. Past
    the last token `tokenChar()` answers NUL and `advance()` stays put. */
module Postfix {
  import opened IntMath
  import opened Outcomes
  import opened Tokens
  import VarTree
  import Lexer
  import ExprTree
  import Evaluate

  type Store = Evaluate.Store

  /** `isOperator(Token)`: the token's text is one of the nine operator
      symbols. Everything else is a number or a variable name. */
  predicate IsOperator(t: Token) {
    var s := Text(t);
    |s| == 1 && Lexer.IsOperatorChar(s[0])
  }

  /** An integer token is never taken for an operator, negative ones
      included. */
  lemma IntIsOperand(v: int)
    ensures !IsOperator(Int(v))
  {
    var s := IntToString(v);
    if v >= 0 {
      assert IsDigit(s[0]);
    } else {
      assert |s| >= 2 by {
        assert |s| == 1 + |NatToString(-v)|;
      }
    }
  }

  /** The outcome of converting a part of the input: the postfix tokens it
      appends and the position after it. */
  type Conversion = Result<(seq<Token>, nat)>

  // ----- Infix to postfix -----

  /** `assignmentToPostfix`: an optional leading `-` that negates the whole
      sum after it, then any number of `= assignment`, each emitted after
      its right side, which makes `=` group to the right. */
  function Assignment(toks: seq<Token>, pos: nat): (r: Conversion)
    requires pos <= |toks|
    ensures r.Ok? ==> pos < r.value.1 <= |toks|
    decreases |toks| - pos, 8
  {
    if CharAt(toks, pos) == '-' then
      var s :- Sum(toks, pos + 1);
      AssignLoop(toks, s.1, s.0 + [Oper("~")])
    else
      var s :- Sum(toks, pos);
      AssignLoop(toks, s.1, s.0)
  }

  function AssignLoop(toks: seq<Token>, pos: nat, acc: seq<Token>): (r: Conversion)
    requires pos <= |toks|
    ensures r.Ok? ==> pos <= r.value.1 <= |toks|
    decreases |toks| - pos, 7
  {
    if CharAt(toks, pos) == '=' then
      var rhs :- Assignment(toks, pos + 1);
      AssignLoop(toks, rhs.1, acc + rhs.0 + [Oper("=")])
    else Ok((acc, pos))
  }

  /** `sumToPostfix`: an optional leading `-` that negates only the first
      product, then `+` and `-` grouping to the left. */
  function Sum(toks: seq<Token>, pos: nat): (r: Conversion)
    requires pos <= |toks|
    ensures r.Ok? ==> pos < r.value.1 <= |toks|
    decreases |toks| - pos, 6
  {
    if CharAt(toks, pos) == '-' then
      var p :- Prod(toks, pos + 1);
      SumLoop(toks, p.1, p.0 + [Oper("~")])
    else
      var p :- Prod(toks, pos);
      SumLoop(toks, p.1, p.0)
  }

  function SumLoop(toks: seq<Token>, pos: nat, acc: seq<Token>): (r: Conversion)
    requires pos <= |toks|
    ensures r.Ok? ==> pos <= r.value.1 <= |toks|
    decreases |toks| - pos, 5
  {
    var c := CharAt(toks, pos);
    if c == '+' || c == '-' then
      var rhs :- Prod(toks, pos + 1);
      SumLoop(toks, rhs.1, acc + rhs.0 + [Oper([c])])
    else Ok((acc, pos))
  }

  /** `prodToPostfix`: factors joined by `*`, `/` and `%`, grouping to the
      left. */
  function Prod(toks: seq<Token>, pos: nat): (r: Conversion)
    requires pos <= |toks|
    ensures r.Ok? ==> pos < r.value.1 <= |toks|
    decreases |toks| - pos, 4
  {
    var f :- Factor(toks, pos);
    ProdLoop(toks, f.1, f.0)
  }

  function ProdLoop(toks: seq<Token>, pos: nat, acc: seq<Token>): (r: Conversion)
    requires pos <= |toks|
    ensures r.Ok? ==> pos <= r.value.1 <= |toks|
    decreases |toks| - pos, 3
  {
    var c := CharAt(toks, pos);
    if c == '*' || c == '/' || c == '%' then
      var rhs :- Factor(toks, pos + 1);
      ProdLoop(toks, rhs.1, acc + rhs.0 + [Oper([c])])
    else Ok((acc, pos))
  }

  /** `factorToPostfix`: a number or name is copied to the output; any
      operator token is taken for an opening parenthesis, and the token
      after the inner assignment for the closing one. Reading a token past
      the end of the list is an error. */
  function Factor(toks: seq<Token>, pos: nat): (r: Conversion)
    requires pos <= |toks|
    ensures r.Ok? ==> pos < r.value.1 <= |toks|
    decreases |toks| - pos, 2
  {
    if pos == |toks| then Err(EndOfInput)
    else if !IsOperator(toks[pos]) then Ok(([toks[pos]], pos + 1))
    else
      var inner :- Assignment(toks, pos + 1);
      Ok((inner.0, Advance(toks, inner.1)))
  }

  /** `assignmentToPostfix` called on a fresh iterator and an empty
      result list. */
  function ToPostfix(toks: seq<Token>): Result<seq<Token>> {
    var c :- Assignment(toks, 0);
    Ok(c.0)
  }

  // ----- Evaluating postfix -----

  /** The value of a token popped as an operand: an integer token's value,
      otherwise the looked-up value of its text (which inserts a missing
      name with value 0). */
  function OperandValue(t: Token, vars: Store): (r: (int, Store))
    ensures t.Int? ==> r == (t.value, vars)
    ensures !t.Int? && Text(t) in VarTree.Contents(vars) ==>
      r == (VarTree.Contents(vars)[Text(t)], vars)
    ensures !t.Int? && Text(t) !in VarTree.Contents(vars) ==>
      r.0 == 0 && VarTree.Contents(r.1) == VarTree.Contents(vars)[Text(t) := 0]
  {
    if t.Int? then (t.value, vars)
    else
      var looked := VarTree.Lookup(vars, Text(t));
      var s: Store := looked.1;
      (looked.0, s)
  }

  /** One pass of the loop of `evaluatePostfix`. The stack of values is the
      `values` list, top first. */
  function Step(t: Token, stack: seq<Token>, vars: Store): Result<(seq<Token>, Store)> {
    if !IsOperator(t) then Ok(([t] + stack, vars))
    else if TokenChar(t) == '~' then
      if |stack| == 0 then Err(StackUnderflow)
      else
        var v := OperandValue(stack[0], vars);
        Ok(([Int(-v.0)] + stack[1..], v.1))
    else if TokenChar(t) == '=' then
      if |stack| < 2 then Err(StackUnderflow)
      else
        var v := OperandValue(stack[0], vars);
        var s: Store := VarTree.Assign(v.1, Text(stack[1]), v.0);
        Ok(([Int(v.0)] + stack[2..], s))
    else if |stack| < 2 then Err(StackUnderflow)
    else
      var a := OperandValue(stack[1], vars);
      var b := OperandValue(stack[0], a.1);
      var c := TokenChar(t);
      if !ExprTree.IsArithChar(c) then Err(UnknownOperator)
      else
        var x :- ExprTree.ApplyChar(c, a.0, b.0);
        Ok(([Int(x)] + stack[2..], b.1))
  }

  /** The loop of `evaluatePostfix` over the tokens `ts`. */
  function Run(ts: seq<Token>, stack: seq<Token>, vars: Store): Result<(seq<Token>, Store)>
    decreases |ts|
  {
    if |ts| == 0 then Ok((stack, vars))
    else
      var next :- Step(ts[0], stack, vars);
      Run(ts[1..], next.0, next.1)
  }

  /** `evaluatePostfix`: run the loop from an empty stack, then pop the
      answer, which may still be an unresolved name. */
  function EvalPostfix(ts: seq<Token>, vars: Store): Result<(int, Store)> {
    var end :- Run(ts, [], vars);
    if |end.0| == 0 then Err(StackUnderflow)
    else Ok(OperandValue(end.0[0], end.1))
  }

  /** Running two token sequences one after the other is running their
      concatenation. */
  lemma {:induction false} RunAppend(a: seq<Token>, b: seq<Token>, stack: seq<Token>, vars: Store)
    ensures Run(a + b, stack, vars) ==
      match Run(a, stack, vars)
      case Err(f) => Err(f)
      case Ok(mid) => Run(b, mid.0, mid.1)
    decreases |a|
  {
    if |a| > 0 {
      assert (a + b)[1..] == a[1..] + b;
      var next := Step(a[0], stack, vars);
      if next.Ok? {
        RunAppend(a[1..], b, next.value.0, next.value.1);
      }
    } else {
      assert a + b == b;
    }
  }

  /** The loop as the source writes it, over the token list. */
  method EvaluatePostfix(t: TokenList, vars0: Store) returns (r: Result<(int, Store)>)
    ensures r == EvalPostfix(t.items, vars0)
  {
    var values: seq<Token> := [];
    var vars := vars0;
    var i := 0;
    while i < |t.items|
      invariant i <= |t.items|
      invariant Run(t.items, [], vars0) == Run(t.items[i..], values, vars)
      decreases |t.items| - i
    {
      assert t.items[i..] == [t.items[i]] + t.items[i + 1..];
      var next := Step(t.items[i], values, vars);
      if next.Err? {
        return Err(next.fault);
      }
      values, vars := next.value.0, next.value.1;
      i := i + 1;
    }
    if |values| == 0 {
      return Err(StackUnderflow);
    }
    r := Ok(OperandValue(values[0], vars));
  }

  // ----- Stack discipline of the converter's output -----

  /** The tokens the converter can emit: operands copied from the input,
      `~`, `=` and the five arithmetic operators. */
  predicate Emitted(t: Token) {
    !IsOperator(t) || t == Oper("~") || t == Oper("=") ||
    (t.Oper? && |t.sym| == 1 && ExprTree.IsArithChar(t.sym[0]))
  }

  predicate AllEmitted(ts: seq<Token>) {
    forall i :: 0 <= i < |ts| ==> Emitted(ts[i])
  }

  /** The height of the value stack after running `ts` from height `d`,
      or `None` when some operator finds too few values. */
  function Depth(ts: seq<Token>, d: nat): Option<nat>
    decreases |ts|
  {
    if |ts| == 0 then Some(d)
    else if !IsOperator(ts[0]) then Depth(ts[1..], d + 1)
    else if TokenChar(ts[0]) == '~' then (if d == 0 then None else Depth(ts[1..], d))
    else if d < 2 then None
    else Depth(ts[1..], d - 1)
  }

  /** A postfix sequence that, from any stack, pushes exactly one value
      and never reaches below the stack it started on. */
  ghost predicate Balanced(ts: seq<Token>) {
    forall d: nat :: Depth(ts, d) == Some(d + 1)
  }

  lemma {:induction false} DepthAppend(a: seq<Token>, b: seq<Token>, d: nat)
    ensures Depth(a + b, d) == if Depth(a, d).None? then None else Depth(b, Depth(a, d).value)
    decreases |a|
  {
    if |a| == 0 {
      assert a + b == b;
    } else {
      assert (a + b)[1..] == a[1..] + b;
      assert (a + b)[0] == a[0];
      if !IsOperator(a[0]) {
        DepthAppend(a[1..], b, d + 1);
      } else if TokenChar(a[0]) == '~' {
        if d > 0 {
          DepthAppend(a[1..], b, d);
        }
      } else if d >= 2 {
        DepthAppend(a[1..], b, d - 1);
      }
    }
  }

  lemma BalancedOperand(t: Token)
    requires !IsOperator(t)
    ensures Balanced([t]) && AllEmitted([t])
  {
    forall d: nat
      ensures Depth([t], d) == Some(d + 1)
    {
      assert [t][1..] == [];
    }
  }

  lemma BalancedNegate(a: seq<Token>)
    requires Balanced(a) && AllEmitted(a)
    ensures Balanced(a + [Oper("~")]) && AllEmitted(a + [Oper("~")])
  {
    forall d: nat
      ensures Depth(a + [Oper("~")], d) == Some(d + 1)
    {
      DepthAppend(a, [Oper("~")], d);
      assert [Oper("~")][1..] == [];
    }
  }

  lemma BalancedBinary(a: seq<Token>, b: seq<Token>, op: Token)
    requires Balanced(a) && AllEmitted(a) && Balanced(b) && AllEmitted(b)
    requires op == Oper("=") || (op.Oper? && |op.sym| == 1 && ExprTree.IsArithChar(op.sym[0]))
    ensures Balanced(a + b + [op]) && AllEmitted(a + b + [op])
  {
    assert IsOperator(op) && TokenChar(op) != '~';
    forall d: nat
      ensures Depth(a + b + [op], d) == Some(d + 1)
    {
      DepthAppend(a + b, [op], d);
      DepthAppend(a, b, d);
      assert [op][1..] == [];
    }
  }

  /** Every successful conversion emits a balanced sequence of operands
      and the seven operators the evaluator knows. */
  lemma {:induction false} AssignmentBalanced(toks: seq<Token>, pos: nat)
    requires pos <= |toks| && Assignment(toks, pos).Ok?
    ensures Balanced(Assignment(toks, pos).value.0) && AllEmitted(Assignment(toks, pos).value.0)
    decreases |toks| - pos, 8
  {
    if CharAt(toks, pos) == '-' {
      var s := Sum(toks, pos + 1).value;
      SumBalanced(toks, pos + 1);
      BalancedNegate(s.0);
      AssignLoopBalanced(toks, s.1, s.0 + [Oper("~")]);
    } else {
      var s := Sum(toks, pos).value;
      SumBalanced(toks, pos);
      AssignLoopBalanced(toks, s.1, s.0);
    }
  }

  lemma {:induction false} AssignLoopBalanced(toks: seq<Token>, pos: nat, acc: seq<Token>)
    requires pos <= |toks| && AssignLoop(toks, pos, acc).Ok?
    requires Balanced(acc) && AllEmitted(acc)
    ensures Balanced(AssignLoop(toks, pos, acc).value.0) && AllEmitted(AssignLoop(toks, pos, acc).value.0)
    decreases |toks| - pos, 7
  {
    if CharAt(toks, pos) == '=' {
      var rhs := Assignment(toks, pos + 1).value;
      AssignmentBalanced(toks, pos + 1);
      BalancedBinary(acc, rhs.0, Oper("="));
      AssignLoopBalanced(toks, rhs.1, acc + rhs.0 + [Oper("=")]);
    }
  }

  lemma {:induction false} SumBalanced(toks: seq<Token>, pos: nat)
    requires pos <= |toks| && Sum(toks, pos).Ok?
    ensures Balanced(Sum(toks, pos).value.0) && AllEmitted(Sum(toks, pos).value.0)
    decreases |toks| - pos, 6
  {
    if CharAt(toks, pos) == '-' {
      var p := Prod(toks, pos + 1).value;
      ProdBalanced(toks, pos + 1);
      BalancedNegate(p.0);
      SumLoopBalanced(toks, p.1, p.0 + [Oper("~")]);
    } else {
      var p := Prod(toks, pos).value;
      ProdBalanced(toks, pos);
      SumLoopBalanced(toks, p.1, p.0);
    }
  }

  lemma {:induction false} SumLoopBalanced(toks: seq<Token>, pos: nat, acc: seq<Token>)
    requires pos <= |toks| && SumLoop(toks, pos, acc).Ok?
    requires Balanced(acc) && AllEmitted(acc)
    ensures Balanced(SumLoop(toks, pos, acc).value.0) && AllEmitted(SumLoop(toks, pos, acc).value.0)
    decreases |toks| - pos, 5
  {
    var c := CharAt(toks, pos);
    if c == '+' || c == '-' {
      var rhs := Prod(toks, pos + 1).value;
      ProdBalanced(toks, pos + 1);
      BalancedBinary(acc, rhs.0, Oper([c]));
      SumLoopBalanced(toks, rhs.1, acc + rhs.0 + [Oper([c])]);
    }
  }

  lemma {:induction false} ProdBalanced(toks: seq<Token>, pos: nat)
    requires pos <= |toks| && Prod(toks, pos).Ok?
    ensures Balanced(Prod(toks, pos).value.0) && AllEmitted(Prod(toks, pos).value.0)
    decreases |toks| - pos, 4
  {
    var f := Factor(toks, pos).value;
    FactorBalanced(toks, pos);
    ProdLoopBalanced(toks, f.1, f.0);
  }

  lemma {:induction false} ProdLoopBalanced(toks: seq<Token>, pos: nat, acc: seq<Token>)
    requires pos <= |toks| && ProdLoop(toks, pos, acc).Ok?
    requires Balanced(acc) && AllEmitted(acc)
    ensures Balanced(ProdLoop(toks, pos, acc).value.0) && AllEmitted(ProdLoop(toks, pos, acc).value.0)
    decreases |toks| - pos, 3
  {
    var c := CharAt(toks, pos);
    if c == '*' || c == '/' || c == '%' {
      var rhs := Factor(toks, pos + 1).value;
      FactorBalanced(toks, pos + 1);
      BalancedBinary(acc, rhs.0, Oper([c]));
      ProdLoopBalanced(toks, rhs.1, acc + rhs.0 + [Oper([c])]);
    }
  }

  lemma {:induction false} FactorBalanced(toks: seq<Token>, pos: nat)
    requires pos <= |toks| && Factor(toks, pos).Ok?
    ensures Balanced(Factor(toks, pos).value.0) && AllEmitted(Factor(toks, pos).value.0)
    decreases |toks| - pos, 2
  {
    if !IsOperator(toks[pos]) {
      BalancedOperand(toks[pos]);
    } else {
      AssignmentBalanced(toks, pos + 1);
    }
  }

  /** On a stack deep enough for it, an emitted token either fails by a
      zero divisor or moves the stack to the height `Depth` predicts. */
  lemma StepEmitted(t: Token, stack: seq<Token>, vars: Store)
    requires Emitted(t) && Depth([t], |stack|).Some?
    ensures Step(t, stack, vars).Err? ==> Step(t, stack, vars).fault == DivideByZero
    ensures Step(t, stack, vars).Ok? ==> Some(|Step(t, stack, vars).value.0|) == Depth([t], |stack|)
  {
    assert [t][1..] == [];
    if IsOperator(t) && t.Oper? && |t.sym| == 1 && ExprTree.IsArithChar(t.sym[0]) {
      assert TokenChar(t) == t.sym[0];
    }
  }

  lemma {:induction false} RunEmitted(ts: seq<Token>, stack: seq<Token>, vars: Store)
    requires AllEmitted(ts) && Depth(ts, |stack|).Some?
    ensures Run(ts, stack, vars).Err? ==> Run(ts, stack, vars).fault == DivideByZero
    ensures Run(ts, stack, vars).Ok? ==> Some(|Run(ts, stack, vars).value.0|) == Depth(ts, |stack|)
    decreases |ts|
  {
    if |ts| > 0 {
      assert ts == [ts[0]] + ts[1..];
      DepthAppend([ts[0]], ts[1..], |stack|);
      StepEmitted(ts[0], stack, vars);
      var next := Step(ts[0], stack, vars);
      if next.Ok? {
        assert AllEmitted(ts[1..]) by {
          forall i | 0 <= i < |ts[1..]|
            ensures Emitted(ts[1..][i])
          {
            assert ts[1..][i] == ts[i + 1];
          }
        }
        RunEmitted(ts[1..], next.value.0, next.value.1);
      }
    }
  }

  /** The evaluator never runs short of operands or meets an operator it
      does not know on what the converter produced: the only way it can
      fail there is a division or remainder by zero. */
  lemma ConvertedRunsClean(toks: seq<Token>, vars: Store)
    requires ToPostfix(toks).Ok?
    ensures var r := EvalPostfix(ToPostfix(toks).value, vars);
      r.Err? ==> r.fault == DivideByZero
  {
    var out := ToPostfix(toks).value;
    AssignmentBalanced(toks, 0);
    assert Depth(out, 0) == Some(1);
    RunEmitted(out, [], vars);
  }

  // ----- The driver's expected results -----

  /** A lone operand followed by no `*`, `/` or `%` is a whole product. */
  lemma OperandProd(toks: seq<Token>, pos: nat)
    requires pos < |toks| && !IsOperator(toks[pos])
    requires var c := CharAt(toks, pos + 1); c != '*' && c != '/' && c != '%'
    ensures Prod(toks, pos) == Ok(([toks[pos]], pos + 1))
  {
  }

  /** A lone operand followed by none of `* / % + -` is a whole sum. */
  lemma OperandSum(toks: seq<Token>, pos: nat)
    requires pos < |toks| && !IsOperator(toks[pos]) && !toks[pos].Oper?
    requires var c := CharAt(toks, pos + 1);
      c != '*' && c != '/' && c != '%' && c != '+' && c != '-'
    ensures Sum(toks, pos) == Ok(([toks[pos]], pos + 1))
  {
    OperandProd(toks, pos);
  }

  /** A lone operand followed by none of `* / % + - =` is a whole
      assignment. */
  lemma OperandAssignment(toks: seq<Token>, pos: nat)
    requires pos < |toks| && !IsOperator(toks[pos]) && !toks[pos].Oper?
    requires var c := CharAt(toks, pos + 1);
      c != '*' && c != '/' && c != '%' && c != '+' && c != '-' && c != '='
    ensures Assignment(toks, pos) == Ok(([toks[pos]], pos + 1))
  {
    OperandSum(toks, pos);
  }

  /** `C=D=A`: `=` groups to the right, so the postfix is `C D A = =`. */
  lemma ChainedAssignConverts()
    ensures ToPostfix([Ident("C"), Oper("="), Ident("D"), Oper("="), Ident("A")]) ==
      Ok([Ident("C"), Ident("D"), Ident("A"), Oper("="), Oper("=")])
  {
    var toks := [Ident("C"), Oper("="), Ident("D"), Oper("="), Ident("A")];
    var c, d, a, eq := Ident("C"), Ident("D"), Ident("A"), Oper("=");
    OperandAssignment(toks, 4);
    assert CharAt(toks, 3) == '=' && CharAt(toks, 1) == '=';
    assert AssignLoop(toks, 5, [d, a, eq]) == Ok(([d, a, eq], 5));
    assert [d] + [a] + [eq] == [d, a, eq];
    assert AssignLoop(toks, 3, [d]) == Ok(([d, a, eq], 5));
    OperandSum(toks, 2);
    assert Assignment(toks, 2) == Ok(([d, a, eq], 5));
    assert AssignLoop(toks, 5, [c, d, a, eq, eq]) == Ok(([c, d, a, eq, eq], 5));
    assert [c] + [d, a, eq] + [eq] == [c, d, a, eq, eq];
    assert AssignLoop(toks, 1, [c]) == Ok(([c, d, a, eq, eq], 5));
    OperandSum(toks, 0);
  }

  /** `evaluate` of Homework 4 on the scanned tokens: convert, then
      evaluate the postfix list. */
  function EvaluateInfix(toks: seq<Token>, vars: Store): Result<(int, Store)> {
    var out :- ToPostfix(toks);
    EvalPostfix(out, vars)
  }

  function Reversed(ts: seq<Token>): (r: seq<Token>)
    ensures |r| == |ts|
  {
    if |ts| == 0 then [] else Reversed(ts[1..]) + [ts[0]]
  }

  /** A run of operands is pushed as it is, unresolved, the last one on
      top. */
  lemma {:induction false} RunOperands(ts: seq<Token>, rest: seq<Token>, stack: seq<Token>, vars: Store)
    requires forall i :: 0 <= i < |ts| ==> !IsOperator(ts[i])
    ensures Run(ts + rest, stack, vars) == Run(rest, Reversed(ts) + stack, vars)
    decreases |ts|
  {
    if |ts| == 0 {
      assert ts + rest == rest;
      assert Reversed(ts) + stack == stack;
    } else {
      assert (ts + rest)[1..] == ts[1..] + rest;
      assert (ts + rest)[0] == ts[0];
      RunOperands(ts[1..], rest, [ts[0]] + stack, vars);
      assert Reversed(ts[1..]) + ([ts[0]] + stack) == Reversed(ts) + stack;
    }
  }

  /** One step of the evaluation loop, taken when it succeeds. */
  lemma RunStep(t: Token, ts: seq<Token>, stack: seq<Token>, vars: Store)
    requires Step(t, stack, vars).Ok?
    ensures Run([t] + ts, stack, vars) ==
      Run(ts, Step(t, stack, vars).value.0, Step(t, stack, vars).value.1)
  {
    assert ([t] + ts)[1..] == ts;
  }

  /** An operand is pushed unresolved. */
  lemma PushOperand(t: Token, stack: seq<Token>, vars: Store)
    requires !IsOperator(t)
    ensures Step(t, stack, vars).Ok?
    ensures Step(t, stack, vars).value.0 == [t] + stack && Step(t, stack, vars).value.1 == vars
  {
  }

  /** `=` assigns the top value to the name below it and leaves the value. */
  lemma StepAssign(name: Token, top: Token, rest: seq<Token>, vars: Store)
    ensures Step(Oper("="), [top, name] + rest, vars).Ok?
    ensures var v := OperandValue(top, vars);
      Step(Oper("="), [top, name] + rest, vars).value.0 == [Int(v.0)] + rest &&
      Step(Oper("="), [top, name] + rest, vars).value.1 == VarTree.Assign(v.1, Text(name), v.0)
  {
    assert Text(Oper("=")) == "=" && TokenChar(Oper("=")) == '=';
    assert ([top, name] + rest)[2..] == rest;
  }

  /** A binary operator applies to the second value and the top value, in
      that order, looking up the second one first. */
  lemma StepArith(c: char, lhs: Token, rhs: Token, rest: seq<Token>, vars: Store)
    requires ExprTree.IsArithChar(c)
    requires var a := OperandValue(lhs, vars);
      ExprTree.ApplyChar(c, a.0, OperandValue(rhs, a.1).0).Ok?
    ensures Step(Oper([c]), [rhs, lhs] + rest, vars).Ok?
    ensures var a := OperandValue(lhs, vars);
      var b := OperandValue(rhs, a.1);
      Step(Oper([c]), [rhs, lhs] + rest, vars).value.0 == [Int(ExprTree.ApplyChar(c, a.0, b.0).value)] + rest &&
      Step(Oper([c]), [rhs, lhs] + rest, vars).value.1 == b.1
  {
    assert Text(Oper([c])) == [c] && TokenChar(Oper([c])) == c;
    assert ([rhs, lhs] + rest)[2..] == rest;
  }

  /** `=` in the middle of a run. */
  lemma RunAssign(name: Token, top: Token, rest: seq<Token>, ts: seq<Token>, vars: Store)
    ensures var v := OperandValue(top, vars);
      var s: Store := VarTree.Assign(v.1, Text(name), v.0);
      Run([Oper("=")] + ts, [top, name] + rest, vars) == Run(ts, [Int(v.0)] + rest, s)
  {
    StepAssign(name, top, rest, vars);
    RunStep(Oper("="), ts, [top, name] + rest, vars);
  }

  /** A binary operator in the middle of a run. */
  lemma RunArith(c: char, lhs: Token, rhs: Token, rest: seq<Token>, ts: seq<Token>, vars: Store)
    requires ExprTree.IsArithChar(c)
    requires var a := OperandValue(lhs, vars);
      ExprTree.ApplyChar(c, a.0, OperandValue(rhs, a.1).0).Ok?
    ensures var a := OperandValue(lhs, vars);
      var b := OperandValue(rhs, a.1);
      Run([Oper([c])] + ts, [rhs, lhs] + rest, vars) ==
      Run(ts, [Int(ExprTree.ApplyChar(c, a.0, b.0).value)] + rest, b.1)
  {
    StepArith(c, lhs, rhs, rest, vars);
    RunStep(Oper([c]), ts, [rhs, lhs] + rest, vars);
  }

  /** `C=D=A` with `A` holding 5 gives 5 and sets both `C` and `D` to 5. */
  lemma ChainedAssignEvaluates(vars: Store)
    requires "A" in VarTree.Contents(vars) && VarTree.Contents(vars)["A"] == 5
    ensures var r := EvaluateInfix([Ident("C"), Oper("="), Ident("D"), Oper("="), Ident("A")], vars);
      r.Ok? && r.value.0 == 5 &&
      VarTree.Contents(r.value.1) == VarTree.Contents(vars)["D" := 5]["C" := 5]
  {
    ChainedAssignConverts();
    ChainedAssignRuns(vars);
  }

  lemma ChainedAssignRuns(vars: Store)
    requires "A" in VarTree.Contents(vars) && VarTree.Contents(vars)["A"] == 5
    ensures var r := EvalPostfix([Ident("C"), Ident("D"), Ident("A"), Oper("="), Oper("=")], vars);
      r.Ok? && r.value.0 == 5 &&
      VarTree.Contents(r.value.1) == VarTree.Contents(vars)["D" := 5]["C" := 5]
  {
    var c, d, a, eq := Ident("C"), Ident("D"), Ident("A"), Oper("=");
    assert OperandValue(a, vars) == (5, vars);
    ChainedAssignPushes(vars);
    var s1: Store := VarTree.Assign(vars, "D", 5);
    RunAssign(d, a, [c], [eq], vars);
    assert [eq] + [eq] == [eq, eq];
    assert [a, d] + [c] == [a, d, c];
    assert [Int(5)] + [c] == [Int(5), c];
    var s2: Store := VarTree.Assign(s1, "C", 5);
    ParenAssignOuter(c, 5, s1, s2);
  }

  lemma ChainedAssignPushes(vars: Store)
    ensures var c, d, a, eq := Ident("C"), Ident("D"), Ident("A"), Oper("=");
      Run([c, d, a, eq, eq], [], vars) == Run([eq, eq], [a, d, c], vars)
  {
    var c, d, a, eq := Ident("C"), Ident("D"), Ident("A"), Oper("=");
    assert !IsOperator(c) && !IsOperator(d) && !IsOperator(a);
    RunOperands([c, d, a], [eq, eq], [], vars);
    assert [c, d, a] + [eq, eq] == [c, d, a, eq, eq];
    assert Reversed([a]) == [a];
    assert Reversed([d, a]) == [a, d];
    assert Reversed([c, d, a]) + [] == [a, d, c];
  }

  /** The three operator loops stop at a token that does not continue
      them. */
  lemma LoopsStop(toks: seq<Token>, pos: nat, acc: seq<Token>)
    requires pos <= |toks|
    requires var c := CharAt(toks, pos);
      c != '*' && c != '/' && c != '%' && c != '+' && c != '-' && c != '='
    ensures ProdLoop(toks, pos, acc) == Ok((acc, pos))
    ensures SumLoop(toks, pos, acc) == Ok((acc, pos))
    ensures AssignLoop(toks, pos, acc) == Ok((acc, pos))
  {
  }

  /** A name or number token as the scanner makes it. */
  predicate Plain(t: Token) {
    !IsOperator(t) && !t.Oper?
  }

  /** The tokens of `x=l+(y=k)`. */
  function ParenAssign(x: Token, l: Token, y: Token, k: int): seq<Token> {
    [x, Oper("="), l, Oper("+"), Oper("("), y, Oper("="), Int(k), Oper(")")]
  }

  /** `x=l+(y=k)` becomes `x l y k = + =`: the parenthesised assignment is
      one operand of `+`, and the outer `=` comes last. */
  lemma ParenAssignConverts(x: Token, l: Token, y: Token, k: int)
    requires Plain(x) && Plain(l) && Plain(y)
    ensures ToPostfix(ParenAssign(x, l, y, k)) ==
      Ok([x, l, y, Int(k), Oper("="), Oper("+"), Oper("=")])
  {
    var one, eq, plus := Int(k), Oper("="), Oper("+");
    var toks := ParenAssign(x, l, y, k);
    var out := [l, y, one, eq, plus];
    ParenAssignRight(x, l, y, k);
    assert CharAt(toks, 1) == '=';
    LoopsStop(toks, 9, [x] + out + [eq]);
    assert AssignLoop(toks, 1, [x]) == Ok(([x] + out + [eq], 9));
    OperandSum(toks, 0);
    assert [x] + out + [eq] == [x, l, y, one, eq, plus, eq];
  }

  /** The right side of the outer `=`, `l + (y=k)`, is one sum. */
  lemma ParenAssignRight(x: Token, l: Token, y: Token, k: int)
    requires Plain(l) && Plain(y)
    ensures Assignment(ParenAssign(x, l, y, k), 2) ==
      Ok(([l, y, Int(k), Oper("="), Oper("+")], 9))
  {
    var one, eq, plus := Int(k), Oper("="), Oper("+");
    var toks := ParenAssign(x, l, y, k);
    ParenAssignFactor(x, l, y, k);
    assert CharAt(toks, 3) == '+' && CharAt(toks, 2) == '\0';
    OperandProd(toks, 2);
    var out := [l, y, one, eq, plus];
    LoopsStop(toks, 9, out);
    assert [l] + [y, one, eq] + [plus] == out;
    assert SumLoop(toks, 3, [l]) == Ok((out, 9));
    assert Sum(toks, 2) == Ok((out, 9));
  }

  /** The parenthesised `(y=k)` is one factor. */
  lemma ParenAssignFactor(x: Token, l: Token, y: Token, k: int)
    requires Plain(y)
    ensures Prod(ParenAssign(x, l, y, k), 4) == Ok(([y, Int(k), Oper("=")], 9))
  {
    var one, eq := Int(k), Oper("=");
    var toks := ParenAssign(x, l, y, k);
    IntIsOperand(k);
    assert CharAt(toks, 6) == '=' && CharAt(toks, 8) == ')' && CharAt(toks, 4) == '(';
    OperandAssignment(toks, 7);
    LoopsStop(toks, 8, [y, one, eq]);
    assert [y] + [one] + [eq] == [y, one, eq];
    assert AssignLoop(toks, 6, [y]) == Ok(([y, one, eq], 8));
    OperandSum(toks, 5);
    assert Assignment(toks, 5) == Ok(([y, one, eq], 8));
    assert Factor(toks, 4) == Ok(([y, one, eq], 9));
    LoopsStop(toks, 9, [y, one, eq]);
  }

  /** Evaluating `x l y k = + =`: `y` is assigned `k` first; only then is
      the left operand `l` of `+` read, and `x` receives the sum. */
  lemma ParenAssignRuns(x: Token, l: Token, y: Token, k: int, vars: Store)
    requires Plain(x) && Plain(l) && Plain(y)
    ensures var s1: Store := VarTree.Assign(vars, Text(y), k);
      var a := OperandValue(l, s1);
      var s2: Store := VarTree.Assign(a.1, Text(x), a.0 + k);
      EvalPostfix([x, l, y, Int(k), Oper("="), Oper("+"), Oper("=")], vars) == Ok((a.0 + k, s2))
  {
    var s1: Store := VarTree.Assign(vars, Text(y), k);
    var a := OperandValue(l, s1);
    var s2: Store := VarTree.Assign(a.1, Text(x), a.0 + k);
    ParenAssignRunsVia(x, l, y, k, vars, s1, a, s2);
    EvalPostfixOf([x, l, y, Int(k), Oper("="), Oper("+"), Oper("=")], vars, a.0 + k, s2);
  }

  /** A run that ends with one integer on the stack answers that integer. */
  lemma EvalPostfixOf(ts: seq<Token>, vars: Store, v: int, s: Store)
    requires Run(ts, [], vars) == Ok(([Int(v)], s))
    ensures EvalPostfix(ts, vars) == Ok((v, s))
  {
  }

  /** `ParenAssignRuns` with the intermediate stores named. */
  lemma ParenAssignRunsVia(x: Token, l: Token, y: Token, k: int, vars: Store, s1: Store, a: (int, Store), s2: Store)
    requires Plain(x) && Plain(l) && Plain(y)
    requires s1 == VarTree.Assign(vars, Text(y), k) && a == OperandValue(l, s1)
    requires s2 == VarTree.Assign(a.1, Text(x), a.0 + k)
    ensures Run([x, l, y, Int(k), Oper("="), Oper("+"), Oper("=")], [], vars) == Ok(([Int(a.0 + k)], s2))
  {
    ParenAssignFront(x, l, y, k, vars, s1);
    ParenAssignBack(x, l, k, s1, a, s2);
  }

  /** The operands are pushed and `y = 1` runs. */
  lemma ParenAssignFront(x: Token, l: Token, y: Token, k: int, vars: Store, s1: Store)
    requires Plain(x) && Plain(l) && Plain(y)
    requires s1 == VarTree.Assign(vars, Text(y), k)
    ensures Run([x, l, y, Int(k), Oper("="), Oper("+"), Oper("=")], [], vars) ==
      Run([Oper("+"), Oper("=")], [Int(k), l, x], s1)
  {
    ParenAssignPushes(x, l, y, k, vars);
    ParenAssignInner(x, l, y, k, vars, s1);
  }

  /** The sum and the outer assignment run. */
  lemma ParenAssignBack(x: Token, l: Token, k: int, s1: Store, a: (int, Store), s2: Store)
    requires a == OperandValue(l, s1) && s2 == VarTree.Assign(a.1, Text(x), a.0 + k)
    ensures Run([Oper("+"), Oper("=")], [Int(k), l, x], s1) == Ok(([Int(a.0 + k)], s2))
  {
    ParenAssignSum(x, l, k, s1, a);
    ParenAssignOuter(x, a.0 + k, a.1, s2);
  }

  lemma ParenAssignPushes(x: Token, l: Token, y: Token, k: int, vars: Store)
    requires Plain(x) && Plain(l) && Plain(y)
    ensures Run([x, l, y, Int(k), Oper("="), Oper("+"), Oper("=")], [], vars) ==
      Run([Oper("="), Oper("+"), Oper("=")], [Int(k), y, l, x], vars)
  {
    var one, eq, plus := Int(k), Oper("="), Oper("+");
    IntIsOperand(k);
    RunOperands([x, l, y, one], [eq, plus, eq], [], vars);
    assert [x, l, y, one] + [eq, plus, eq] == [x, l, y, one, eq, plus, eq];
    assert Reversed([one]) == [one];
    assert Reversed([y, one]) == [one, y];
    assert Reversed([l, y, one]) == [one, y, l];
    assert Reversed([x, l, y, one]) + [] == [one, y, l, x];
  }

  lemma ParenAssignInner(x: Token, l: Token, y: Token, k: int, vars: Store, s1: Store)
    requires s1 == VarTree.Assign(vars, Text(y), k)
    ensures Run([Oper("="), Oper("+"), Oper("=")], [Int(k), y, l, x], vars) ==
      Run([Oper("+"), Oper("=")], [Int(k), l, x], s1)
  {
    var one, eq, plus := Int(k), Oper("="), Oper("+");
    RunAssign(y, one, [l, x], [plus, eq], vars);
    assert [eq] + [plus, eq] == [eq, plus, eq];
    assert [one, y] + [l, x] == [one, y, l, x];
    assert OperandValue(one, vars) == (k, vars);
    assert [Int(k)] + [l, x] == [one, l, x];
  }

  lemma ParenAssignSum(x: Token, l: Token, k: int, s1: Store, a: (int, Store))
    requires a == OperandValue(l, s1)
    ensures Run([Oper("+"), Oper("=")], [Int(k), l, x], s1) == Run([Oper("=")], [Int(a.0 + k), x], a.1)
  {
    var one, eq, plus := Int(k), Oper("="), Oper("+");
    assert OperandValue(one, a.1) == (k, a.1);
    RunArith('+', l, one, [x], [eq], s1);
    AddChar(a.0, k);
    assert [plus] + [eq] == [plus, eq];
    assert [one, l] + [x] == [one, l, x];
    assert [Int(a.0 + k)] + [x] == [Int(a.0 + k), x];
  }

  lemma AddChar(a: int, b: int)
    ensures ExprTree.IsArithChar('+') && ExprTree.ApplyChar('+', a, b) == Ok(a + b)
  {
  }

  lemma ParenAssignOuter(x: Token, v: int, s: Store, s2: Store)
    requires s2 == VarTree.Assign(s, Text(x), v)
    ensures Run([Oper("=")], [Int(v), x], s) == Ok(([Int(v)], s2))
  {
    RunAssign(x, Int(v), [], [], s);
    assert [Oper("=")] + [] == [Oper("=")];
    assert [Int(v), x] + [] == [Int(v), x];
    assert [Int(v)] + [] == [Int(v)];
  }

  /** `E=F+(F=1)` gives 2 whatever the store holds: the name `F` on the
      left of `+` is looked up only when `+` runs, after the assignment
      inside the parentheses. Afterwards `F` holds 1 and `E` holds 2. */
  lemma ReadAfterAssignEvaluates(vars: Store)
    ensures var r := EvaluateInfix(ParenAssign(Ident("E"), Ident("F"), Ident("F"), 1), vars);
      r.Ok? && r.value.0 == 2 &&
      VarTree.Contents(r.value.1) == VarTree.Contents(vars)["F" := 1]["E" := 2]
  {
    var e, f := Ident("E"), Ident("F");
    ParenAssignConverts(e, f, f, 1);
    ParenAssignRuns(e, f, f, 1, vars);
    var s1: Store := VarTree.Assign(vars, "F", 1);
    assert OperandValue(f, s1) == (1, s1);
  }

  /** `A=3+(B=2)` gives 5 and sets `B` to 2 and `A` to 5. */
  lemma ParenthesisedAssignEvaluates(vars: Store)
    ensures var r := EvaluateInfix(ParenAssign(Ident("A"), Int(3), Ident("B"), 2), vars);
      r.Ok? && r.value.0 == 5 &&
      VarTree.Contents(r.value.1) == VarTree.Contents(vars)["B" := 2]["A" := 5]
  {
    IntIsOperand(3);
    ParenAssignConverts(Ident("A"), Int(3), Ident("B"), 2);
    ParenAssignRuns(Ident("A"), Int(3), Ident("B"), 2, vars);
  }
}
