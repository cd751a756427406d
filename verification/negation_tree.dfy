/** The expression tree of Homework 5 (`exprtree.cpp`): the node kinds of
    Homework 6 without user function calls, plus a unary negation written
    as an `Operation` with operator `~` and a null right operand.

    The same `Expr` datatype serves both versions; a Homework 5 tree is one
    without `Function` nodes. */
module NegationTree {
  import opened IntMath
  import opened Outcomes
  import opened ExprTree
  import VarTree
  import Evaluate
  import DcCalc

  type Store = Evaluate.Store

  /** A tree Homework 5 can build: no user function calls. */
  predicate NoCalls(e: Expr) {
    match e
    case Nil => true
    case Value(_) => true
    case Variable(_) => true
    case Operation(l, _, r) => NoCalls(l) && NoCalls(r)
    case Conditional(t, a, b) => NoCalls(t) && NoCalls(a) && NoCalls(b)
    case Function(_, _) => false
  }

  /** The nodes `toString` can print: a left operand, a test and both
      branches are never null; a right operand may be. */
  predicate Printable(e: Expr) {
    match e
    case Nil => false
    case Value(_) => true
    case Variable(_) => true
    case Operation(l, _, r) => Printable(l) && (r == Nil || Printable(r))
    case Conditional(t, a, b) => Printable(t) && Printable(a) && Printable(b)
    case Function(_, _) => false
  }

  /** `toString` of Homework 5: as in Homework 6, except that a null right
      operand is left out. */
  function ToString(e: Expr): string
    requires Printable(e)
  {
    match e
    case Value(v) => IntToString(v)
    case Variable(n) => n
    case Operation(l, op, r) =>
      ToString(l) + (if r == Nil then "" else " " + ToString(r)) + " " + op
    case Conditional(t, a, b) =>
      "((" + ToString(t) + ") ? (" + ToString(a) + ") : (" + ToString(b) + "))"
  }

  /** `evaluate` of Homework 5. */
  function Eval(e: Expr, vars: Store): Result<(int, Store)>
    requires NoCalls(e)
  {
    match e
    case Nil => Err(NullNode)
    case Value(v) => Ok((v, vars))
    case Variable(n) =>
      var looked := VarTree.Lookup(vars, n);
      var s: Store := looked.1;
      Ok((looked.0, s))
    case Operation(l, op, r) =>
      if op == "~" then
        var lv :- Eval(l, vars);
        Ok((-lv.0, lv.1))
      else if op == "=" then
        var rv :- Eval(r, vars);
        if !Printable(l) then Err(NullNode)
        else
          var s: Store := VarTree.Assign(rv.1, ToString(l), rv.0);
          Ok((rv.0, s))
      else if IsArithmetic(op) || IsRelational(op) then
        var lv :- Eval(l, vars);
        var rv :- Eval(r, lv.1);
        var x :- Apply(op, lv.0, rv.0);
        Ok((x, rv.1))
      else
        Ok((0, vars))
    case Conditional(t, a, b) =>
      var tv :- Eval(t, vars);
      if tv.0 != 0 then Eval(a, tv.1) else Eval(b, tv.1)
  }

  /** `~` is the negation of its left operand; the right operand, null in
      every tree the parser builds, is never looked at. */
  lemma NegationMeaning(l: Expr, r1: Expr, r2: Expr, vars: Store)
    requires NoCalls(l) && NoCalls(r1) && NoCalls(r2)
    ensures Eval(Operation(l, "~", r1), vars) == Eval(Operation(l, "~", r2), vars)
    ensures Eval(Operation(l, "~", r1), vars).Ok? <==> Eval(l, vars).Ok?
    ensures Eval(l, vars).Ok? ==>
      Eval(Operation(l, "~", r1), vars).value == (-Eval(l, vars).value.0, Eval(l, vars).value.1)
  {
    EvalNegation(l, r1, vars);
    EvalNegation(l, r2, vars);
  }

  lemma EvalNegation(l: Expr, r: Expr, vars: Store)
    requires NoCalls(l) && NoCalls(r)
    ensures Eval(Operation(l, "~", r), vars) ==
      match Eval(l, vars)
      case Ok(lv) => Ok((-lv.0, lv.1))
      case Err(f) => Err(f)
  {
  }

  /** A null right operand is left out of the text. */
  lemma ToStringOmitsNullRight(l: Expr, op: string)
    requires Printable(l)
    ensures ToString(Operation(l, op, Nil)) == ToString(l) + " " + op
  {
  }

  /** Homework 5 and Homework 6 print every tree they can both print the
      same way. */
  lemma {:induction false} ToStringVersionsAgree(e: Expr)
    requires ExprTree.Printable(e) && NoCalls(e)
    ensures Printable(e) && ToString(e) == ExprTree.ToString(e)
  {
    match e
    case Value(_) =>
    case Variable(_) =>
    case Operation(l, _, r) =>
      ToStringVersionsAgree(l);
      ToStringVersionsAgree(r);
    case Conditional(t, a, b) =>
      ToStringVersionsAgree(t);
      ToStringVersionsAgree(a);
      ToStringVersionsAgree(b);
  }

  /** A tree without null operands, calls or negations: the trees both
      versions build the same way. */
  predicate Shared(e: Expr) {
    match e
    case Nil => false
    case Value(_) => true
    case Variable(_) => true
    case Operation(l, op, r) => op != "~" && Shared(l) && Shared(r)
    case Conditional(t, a, b) => Shared(t) && Shared(a) && Shared(b)
    case Function(_, _) => false
  }

  lemma {:induction false} SharedIsPrintable(e: Expr)
    requires Shared(e)
    ensures NoCalls(e) && ExprTree.Printable(e)
  {
    match e
    case Value(_) =>
    case Variable(_) =>
    case Operation(l, _, r) =>
      SharedIsPrintable(l);
      SharedIsPrintable(r);
    case Conditional(t, a, b) =>
      SharedIsPrintable(t);
      SharedIsPrintable(a);
      SharedIsPrintable(b);
  }

  /** On the trees both versions share, Homework 5 evaluates exactly as
      Homework 6 does, whatever function table and fuel the latter has. */
  lemma {:induction false} EvalVersionsAgree(e: Expr, vars: Store, funs: FunTable, fuel: nat)
    requires Shared(e)
    ensures NoCalls(e) && Eval(e, vars) == Evaluate.Eval(e, vars, funs, fuel)
    decreases e, 2
  {
    SharedIsPrintable(e);
    match e
    case Value(_) =>
    case Variable(_) =>
    case Operation(_, _, _) =>
      OperationVersionsAgree(e, vars, funs, fuel);
    case Conditional(_, _, _) =>
      ConditionalVersionsAgree(e, vars, funs, fuel);
  }

  lemma {:induction false} OperationVersionsAgree(e: Expr, vars: Store, funs: FunTable, fuel: nat)
    requires e.Operation? && Shared(e)
    ensures NoCalls(e) && Eval(e, vars) == Evaluate.Eval(e, vars, funs, fuel)
    decreases e, 1
  {
    if e.oper == "=" {
      AssignVersionsAgree(e, vars, funs, fuel);
    } else {
      BinaryVersionsAgree(e, vars, funs, fuel);
    }
  }

  lemma {:induction false} AssignVersionsAgree(e: Expr, vars: Store, funs: FunTable, fuel: nat)
    requires e.Operation? && e.oper == "=" && Shared(e)
    ensures NoCalls(e) && Eval(e, vars) == Evaluate.Eval(e, vars, funs, fuel)
    decreases e, 0
  {
    SharedIsPrintable(e);
    EvalVersionsAgree(e.right, vars, funs, fuel);
    ToStringVersionsAgree(e.left);
  }

  lemma {:induction false} BinaryVersionsAgree(e: Expr, vars: Store, funs: FunTable, fuel: nat)
    requires e.Operation? && e.oper != "=" && Shared(e)
    ensures NoCalls(e) && Eval(e, vars) == Evaluate.Eval(e, vars, funs, fuel)
    decreases e, 0
  {
    SharedIsPrintable(e);
    var l, r := e.left, e.right;
    EvalVersionsAgree(l, vars, funs, fuel);
    var lv := Eval(l, vars);
    if lv.Ok? {
      EvalVersionsAgree(r, lv.value.1, funs, fuel);
    }
  }

  lemma {:induction false} ConditionalVersionsAgree(e: Expr, vars: Store, funs: FunTable, fuel: nat)
    requires e.Conditional? && Shared(e)
    ensures NoCalls(e) && Eval(e, vars) == Evaluate.Eval(e, vars, funs, fuel)
    decreases e, 0
  {
    SharedIsPrintable(e);
    var t, a, b := e.test, e.trueCase, e.falseCase;
    EvalVersionsAgree(t, vars, funs, fuel);
    var tv := Eval(t, vars);
    if tv.Ok? {
      EvalVersionsAgree(a, tv.value.1, funs, fuel);
      EvalVersionsAgree(b, tv.value.1, funs, fuel);
    }
  }

  // ----- Translation to dc (`makedc`) -----

  /** The trees `makedc` can translate without dereferencing a null pointer
      or reading the first character of an empty name. */
  predicate DcPrintable(e: Expr) {
    match e
    case Nil => false
    case Value(_) => true
    case Variable(n) => |n| > 0
    case Operation(l, op, r) =>
      if op == "~" then DcPrintable(l)
      else if op == "=" then DcPrintable(r) && DcPrintable(l)
      else if IsRelational(op) then true
      else DcPrintable(l) && DcPrintable(r)
    case Conditional(_, _, _) => true
    case Function(_, _) => false
  }

  /** `makedc`: the tree as a `dc` program. A value is its decimal text and
      a space; a variable is the first character of its name, which is the
      name of its `dc` register. Operands come before the operator, and a
      variable operand is loaded with `l`; `=` stores the right side's
      value with `s` and loads it back with `l`. Comparisons and
      conditionals have no translation.

      `~` is translated as intended rather than as written: a negated
      number keeps the source's `_` sign, and any other negated operand
      is subtracted from 0. `NegationAsWritten` is the source's text. */
  function Makedc(e: Expr): string
    requires DcPrintable(e)
    decreases e, 1
  {
    match e
    case Value(v) => IntToString(v) + " "
    case Variable(n) => [n[0]]
    case Operation(l, op, r) =>
      if op == "~" then
        if l.Value? && l.value >= 0 then NegationAsWritten(l) else "0 " + Operand(l) + "-"
      else if op == "=" then Operand(r) + "s" + Makedc(l) + "l" + Makedc(l)
      else if IsRelational(op) then " Comparison operators not supported. "
      else Operand(l) + Operand(r) + op
    case Conditional(_, _, _) => " Conditional operator not supported. "
  }

  /** A subtree in operand position: `makedc` puts an `l` before a
      variable. */
  function Operand(e: Expr): string
    requires DcPrintable(e)
    decreases e, 2
  {
    (if e.Variable? then "l" else "") + Makedc(e)
  }

  /** `makedc` of `~` as the source writes it: `_` before the operand's
      code. `dc` reads `_` only as the sign of a number literal. */
  function NegationAsWritten(l: Expr): string
    requires DcPrintable(l)
    decreases l, 3
  {
    "_" + Operand(l)
  }

  /** The trees whose translation `dc` runs as the tree evaluates: the
      arithmetic operators over non-negative numbers and variables,
      assignment to a variable, and negation. */
  predicate DcArith(e: Expr) {
    match e
    case Nil => false
    case Value(v) => v >= 0
    case Variable(n) => |n| > 0
    case Operation(l, op, r) =>
      (IsArithmetic(op) && DcArith(l) && DcArith(r)) ||
      (op == "=" && l.Variable? && |l.name| > 0 && DcArith(r)) ||
      (op == "~" && DcArith(l) && r == Nil)
    case Conditional(_, _, _) => false
    case Function(_, _) => false
  }

  function Names(e: Expr): set<string> {
    match e
    case Nil => {}
    case Value(_) => {}
    case Variable(n) => {n}
    case Operation(l, _, r) => Names(l) + Names(r)
    case Conditional(t, a, b) => Names(t) + Names(a) + Names(b)
    case Function(_, _) => {}
  }

  /** What reading a name yields. */
  function ValueOf(vars: Store, x: string): int {
    if x in VarTree.Contents(vars) then VarTree.Contents(vars)[x] else 0
  }

  /** Every name's register holds what reading the name yields. */
  predicate Agree(vars: Store, regs: map<char, int>, names: set<string>) {
    forall x :: x in names ==> |x| > 0 && x[0] in regs && regs[x[0]] == ValueOf(vars, x)
  }

  /** No two names share a register. */
  predicate DistinctHeads(names: set<string>) {
    forall x, y :: x in names && y in names && |x| > 0 && |y| > 0 && x[0] == y[0] ==> x == y
  }

  lemma {:induction false} DcArithNoCalls(e: Expr)
    requires DcArith(e)
    ensures NoCalls(e) && DcPrintable(e)
  {
    match e
    case Value(_) =>
    case Variable(_) =>
    case Operation(l, op, r) =>
      if IsArithmetic(op) && DcArith(l) && DcArith(r) {
        DcArithNoCalls(l);
        DcArithNoCalls(r);
      } else if op == "=" && l.Variable? && |l.name| > 0 && DcArith(r) {
        DcArithNoCalls(r);
      } else {
        DcArithNoCalls(l);
      }
  }

  /** Assigning a name and its register together keeps agreement. */
  lemma AgreeAfterAssign(vars: Store, regs: map<char, int>, names: set<string>, x: string, v: int)
    requires Agree(vars, regs, names) && DistinctHeads(names) && x in names
    ensures Agree(VarTree.Assign(vars, x, v), regs[x[0] := v], names)
  {
  }

  /** Running `code` and then `rest` from `m` is running `rest` with `v`
      pushed, from registers that agree with `vars'`. */
  ghost predicate RunsTo(code: string, rest: string, m: DcCalc.Machine, v: int, vars': Store, names: set<string>) {
    exists regs' :: (Agree(vars', regs', names) &&
      DcCalc.Run(code + rest, m) == DcCalc.Run(rest, DcCalc.Machine(m.stack + [v], regs')))
  }

  /** Running the translation of an operand pushes the operand's value and
      leaves registers that agree with the store the evaluation leaves; the
      rest of the program then runs from there. */
  lemma {:induction false} MakedcMatchesEval(e: Expr, vars: Store, names: set<string>, rest: string, m: DcCalc.Machine)
    requires DcArith(e) && NoCalls(e) && Names(e) <= names && DistinctHeads(names)
    requires Agree(vars, m.regs, names) && Eval(e, vars).Ok?
    ensures DcPrintable(e)
    ensures RunsTo(Operand(e), rest, m, Eval(e, vars).value.0, Eval(e, vars).value.1, names)
    decreases e, 2
  {
    DcArithNoCalls(e);
    var res := Eval(e, vars).value;
    match e
    case Value(v) =>
      ValueStep(e, vars, names, rest, m);
    case Variable(x) =>
      VariableStep(e, vars, names, rest, m);
    case Operation(l, op, r) =>
      if IsArithmetic(op) && DcArith(l) && DcArith(r) {
        ArithmeticStep(e, vars, names, rest, m);
      } else if op == "=" && l.Variable? && |l.name| > 0 && DcArith(r) {
        AssignStep(e, vars, names, rest, m);
      } else if l.Value? {
        NegationStep(e, vars, names, rest, m);
      } else {
        NegatedOperandStep(e, vars, names, rest, m);
      }
  }

  /** `0 `, the operand's code and `-` push the operand's negation. */
  lemma {:induction false} NegatedOperandStep(e: Expr, vars: Store, names: set<string>, rest: string, m: DcCalc.Machine)
    requires e.Operation? && e.oper == "~" && DcArith(e.left) && !e.left.Value? && e.right == Nil
    requires Names(e) <= names && DistinctHeads(names)
    requires Agree(vars, m.regs, names)
    requires NoCalls(e) && Eval(e, vars).Ok?
    ensures DcPrintable(e)
    ensures RunsTo(Operand(e), rest, m, Eval(e, vars).value.0, Eval(e, vars).value.1, names)
    decreases e, 1
  {
    var l := e.left;
    DcArithNoCalls(l);
    EvalNegation(l, Nil, vars);
    var a := Eval(l, vars).value;
    NegatedOperandText(e, rest);
    NumberRuns("0 ", 0, Operand(l) + (['-'] + rest), m);
    var m0 := DcCalc.Push(m, 0);
    var regs1 := OperandRuns(l, vars, names, ['-'] + rest, m0);
    assert m0.stack + [a.0] == m.stack + [0, a.0];
    DcCalc.RunOperator('-', rest, m.stack, 0, a.0, regs1);
    assert ExprTree.Apply("-", 0, a.0).value == -a.0;
    RunsToWitness(Operand(e), rest, m, -a.0, a.1, names, regs1);
  }

  lemma NegatedOperandText(e: Expr, rest: string)
    requires e.Operation? && e.oper == "~" && DcPrintable(e.left) && !e.left.Value?
    ensures DcPrintable(e) && Operand(e) + rest == "0 " + (Operand(e.left) + (['-'] + rest))
  {
    assert Operand(e) == Makedc(e) == "0 " + Operand(e.left) + "-";
  }

  /** Where the source's `_` works, on a number, the translation keeps it. */
  lemma NegatedNumberAsWritten(v: nat, r: Expr)
    ensures DcPrintable(Operation(Value(v), "~", r))
    ensures Makedc(Operation(Value(v), "~", r)) == NegationAsWritten(Value(v))
  {
  }

  /** The source's `_` before a loaded variable: `-x` evaluates to the
      negated value, but `dc` reads the `_` with no digits after it as the
      number 0 and then loads `x`, leaving `x` itself on top. */
  lemma NegatedVariableMisreads(x: string, vars: Store, rest: string, m: DcCalc.Machine)
    requires |x| > 0 && x[0] in m.regs
    ensures var e := Operation(Variable(x), "~", Nil);
      NoCalls(e) && Eval(e, vars).Ok? && Eval(e, vars).value.0 == -VarTree.Lookup(vars, x).0
    ensures DcCalc.Run(NegationAsWritten(Variable(x)) + rest, m) ==
      DcCalc.Run(rest, DcCalc.Machine(m.stack + [0, m.regs[x[0]]], m.regs))
  {
    assert Operand(Variable(x)) == "l" + [x[0]];
    var p := NegationAsWritten(Variable(x)) + rest;
    assert p == ['_', 'l', x[0]] + rest;
    assert p[0] == '_' && !IsDigit(p[1]);
    assert DcCalc.Run(p, m) == DcCalc.Run(p[1..], DcCalc.Push(m, 0));
    assert p[1..] == ['l', x[0]] + rest;
    DcCalc.RunLoad(x[0], rest, DcCalc.Push(m, 0));
    assert DcCalc.Push(DcCalc.Push(m, 0), m.regs[x[0]]) == DcCalc.Machine(m.stack + [0, m.regs[x[0]]], m.regs);
  }

  /** The source's `_` before a sum of two numbers: `-(a+b)` evaluates to
      -(a+b), but `dc` reads `_a` as the number -a, and the code leaves
      b - a (for `-(1+2)`, 1 instead of -3). */
  lemma NegatedSumMisreads(a: nat, b: nat, vars: Store, rest: string, m: DcCalc.Machine)
    ensures var e := Operation(Operation(Value(a), "+", Value(b)), "~", Nil);
      NoCalls(e) && Eval(e, vars).Ok? && Eval(e, vars).value.0 == -(a + b)
    ensures DcPrintable(Operation(Value(a), "+", Value(b)))
    ensures DcCalc.Run(NegationAsWritten(Operation(Value(a), "+", Value(b))) + rest, m) ==
      DcCalc.Run(rest, DcCalc.Push(m, b - a))
  {
    NegatedSumEval(a, b, vars);
    NegatedSumText(a, b, rest);
    NegatedSumRuns(a, b, rest, m);
  }

  lemma NegatedSumEval(a: nat, b: nat, vars: Store)
    ensures var e := Operation(Operation(Value(a), "+", Value(b)), "~", Nil);
      NoCalls(e) && Eval(e, vars).Ok? && Eval(e, vars).value.0 == -(a + b)
  {
    EvalBinary(Value(a), "+", Value(b), vars, (a, vars), (b, vars));
    EvalNegation(Operation(Value(a), "+", Value(b)), Nil, vars);
  }

  lemma NegatedSumText(a: nat, b: nat, rest: string)
    ensures DcPrintable(Operation(Value(a), "+", Value(b)))
    ensures NegationAsWritten(Operation(Value(a), "+", Value(b))) + rest ==
      "_" + NatToString(a) + " " + (NatToString(b) + " " + ("+" + rest))
  {
    var sum := Operation(Value(a), "+", Value(b));
    var da, db := NatToString(a) + " ", NatToString(b) + " ";
    assert Operand(Value(a)) == da && Operand(Value(b)) == db;
    assert Operand(sum) == Makedc(sum);
    assert Makedc(sum) == Operand(Value(a)) + Operand(Value(b)) + "+";
    assert NegationAsWritten(sum) == "_" + Operand(sum);
    NegatedSumRegroup(NatToString(a), NatToString(b), rest);
  }

  lemma NegatedSumRegroup(x: string, y: string, rest: string)
    ensures "_" + (x + " " + (y + " ") + "+") + rest == "_" + x + " " + (y + " " + ("+" + rest))
  {
  }

  /** `_a b +` leaves b - a. */
  lemma NegatedSumRuns(a: nat, b: nat, rest: string, m: DcCalc.Machine)
    ensures DcCalc.Run("_" + NatToString(a) + " " + (NatToString(b) + " " + ("+" + rest)), m) ==
      DcCalc.Run(rest, DcCalc.Push(m, b - a))
  {
    var tail := NatToString(b) + " " + ("+" + rest);
    DcCalc.RunNegativeNumber("_" + NatToString(a) + " " + tail, a, tail, m);
    var m1 := DcCalc.Push(m, -(a as int));
    DcCalc.RunNumber(b, "+" + rest, m1);
    assert DcCalc.Push(m1, b) == DcCalc.Machine(m.stack + [-(a as int), b], m.regs);
    assert "+" + rest == ['+'] + rest;
    DcCalc.RunOperator('+', rest, m.stack, -(a as int), b, m.regs);
    assert ExprTree.Apply("+", -(a as int), b).value == b - a;
  }

  /** Two names with one first letter share a register: `(x=v)+y`, with
      `y` not yet defined, evaluates to v + 0, but its `dc` code loads the
      v just stored in the shared register and leaves 2v (for `(ab=1)+ac`,
      2 instead of 1). */
  lemma SharedRegisterMisreads(x: string, y: string, v: nat, vars: Store, rest: string, m: DcCalc.Machine)
    requires |x| > 0 && |y| > 0 && x != y && x[0] == y[0] && y !in VarTree.Contents(vars)
    ensures var e := Operation(Operation(Variable(x), "=", Value(v)), "+", Variable(y));
      NoCalls(e) && DcPrintable(e) && Eval(e, vars).Ok? && Eval(e, vars).value.0 == v &&
      DcCalc.Run(Makedc(e) + rest, m) ==
        DcCalc.Run(rest, DcCalc.Machine(m.stack + [2 * v], m.regs[x[0] := v]))
  {
    SharedRegisterEval(x, y, v, vars);
    SharedRegisterText(x, y, v, rest);
    SharedRegisterRuns(x[0], v, rest, m);
  }

  lemma SharedRegisterText(x: string, y: string, v: nat, rest: string)
    requires |x| > 0 && |y| > 0 && x[0] == y[0]
    ensures var e := Operation(Operation(Variable(x), "=", Value(v)), "+", Variable(y));
      DcPrintable(e) &&
      Makedc(e) + rest == NatToString(v) + " " + (['s', x[0]] + (['l', x[0]] + (['l', x[0]] + (['+'] + rest))))
  {
    var set1 := Operation(Variable(x), "=", Value(v));
    var e := Operation(set1, "+", Variable(y));
    var r := x[0];
    assert Operand(Value(v)) == NatToString(v) + " ";
    assert Makedc(Variable(x)) == [r] && Operand(Variable(y)) == ['l', r];
    assert Operand(set1) == Makedc(set1);
    assert Makedc(set1) == Operand(Value(v)) + "s" + Makedc(Variable(x)) + "l" + Makedc(Variable(x));
    assert Makedc(e) == Operand(set1) + Operand(Variable(y)) + "+";
    SharedRegisterRegroup(NatToString(v), r, rest);
  }

  lemma SharedRegisterRegroup(d: string, r: char, rest: string)
    ensures d + " " + "s" + [r] + "l" + [r] + ['l', r] + "+" + rest ==
      d + " " + (['s', r] + (['l', r] + (['l', r] + (['+'] + rest))))
  {
  }

  /** `v sr lr lr +` stores v in register `r` and leaves v + v. */
  lemma SharedRegisterRuns(r: char, v: nat, rest: string, m: DcCalc.Machine)
    ensures DcCalc.Run(NatToString(v) + " " + (['s', r] + (['l', r] + (['l', r] + (['+'] + rest)))), m) ==
      DcCalc.Run(rest, DcCalc.Machine(m.stack + [2 * v], m.regs[r := v]))
  {
    DcCalc.RunNumber(v, ['s', r] + (['l', r] + (['l', r] + (['+'] + rest))), m);
    assert DcCalc.Push(m, v).stack == m.stack + [v];
    DcCalc.RunStore(r, ['l', r] + (['l', r] + (['+'] + rest)), m.stack, v, m.regs);
    var m2 := DcCalc.Machine(m.stack, m.regs[r := v]);
    DcCalc.RunLoad(r, ['l', r] + (['+'] + rest), m2);
    DcCalc.RunLoad(r, ['+'] + rest, DcCalc.Push(m2, v));
    assert DcCalc.Push(DcCalc.Push(m2, v), v) == DcCalc.Machine(m.stack + [v, v], m2.regs);
    DcCalc.RunOperator('+', rest, m.stack, v, v, m2.regs);
    assert ExprTree.Apply("+", v, v).value == 2 * v;
  }

  lemma SharedRegisterEval(x: string, y: string, v: nat, vars: Store)
    requires x != y && y !in VarTree.Contents(vars)
    ensures var e := Operation(Operation(Variable(x), "=", Value(v)), "+", Variable(y));
      NoCalls(e) && Eval(e, vars).Ok? && Eval(e, vars).value.0 == v
  {
    var set1 := Operation(Variable(x), "=", Value(v));
    var s1: Store := VarTree.Assign(vars, x, v);
    EvalAssignTo(x, Value(v), vars, (v, vars));
    var looked := VarTree.Lookup(s1, y);
    var s2: Store := looked.1;
    assert looked.0 == 0;
    EvalBinary(set1, "+", Variable(y), vars, (v, s1), (0, s2));
  }

  lemma ValueStep(e: Expr, vars: Store, names: set<string>, rest: string, m: DcCalc.Machine)
    requires e.Value? && e.value >= 0 && Agree(vars, m.regs, names)
    ensures NoCalls(e) && DcPrintable(e) && Eval(e, vars) == Ok((e.value, vars))
    ensures RunsTo(Operand(e), rest, m, e.value, vars, names)
  {
    var code := Operand(e);
    assert code == Makedc(e) == IntToString(e.value) + " " == NatToString(e.value) + " ";
    NumberRuns(code, e.value, rest, m);
    RunsFromPush(code, rest, m, e.value, vars, names);
  }

  lemma NumberRuns(code: string, v: nat, rest: string, m: DcCalc.Machine)
    requires code == NatToString(v) + " "
    ensures DcCalc.Run(code + rest, m) == DcCalc.Run(rest, DcCalc.Push(m, v))
  {
    DcCalc.RunNumber(v, rest, m);
  }

  lemma VariableStep(e: Expr, vars: Store, names: set<string>, rest: string, m: DcCalc.Machine)
    requires e.Variable? && |e.name| > 0 && e.name in names && Agree(vars, m.regs, names)
    ensures NoCalls(e) && DcPrintable(e) && Eval(e, vars).Ok?
    ensures RunsTo(Operand(e), rest, m, Eval(e, vars).value.0, Eval(e, vars).value.1, names)
  {
    var x := e.name;
    var res := Eval(e, vars).value;
    assert Operand(e) == ['l', x[0]];
    DcCalc.RunLoad(x[0], rest, m);
    assert res.0 == m.regs[x[0]] && Agree(res.1, m.regs, names);
    RunsFromPush(Operand(e), rest, m, res.0, res.1, names);
  }

  lemma NegationStep(e: Expr, vars: Store, names: set<string>, rest: string, m: DcCalc.Machine)
    requires e.Operation? && e.oper == "~" && e.left.Value? && e.left.value >= 0 && e.right == Nil
    requires Agree(vars, m.regs, names)
    ensures NoCalls(e) && DcPrintable(e) && Eval(e, vars).Ok?
    ensures RunsTo(Operand(e), rest, m, Eval(e, vars).value.0, Eval(e, vars).value.1, names)
  {
    NegationEval(e, vars);
    NegationCodeRuns(e, rest, m);
    RunsFromPush(Operand(e), rest, m, -e.left.value, vars, names);
  }

  lemma NegationCodeRuns(e: Expr, rest: string, m: DcCalc.Machine)
    requires e.Operation? && e.oper == "~" && e.left.Value? && e.left.value >= 0
    ensures DcPrintable(e)
    ensures DcCalc.Run(Operand(e) + rest, m) == DcCalc.Run(rest, DcCalc.Push(m, -e.left.value))
  {
    NegationText(e);
    NegationRuns(Operand(e), e.left.value, rest, m);
  }

  /** Code that pushes one value and leaves the registers alone runs to
      that value. */
  lemma RunsFromPush(code: string, rest: string, m: DcCalc.Machine, v: int, vars: Store, names: set<string>)
    requires Agree(vars, m.regs, names)
    requires DcCalc.Run(code + rest, m) == DcCalc.Run(rest, DcCalc.Push(m, v))
    ensures RunsTo(code, rest, m, v, vars, names)
  {
    RunsToWitness(code, rest, m, v, vars, names, m.regs);
  }

  /** The one register state that shows `RunsTo`. */
  lemma RunsToWitness(code: string, rest: string, m: DcCalc.Machine, v: int, vars': Store,
                      names: set<string>, regs': map<char, int>)
    requires Agree(vars', regs', names)
    requires DcCalc.Run(code + rest, m) == DcCalc.Run(rest, DcCalc.Machine(m.stack + [v], regs'))
    ensures RunsTo(code, rest, m, v, vars', names)
  {
  }

  lemma NegationRuns(code: string, v: nat, rest: string, m: DcCalc.Machine)
    requires code == "_" + NatToString(v) + " "
    ensures DcCalc.Run(code + rest, m) == DcCalc.Run(rest, DcCalc.Push(m, -(v as int)))
  {
    DcCalc.RunNegativeDigits(code + rest, NatToString(v), rest, m);
    DigitsValueOfNatToString(v);
  }

  lemma NegationText(e: Expr)
    requires e.Operation? && e.oper == "~" && e.left.Value? && e.left.value >= 0
    ensures DcPrintable(e) && Operand(e) == "_" + NatToString(e.left.value) + " "
  {
    var v := e.left.value;
    assert Operand(e.left) == IntToString(v) + " " == NatToString(v) + " ";
    assert Operand(e) == Makedc(e) == "_" + Operand(e.left);
  }

  lemma NegationEval(e: Expr, vars: Store)
    requires e.Operation? && e.oper == "~" && e.left.Value? && e.right == Nil
    ensures NoCalls(e) && Eval(e, vars) == Ok((-e.left.value, vars))
  {
  }

  /** Evaluating an arithmetic operation: left operand, then right, then
      the operator. */
  lemma EvalArithmetic(l: Expr, op: string, r: Expr, vars: Store)
    requires IsArithmetic(op) && NoCalls(l) && NoCalls(r) && Eval(Operation(l, op, r), vars).Ok?
    ensures Eval(l, vars).Ok? && Eval(r, Eval(l, vars).value.1).Ok?
    ensures var a := Eval(l, vars).value;
      var b := Eval(r, a.1).value;
      Apply(op, a.0, b.0).Ok? && Eval(Operation(l, op, r), vars).value == (Apply(op, a.0, b.0).value, b.1)
  {
    assert op != "~" && op != "=";
  }

  lemma ArithmeticText(e: Expr, rest: string)
    requires e.Operation? && IsArithmetic(e.oper) && DcPrintable(e.left) && DcPrintable(e.right)
    ensures DcPrintable(e) && |e.oper| == 1 && IsArithChar(e.oper[0])
    ensures Operand(e) + rest == Operand(e.left) + (Operand(e.right) + ([e.oper[0]] + rest))
  {
    var l, op, r := e.left, e.oper, e.right;
    assert op != "~" && op != "=" && !IsRelational(op);
    assert op == [op[0]];
    var a, b := Operand(l), Operand(r);
    assert Operand(e) == Makedc(e) == a + b + op;
    Regroup(a, b, op, rest);
  }

  lemma Regroup(a: string, b: string, op: string, rest: string)
    requires |op| == 1
    ensures a + b + op + rest == a + (b + ([op[0]] + rest))
  {
    assert op == [op[0]];
  }

  lemma {:induction false} ArithmeticStep(e: Expr, vars: Store, names: set<string>, rest: string, m: DcCalc.Machine)
    requires e.Operation? && IsArithmetic(e.oper) && DcArith(e.left) && DcArith(e.right)
    requires Names(e) <= names && DistinctHeads(names)
    requires Agree(vars, m.regs, names)
    requires NoCalls(e) && Eval(e, vars).Ok?
    ensures DcPrintable(e)
    ensures RunsTo(Operand(e), rest, m, Eval(e, vars).value.0, Eval(e, vars).value.1, names)
    decreases e, 1
  {
    var l, op, r := e.left, e.oper, e.right;
    DcArithNoCalls(l);
    DcArithNoCalls(r);
    EvalArithmetic(l, op, r, vars);
    ArithmeticText(e, rest);
    var a := Eval(l, vars).value;
    var b := Eval(r, a.1).value;
    var c := op[0];
    var regs2 := OperandsStep(e, c, vars, names, rest, m);
    DcCalc.RunOperator(c, rest, m.stack, a.0, b.0, regs2);
    assert DcCalc.Run(Operand(e) + rest, m) ==
      DcCalc.Run(rest, DcCalc.Machine(m.stack + [Eval(e, vars).value.0], regs2));
  }

  /** Running the code of the two operands of `e` pushes both values. */
  lemma {:induction false} OperandsStep(e: Expr, c: char, vars: Store, names: set<string>,
                                        rest: string, m: DcCalc.Machine)
    returns (regs2: map<char, int>)
    requires e.Operation? && DcArith(e.left) && DcArith(e.right)
    requires NoCalls(e.left) && NoCalls(e.right)
    requires Names(e.left) <= names && Names(e.right) <= names && DistinctHeads(names)
    requires Agree(vars, m.regs, names)
    requires Eval(e.left, vars).Ok? && Eval(e.right, Eval(e.left, vars).value.1).Ok?
    ensures DcPrintable(e.left) && DcPrintable(e.right)
    ensures var a := Eval(e.left, vars).value;
      var b := Eval(e.right, a.1).value;
      Agree(b.1, regs2, names) &&
      DcCalc.Run(Operand(e.left) + (Operand(e.right) + ([c] + rest)), m) ==
      DcCalc.Run([c] + rest, DcCalc.Machine(m.stack + [a.0, b.0], regs2))
    decreases e, 0
  {
    var l, r := e.left, e.right;
    DcArithNoCalls(l);
    DcArithNoCalls(r);
    var a := Eval(l, vars).value;
    var b := Eval(r, a.1).value;
    var tail := Operand(r) + ([c] + rest);
    var regs1 := OperandRuns(l, vars, names, tail, m);
    var m1 := DcCalc.Machine(m.stack + [a.0], regs1);
    regs2 := OperandRuns(r, a.1, names, [c] + rest, m1);
    assert m1.stack + [b.0] == m.stack + [a.0, b.0];
  }

  /** `MakedcMatchesEval` with the register state it promises named. */
  lemma {:induction false} OperandRuns(e: Expr, vars: Store, names: set<string>, rest: string, m: DcCalc.Machine)
    returns (regs': map<char, int>)
    requires DcArith(e) && NoCalls(e) && Names(e) <= names && DistinctHeads(names)
    requires Agree(vars, m.regs, names) && Eval(e, vars).Ok?
    ensures DcPrintable(e)
    ensures var res := Eval(e, vars).value;
      Agree(res.1, regs', names) &&
      DcCalc.Run(Operand(e) + rest, m) == DcCalc.Run(rest, DcCalc.Machine(m.stack + [res.0], regs'))
    decreases e, 3
  {
    MakedcMatchesEval(e, vars, names, rest, m);
    var res := Eval(e, vars).value;
    regs' :| Agree(res.1, regs', names) &&
      DcCalc.Run(Operand(e) + rest, m) == DcCalc.Run(rest, DcCalc.Machine(m.stack + [res.0], regs'));
  }

  lemma AssignText(e: Expr, rest: string)
    requires e.Operation? && e.oper == "=" && e.left.Variable? && |e.left.name| > 0 && DcPrintable(e.right)
    ensures DcPrintable(e)
    ensures var x0 := e.left.name[0];
      Operand(e) + rest == Operand(e.right) + (['s', x0] + (['l', x0] + rest))
  {
    var x0 := e.left.name[0];
    assert Makedc(e.left) == [x0];
    assert Operand(e) == Operand(e.right) + "s" + [x0] + "l" + [x0];
  }

  lemma EvalAssign(e: Expr, vars: Store)
    requires e.Operation? && e.oper == "=" && e.left.Variable? && NoCalls(e) && Eval(e, vars).Ok?
    ensures Eval(e.right, vars).Ok?
    ensures var b := Eval(e.right, vars).value;
      Eval(e, vars).value == (b.0, VarTree.Assign(b.1, e.left.name, b.0))
  {
  }

  lemma {:induction false} AssignStep(e: Expr, vars: Store, names: set<string>, rest: string, m: DcCalc.Machine)
    requires e.Operation? && e.oper == "=" && e.left.Variable? && |e.left.name| > 0 && DcArith(e.right)
    requires Names(e) <= names && DistinctHeads(names)
    requires Agree(vars, m.regs, names)
    requires NoCalls(e) && Eval(e, vars).Ok?
    ensures DcPrintable(e)
    ensures RunsTo(Operand(e), rest, m, Eval(e, vars).value.0, Eval(e, vars).value.1, names)
    decreases e, 1
  {
    var x, r := e.left.name, e.right;
    DcArithNoCalls(r);
    EvalAssign(e, vars);
    AssignText(e, rest);
    var b := Eval(r, vars).value;
    var tail := ['s', x[0]] + (['l', x[0]] + rest);
    assert x in Names(e);
    MakedcMatchesEval(r, vars, names, tail, m);
    var regs1 :| Agree(b.1, regs1, names) &&
      DcCalc.Run(Operand(r) + tail, m) == DcCalc.Run(tail, DcCalc.Machine(m.stack + [b.0], regs1));
    DcCalc.RunStore(x[0], ['l', x[0]] + rest, m.stack, b.0, regs1);
    var regs2 := regs1[x[0] := b.0];
    DcCalc.RunLoad(x[0], rest, DcCalc.Machine(m.stack, regs2));
    AgreeAfterAssign(b.1, regs1, names, x, b.0);
    assert DcCalc.Run(Operand(e) + rest, m) ==
      DcCalc.Run(rest, DcCalc.Machine(m.stack + [b.0], regs2));
  }

  // ----- Conditionals and the driver's expected results -----

  /** A conditional evaluates its test and then only the true branch when
      the test is non-zero: the false branch, whatever it is, is never
      evaluated. */
  lemma TrueTestIgnoresFalseBranch(t: Expr, a: Expr, b1: Expr, b2: Expr, vars: Store)
    requires NoCalls(t) && NoCalls(a) && NoCalls(b1) && NoCalls(b2)
    requires Eval(t, vars).Ok? && Eval(t, vars).value.0 != 0
    ensures Eval(Conditional(t, a, b1), vars) == Eval(a, Eval(t, vars).value.1)
    ensures Eval(Conditional(t, a, b1), vars) == Eval(Conditional(t, a, b2), vars)
  {
  }

  /** When the test is zero only the false branch is evaluated. */
  lemma FalseTestIgnoresTrueBranch(t: Expr, a1: Expr, a2: Expr, b: Expr, vars: Store)
    requires NoCalls(t) && NoCalls(a1) && NoCalls(a2) && NoCalls(b)
    requires Eval(t, vars).Ok? && Eval(t, vars).value.0 == 0
    ensures Eval(Conditional(t, a1, b), vars) == Eval(b, Eval(t, vars).value.1)
    ensures Eval(Conditional(t, a1, b), vars) == Eval(Conditional(t, a2, b), vars)
  {
  }

  /** One step of `evaluate` on an assignment to a variable whose right
      side evaluated to `rv`. */
  lemma EvalAssignTo(x: string, r: Expr, vars: Store, rv: (int, Store))
    requires NoCalls(r) && Eval(r, vars) == Ok(rv)
    ensures var s: Store := VarTree.Assign(rv.1, x, rv.0);
      Eval(Operation(Variable(x), "=", r), vars) == Ok((rv.0, s))
  {
  }

  /** One step of `evaluate` on an arithmetic operation whose operands
      evaluated to `lv` and then `rv`. */
  lemma EvalBinary(l: Expr, op: string, r: Expr, vars: Store, lv: (int, Store), rv: (int, Store))
    requires IsArithmetic(op) && NoCalls(l) && NoCalls(r)
    requires Eval(l, vars) == Ok(lv) && Eval(r, lv.1) == Ok(rv) && Apply(op, lv.0, rv.0).Ok?
    ensures Eval(Operation(l, op, r), vars) == Ok((Apply(op, lv.0, rv.0).value, rv.1))
  {
    assert op != "~" && op != "=";
  }

  /** `E=F+(F=1)` with `F` not yet defined gives 1: the left operand `F` is
      read, as 0, before the assignment inside the right operand runs.
      Afterwards both `E` and `F` hold 1. */
  lemma ReadBeforeAssign(vars: Store)
    requires "F" !in VarTree.Contents(vars)
    ensures var r := Eval(Operation(Variable("E"), "=",
                           Operation(Variable("F"), "+", Operation(Variable("F"), "=", Value(1)))), vars);
      r.Ok? && r.value.0 == 1 &&
      VarTree.Contents(r.value.1) == VarTree.Contents(vars)["F" := 1]["E" := 1]
  {
    var sum := Operation(Variable("F"), "+", Operation(Variable("F"), "=", Value(1)));
    var s2 := ReadBeforeAssignSum(vars);
    EvalAssignTo("E", sum, vars, (1, s2));
  }

  /** The right side `F+(F=1)` of the example above. */
  lemma ReadBeforeAssignSum(vars: Store) returns (s2: Store)
    requires "F" !in VarTree.Contents(vars)
    ensures Eval(Operation(Variable("F"), "+", Operation(Variable("F"), "=", Value(1))), vars) == Ok((1, s2))
    ensures VarTree.Contents(s2) == VarTree.Contents(vars)["F" := 1]
  {
    var s1: Store := VarTree.Lookup(vars, "F").1;
    assert Eval(Variable("F"), vars) == Ok((0, s1));
    assert Eval(Value(1), s1) == Ok((1, s1));
    s2 := VarTree.Assign(s1, "F", 1);
    EvalAssignTo("F", Value(1), s1, (1, s1));
    assert Apply("+", 0, 1) == Ok(1);
    EvalBinary(Variable("F"), "+", Operation(Variable("F"), "=", Value(1)), vars, (0, s1), (1, s2));
  }

  /** `E=(F=1)+1` gives 2, and leaves `E` holding 2 and `F` holding 1. */
  lemma AssignInsideSum(vars: Store)
    ensures var r := Eval(Operation(Variable("E"), "=",
                           Operation(Operation(Variable("F"), "=", Value(1)), "+", Value(1))), vars);
      r.Ok? && r.value.0 == 2 &&
      VarTree.Contents(r.value.1) == VarTree.Contents(vars)["F" := 1]["E" := 2]
  {
    var s1: Store := VarTree.Assign(vars, "F", 1);
    var inner := Operation(Variable("F"), "=", Value(1));
    assert Eval(Value(1), vars) == Ok((1, vars));
    EvalAssignTo("F", Value(1), vars, (1, vars));
    assert Eval(Value(1), s1) == Ok((1, s1));
    assert Apply("+", 1, 1) == Ok(2);
    EvalBinary(inner, "+", Value(1), vars, (1, s1), (1, s1));
    EvalAssignTo("E", Operation(inner, "+", Value(1)), vars, (2, s1));
  }

  /** `C=D=A` with `A` holding 5 gives 5 and leaves `C` and `D` both 5:
      `=` groups to the right. */
  lemma ChainedAssign(vars: Store)
    requires "A" in VarTree.Contents(vars) && VarTree.Contents(vars)["A"] == 5
    ensures var r := Eval(Operation(Variable("C"), "=", Operation(Variable("D"), "=", Variable("A"))), vars);
      r.Ok? && r.value.0 == 5 &&
      VarTree.Contents(r.value.1) == VarTree.Contents(vars)["D" := 5]["C" := 5]
  {
    assert Eval(Variable("A"), vars) == Ok((5, vars));
    var s1: Store := VarTree.Assign(vars, "D", 5);
    EvalAssignTo("D", Variable("A"), vars, (5, vars));
    EvalAssignTo("C", Operation(Variable("D"), "=", Variable("A")), vars, (5, s1));
  }
}
