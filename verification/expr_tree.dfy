/** The expression tree of Homeworks 5 and 6 (`exprtree.h`), the function
    table it is evaluated against, and the integer operations its
    `Operation` nodes apply.

    A C++ node is reached through an `ExprNode*` that may be null; `Nil`
    stands for the null pointer, and the other five constructors are the
    five node kinds. Nodes are immutable values, as the header promises. */
module ExprTree {
  import opened IntMath
  import opened Outcomes
  import VarTree

  /** The number of argument slots of a call and of parameter slots of a
      function definition. */
  const MaxArity: nat := 10

  datatype Expr =
    | Nil
    | Value(value: int)
    | Variable(name: string)
    | Operation(left: Expr, oper: string, right: Expr)
    | Conditional(test: Expr, trueCase: Expr, falseCase: Expr)
    | Function(name: string, params: seq<Expr>)

  /** Unary minus as the Homework 7 parser builds it: `e * -1`. */
  function Negated(e: Expr): Expr {
    Operation(e, "*", Value(-1))
  }

  /** A user function: its parameter names (unused slots hold `""`) and its
      body. */
  datatype FunDef = FunDef(name: string, parameter: seq<string>, functionBody: Expr)

  /** The ten parameter slots of a definition: the names given, then `""`. */
  function PadParams(names: seq<string>): (ps: seq<string>)
    requires |names| <= MaxArity
    ensures |ps| == MaxArity && ps[..|names|] == names
    ensures forall i :: |names| <= i < MaxArity ==> ps[i] == ""
  {
    names + seq(MaxArity - |names|, _ => "")
  }

  /** `FunctionDef`: the table from function names to definitions. */
  type FunTable = map<string, FunDef>

  /** The `Function` constructor copies all ten argument slots unchanged. */
  function MakeCall(name: string, args: seq<Expr>): (e: Expr)
    requires |args| == MaxArity
    ensures e.Function? && e.name == name
    ensures |e.params| == MaxArity
    ensures forall i :: 0 <= i < MaxArity ==> e.params[i] == args[i]
  {
    Function(name, args)
  }

  // ----- Integer operations -----

  predicate IsArithmetic(op: string) {
    op == "+" || op == "-" || op == "*" || op == "/" || op == "%"
  }

  predicate IsRelational(op: string) {
    op == ">" || op == "<" || op == ">=" || op == "<=" || op == "==" || op == "!="
  }

  /** A C++ `bool` converted to `int`. */
  function BoolToInt(b: bool): int {
    if b then 1 else 0
  }

  /** The value of `a op b` for the arithmetic and relational operators of
      `Operation::evaluate`: C++ truncating `/` and `%`, which trap on a
      zero divisor, and comparisons that give 1 or 0. */
  function Apply(op: string, a: int, b: int): (r: Result<int>)
    requires IsArithmetic(op) || IsRelational(op)
    ensures r.Err? <==> (op == "/" || op == "%") && b == 0
    ensures r.Err? ==> r.fault == DivideByZero
    ensures r.Ok? && IsRelational(op) ==> r.value == 0 || r.value == 1
  {
    match op
    case "+" => Ok(a + b)
    case "-" => Ok(a - b)
    case "*" => Ok(a * b)
    case "/" => if b == 0 then Err(DivideByZero) else Ok(TDiv(a, b))
    case "%" => if b == 0 then Err(DivideByZero) else Ok(TMod(a, b))
    case ">" => Ok(BoolToInt(a > b))
    case "<" => Ok(BoolToInt(a < b))
    case ">=" => Ok(BoolToInt(a >= b))
    case "<=" => Ok(BoolToInt(a <= b))
    case "==" => Ok(BoolToInt(a == b))
    case _ => Ok(BoolToInt(a != b))
  }

  /** A one-character arithmetic operator, as Homework 4's postfix tokens
      and `dc` programs spell it. */
  predicate IsArithChar(c: char) {
    c == '+' || c == '-' || c == '*' || c == '/' || c == '%'
  }

  /** The `switch` on the operator character of Homework 4's
      `evaluatePostfix`. */
  function ApplyChar(c: char, a: int, b: int): Result<int>
    requires IsArithChar(c)
  {
    match c
    case '+' => Ok(a + b)
    case '-' => Ok(a - b)
    case '*' => Ok(a * b)
    case '/' => if b == 0 then Err(DivideByZero) else Ok(TDiv(a, b))
    case _ => if b == 0 then Err(DivideByZero) else Ok(TMod(a, b))
  }

  /** The character-keyed operators are the tree's operators. */
  lemma ApplyCharIsApply(c: char, a: int, b: int)
    requires IsArithChar(c)
    ensures IsArithmetic([c]) && ApplyChar(c, a, b) == Apply([c], a, b)
  {
    assert IsArithmetic([c]);
  }

  /** A relational operator yields 1 exactly when the comparison holds. */
  lemma RelationalMeaning(op: string, a: int, b: int)
    requires IsRelational(op)
    ensures Apply(op, a, b).Ok?
    ensures Apply(op, a, b).value == 1 <==>
      (op == ">" && a > b) || (op == "<" && a < b) || (op == ">=" && a >= b) ||
      (op == "<=" && a <= b) || (op == "==" && a == b) || (op == "!=" && a != b)
    ensures Apply(op, a, b).value == 0 || Apply(op, a, b).value == 1
  {
  }

  // ----- Argument slots -----

  /** Argument slot `i` of a call; a slot the sequence does not hold is
      null. */
  function Slot(ps: seq<Expr>, i: nat): Expr {
    if i < |ps| then ps[i] else Nil
  }

  /** The number of argument slots, starting at `i`, before the first null
      one, looking at no more than the ten slots a call has. */
  function FilledFrom(ps: seq<Expr>, i: nat): (n: nat)
    ensures i <= n && (n > i ==> n <= |ps| && n <= MaxArity)
    ensures forall j :: i <= j < n ==> Slot(ps, j) != Nil
    ensures n < MaxArity ==> Slot(ps, n) == Nil
    decreases MaxArity - i
  {
    if i < MaxArity && Slot(ps, i) != Nil then FilledFrom(ps, i + 1) else i
  }

  /** The arguments a call actually passes. */
  function Filled(ps: seq<Expr>): (n: nat)
    ensures n <= |ps| && n <= MaxArity
    ensures forall j :: 0 <= j < n ==> ps[j] != Nil
    ensures n < MaxArity ==> Slot(ps, n) == Nil
  {
    var n := FilledFrom(ps, 0);
    assert forall j :: 0 <= j < n ==> Slot(ps, j) != Nil;
    n
  }

  // ----- Text of a tree (Homework 6 `toString`) -----

  /** The nodes `toString` can print without dereferencing a null pointer:
      every operand is present, and a call prints its arguments up to its
      first null slot. */
  predicate Printable(e: Expr) {
    match e
    case Nil => false
    case Value(_) => true
    case Variable(_) => true
    case Operation(l, _, r) => Printable(l) && Printable(r)
    case Conditional(t, a, b) => Printable(t) && Printable(a) && Printable(b)
    case Function(_, ps) => forall i :: 0 <= i < Filled(ps) ==> Printable(ps[i])
  }

  /** `toString` of Homework 6: operands before the operator, separated by
      spaces; a conditional fully parenthesised; a call as its name and the
      parenthesised text of each argument, comma separated. This is the
      corrected `Function::toString` (see `ArgsTextAsWritten`). */
  function ToString(e: Expr): string
    requires Printable(e)
    decreases e
  {
    match e
    case Value(v) => IntToString(v)
    case Variable(n) => n
    case Operation(l, op, r) => ToString(l) + " " + ToString(r) + " " + op
    case Conditional(t, a, b) =>
      "((" + ToString(t) + ") ? (" + ToString(a) + ") : (" + ToString(b) + "))"
    case Function(n, ps) => n + "(" + ArgsText(ps, 0, Filled(ps)) + ")"
  }

  /** The argument list of a call: slots `i` up to `n`, each in parentheses,
      with a comma after every argument that has a successor. */
  function ArgsText(ps: seq<Expr>, i: nat, n: nat): string
    requires i <= n <= |ps|
    requires forall j :: i <= j < n ==> Printable(ps[j])
    decreases ps, n - i
  {
    if i == n then ""
    else "(" + ToString(ps[i]) + ")" + (if i + 1 < n then "," else "") + ArgsText(ps, i + 1, n)
  }

  /** The argument loop of `Function::toString` as the source writes it:
      after printing argument `i` it tests slot `i + 1` to decide on a
      comma. For `i == 9` that slot is one past the end of the ten-slot
      array. */
  function ArgsTextAsWritten(ps: seq<Expr>, i: nat): Result<string>
    requires i <= Filled(ps)
    requires forall j :: i <= j < Filled(ps) ==> Printable(ps[j])
    decreases MaxArity - i
  {
    if i >= MaxArity || Slot(ps, i) == Nil then Ok("")
    else if i + 1 >= MaxArity then Err(ArrayOverrun)
    else
      var rest :- ArgsTextAsWritten(ps, i + 1);
      Ok("(" + ToString(ps[i]) + ")" + (if Slot(ps, i + 1) != Nil then "," else "") + rest)
  }

  /** A call whose ten slots are all filled makes the as-written loop read
      past the array. */
  lemma {:induction false} FullCallOverruns(ps: seq<Expr>, i: nat)
    requires Filled(ps) == MaxArity && i < MaxArity
    requires forall j :: 0 <= j < MaxArity ==> Printable(ps[j])
    ensures ArgsTextAsWritten(ps, i) == Err(ArrayOverrun)
    decreases MaxArity - i
  {
    if i + 1 < MaxArity {
      FullCallOverruns(ps, i + 1);
    }
  }

  /** The input that shows it: `f(1,1,1,1,1,1,1,1,1,1)`. */
  lemma TenArgumentsOverrun()
    ensures var ps := seq(MaxArity, _ => Value(1));
      Filled(ps) == MaxArity && ArgsTextAsWritten(ps, 0) == Err(ArrayOverrun)
  {
    var ps := seq(MaxArity, _ => Value(1));
    assert forall j :: 0 <= j < MaxArity ==> Slot(ps, j) == Value(1);
    FilledAll(ps, 0);
    FullCallOverruns(ps, 0);
  }

  lemma {:induction false} FilledAll(ps: seq<Expr>, i: nat)
    requires |ps| == MaxArity && i <= MaxArity
    requires forall j :: 0 <= j < MaxArity ==> ps[j] != Nil
    ensures FilledFrom(ps, i) == MaxArity
    decreases MaxArity - i
  {
    if i < MaxArity {
      FilledAll(ps, i + 1);
    }
  }

  /** With fewer than ten arguments the as-written loop and the corrected
      one print the same text. */
  lemma {:induction false} AsWrittenAgreesBelowTen(ps: seq<Expr>, i: nat)
    requires Filled(ps) < MaxArity && i <= Filled(ps)
    requires forall j :: i <= j < Filled(ps) ==> Printable(ps[j])
    ensures ArgsTextAsWritten(ps, i) == Ok(ArgsText(ps, i, Filled(ps)))
    decreases Filled(ps) - i
  {
    if i < Filled(ps) {
      AsWrittenAgreesBelowTen(ps, i + 1);
    }
  }

  /** The parenthesised text of each argument from `i` up to `n`. */
  function Pieces(ps: seq<Expr>, i: nat, n: nat): (r: seq<string>)
    requires i <= n <= |ps|
    requires forall j :: i <= j < n ==> Printable(ps[j])
    ensures |r| == n - i
    decreases n - i
  {
    if i == n then [] else ["(" + ToString(ps[i]) + ")"] + Pieces(ps, i + 1, n)
  }

  /** Strings joined with commas between neighbours. */
  function JoinComma(xs: seq<string>): string {
    if |xs| == 0 then ""
    else if |xs| == 1 then xs[0]
    else xs[0] + "," + JoinComma(xs[1..])
  }

  /** The corrected loop prints exactly the comma-separated list of the
      argument texts, for every number of arguments up to and including a
      full call of ten. */
  lemma {:induction false} ArgsTextIsJoin(ps: seq<Expr>, i: nat, n: nat)
    requires i <= n <= |ps|
    requires forall j :: i <= j < n ==> Printable(ps[j])
    ensures ArgsText(ps, i, n) == JoinComma(Pieces(ps, i, n))
    decreases n - i
  {
    if i < n {
      ArgsTextIsJoin(ps, i + 1, n);
      var rest := Pieces(ps, i + 1, n);
      assert Pieces(ps, i, n)[1..] == rest;
    }
  }
}
