/** How the Homework 4 converter orders what it emits, and what the
    evaluator makes of it: precedence and left grouping of the binary
    operators, the two places a leading `-` can stand, and the driver's
    `Age = 2+3*Five`. */
module PostfixExamples {
  import opened Outcomes
  import opened Tokens
  import opened Postfix
  import VarTree
  import ExprTree
  import Lexer
  import IntMath

  predicate IsAdditive(c: char) {
    c == '+' || c == '-'
  }

  predicate IsMultiplicative(c: char) {
    c == '*' || c == '/' || c == '%'
  }

  /** The five tokens `a o1 b o2 c`. */
  function Infix3(a: Token, o1: char, b: Token, o2: char, c: Token): seq<Token> {
    [a, Oper([o1]), b, Oper([o2]), c]
  }

  // ----- One step of each converter function -----

  lemma ProdStart(toks: seq<Token>, pos: nat)
    requires pos < |toks| && Plain(toks[pos])
    ensures Prod(toks, pos) == ProdLoop(toks, pos + 1, [toks[pos]])
  {
  }

  lemma ProdNext(toks: seq<Token>, pos: nat, acc: seq<Token>)
    requires pos + 1 < |toks| && IsMultiplicative(CharAt(toks, pos)) && Plain(toks[pos + 1])
    ensures ProdLoop(toks, pos, acc) ==
      ProdLoop(toks, pos + 2, acc + [toks[pos + 1]] + [Oper([CharAt(toks, pos)])])
  {
  }

  lemma ProdStops(toks: seq<Token>, pos: nat, acc: seq<Token>)
    requires pos <= |toks| && !IsMultiplicative(CharAt(toks, pos))
    ensures ProdLoop(toks, pos, acc) == Ok((acc, pos))
  {
  }

  lemma SumStart(toks: seq<Token>, pos: nat, p: (seq<Token>, nat))
    requires pos < |toks| && CharAt(toks, pos) != '-' && Prod(toks, pos) == Ok(p)
    ensures p.1 <= |toks| && Sum(toks, pos) == SumLoop(toks, p.1, p.0)
  {
  }

  lemma SumNegated(toks: seq<Token>, pos: nat, p: (seq<Token>, nat))
    requires pos < |toks| && CharAt(toks, pos) == '-' && Prod(toks, pos + 1) == Ok(p)
    ensures p.1 <= |toks| && Sum(toks, pos) == SumLoop(toks, p.1, p.0 + [Oper("~")])
  {
  }

  lemma SumNext(toks: seq<Token>, pos: nat, acc: seq<Token>, p: (seq<Token>, nat))
    requires pos < |toks| && IsAdditive(CharAt(toks, pos)) && Prod(toks, pos + 1) == Ok(p)
    ensures p.1 <= |toks| && SumLoop(toks, pos, acc) == SumLoop(toks, p.1, acc + p.0 + [Oper([CharAt(toks, pos)])])
  {
  }

  lemma AssignmentStart(toks: seq<Token>, pos: nat, s: (seq<Token>, nat))
    requires pos < |toks| && CharAt(toks, pos) != '-' && Sum(toks, pos) == Ok(s)
    ensures s.1 <= |toks| && Assignment(toks, pos) == AssignLoop(toks, s.1, s.0)
  {
  }

  lemma SumStops(toks: seq<Token>, pos: nat, acc: seq<Token>)
    requires pos <= |toks| && !IsAdditive(CharAt(toks, pos))
    ensures SumLoop(toks, pos, acc) == Ok((acc, pos))
  {
  }

  lemma AssignNext(toks: seq<Token>, pos: nat, acc: seq<Token>, r: (seq<Token>, nat))
    requires pos < |toks| && CharAt(toks, pos) == '=' && Assignment(toks, pos + 1) == Ok(r)
    ensures r.1 <= |toks| && AssignLoop(toks, pos, acc) == AssignLoop(toks, r.1, acc + r.0 + [Oper("=")])
  {
  }

  lemma AssignmentNegated(toks: seq<Token>, s: (seq<Token>, nat))
    requires 0 < |toks| && CharAt(toks, 0) == '-' && Sum(toks, 1) == Ok(s)
    ensures s.1 <= |toks| && Assignment(toks, 0) == AssignLoop(toks, s.1, s.0 + [Oper("~")])
  {
  }

  lemma WholeInput(toks: seq<Token>, out: seq<Token>)
    requires Assignment(toks, 0) == Ok((out, |toks|))
    ensures ToPostfix(toks) == Ok(out)
  {
  }

  /** A converted sum that spans the whole input is the whole conversion. */
  lemma SumIsWhole(toks: seq<Token>, out: seq<Token>)
    requires 0 < |toks| && CharAt(toks, 0) != '-' && Sum(toks, 0) == Ok((out, |toks|))
    ensures ToPostfix(toks) == Ok(out)
  {
    LoopsStop(toks, |toks|, out);
    AssignmentStart(toks, 0, (out, |toks|));
    WholeInput(toks, out);
  }

  // ----- Precedence and grouping -----

  /** `toks` is `a o1 b o2 c` with three plain operands. */
  predicate Shape3(toks: seq<Token>, o1: char, o2: char) {
    |toks| == 5 && toks[1] == Oper([o1]) && toks[3] == Oper([o2]) &&
    Plain(toks[0]) && Plain(toks[2]) && Plain(toks[4])
  }

  lemma Shape3Chars(toks: seq<Token>, o1: char, o2: char)
    requires Shape3(toks, o1, o2)
    ensures CharAt(toks, 0) == '\0' && CharAt(toks, 1) == o1 && CharAt(toks, 3) == o2
  {
  }

  /** `* / %` bind tighter than `+ -`: `a + b * c` becomes `a b c * +`. */
  lemma ProductInsideSum(a: Token, o1: char, b: Token, o2: char, c: Token)
    requires Plain(a) && Plain(b) && Plain(c)
    requires IsAdditive(o1) && IsMultiplicative(o2)
    ensures ToPostfix(Infix3(a, o1, b, o2, c)) == Ok([a, b, c, Oper([o2]), Oper([o1])])
  {
    var toks := Infix3(a, o1, b, o2, c);
    ProductInsideSumLayout(toks, o1, o2);
    SumIsWhole(toks, [a, b, c, Oper([o2]), Oper([o1])]);
  }

  lemma ProductInsideSumLayout(toks: seq<Token>, o1: char, o2: char)
    requires Shape3(toks, o1, o2) && IsAdditive(o1) && IsMultiplicative(o2)
    ensures CharAt(toks, 0) != '-'
    ensures Sum(toks, 0) == Ok(([toks[0], toks[2], toks[4], Oper([o2]), Oper([o1])], 5))
  {
    var a, b, c := toks[0], toks[2], toks[4];
    var bc := [b] + [c] + [Oper([o2])];
    var out := [a] + bc + [Oper([o1])];
    Shape3Chars(toks, o1, o2);
    ProdStart(toks, 0);
    ProdStops(toks, 1, [a]);
    SumStart(toks, 0, ([a], 1));
    ProdStart(toks, 2);
    ProdNext(toks, 3, [b]);
    LoopsStop(toks, 5, bc);
    SumNext(toks, 1, [a], (bc, 5));
    LoopsStop(toks, 5, out);
    assert out == [a, b, c, Oper([o2]), Oper([o1])];
  }

  /** ... also when they come first: `a * b + c` becomes `a b * c +`. */
  lemma ProductBeforeSum(a: Token, o1: char, b: Token, o2: char, c: Token)
    requires Plain(a) && Plain(b) && Plain(c)
    requires IsMultiplicative(o1) && IsAdditive(o2)
    ensures ToPostfix(Infix3(a, o1, b, o2, c)) == Ok([a, b, Oper([o1]), c, Oper([o2])])
  {
    var toks := Infix3(a, o1, b, o2, c);
    ProductBeforeSumLayout(toks, o1, o2);
    SumIsWhole(toks, [a, b, Oper([o1]), c, Oper([o2])]);
  }

  lemma ProductBeforeSumLayout(toks: seq<Token>, o1: char, o2: char)
    requires Shape3(toks, o1, o2) && IsMultiplicative(o1) && IsAdditive(o2)
    ensures CharAt(toks, 0) != '-'
    ensures Sum(toks, 0) == Ok(([toks[0], toks[2], Oper([o1]), toks[4], Oper([o2])], 5))
  {
    var a, b, c := toks[0], toks[2], toks[4];
    var ab := [a] + [b] + [Oper([o1])];
    var out := ab + [c] + [Oper([o2])];
    Shape3Chars(toks, o1, o2);
    ProdStart(toks, 0);
    ProdNext(toks, 1, [a]);
    ProdStops(toks, 3, ab);
    SumStart(toks, 0, (ab, 3));
    ProdStart(toks, 4);
    LoopsStop(toks, 5, [c]);
    SumNext(toks, 3, ab, ([c], 5));
    LoopsStop(toks, 5, out);
    assert out == [a, b, Oper([o1]), c, Oper([o2])];
  }

  /** `+` and `-` group to the left: `a - b + c` becomes `a b - c +`. */
  lemma SumsGroupLeft(a: Token, o1: char, b: Token, o2: char, c: Token)
    requires Plain(a) && Plain(b) && Plain(c)
    requires IsAdditive(o1) && IsAdditive(o2)
    ensures ToPostfix(Infix3(a, o1, b, o2, c)) == Ok([a, b, Oper([o1]), c, Oper([o2])])
  {
    var toks := Infix3(a, o1, b, o2, c);
    SumsGroupLeftLayout(toks, o1, o2);
    SumIsWhole(toks, [a, b, Oper([o1]), c, Oper([o2])]);
  }

  lemma SumsGroupLeftLayout(toks: seq<Token>, o1: char, o2: char)
    requires Shape3(toks, o1, o2) && IsAdditive(o1) && IsAdditive(o2)
    ensures CharAt(toks, 0) != '-'
    ensures Sum(toks, 0) == Ok(([toks[0], toks[2], Oper([o1]), toks[4], Oper([o2])], 5))
  {
    var a, b, c := toks[0], toks[2], toks[4];
    var ab := [a, b, Oper([o1])];
    var out := ab + [c] + [Oper([o2])];
    Shape3Chars(toks, o1, o2);
    FirstSummand(toks, o1, o2);
    ProdStart(toks, 4);
    LoopsStop(toks, 5, [c]);
    SumNext(toks, 3, ab, ([c], 5));
    LoopsStop(toks, 5, out);
    assert out == [a, b, Oper([o1]), c, Oper([o2])];
  }

  /** `a o1 b` is read as the first sum, stopped by the additive `o2`. */
  lemma FirstSummand(toks: seq<Token>, o1: char, o2: char)
    requires Shape3(toks, o1, o2) && IsAdditive(o1) && IsAdditive(o2)
    ensures Sum(toks, 0) == SumLoop(toks, 3, [toks[0], toks[2], Oper([o1])])
  {
    var a, b := toks[0], toks[2];
    Shape3Chars(toks, o1, o2);
    ProdStart(toks, 0);
    ProdStops(toks, 1, [a]);
    SumStart(toks, 0, ([a], 1));
    ProdStart(toks, 2);
    ProdStops(toks, 3, [b]);
    SumNext(toks, 1, [a], ([b], 3));
    assert [a] + [b] + [Oper([o1])] == [a, b, Oper([o1])];
  }

  /** `* / %` group to the left: `a / b * c` becomes `a b / c *`. */
  lemma ProductsGroupLeft(a: Token, o1: char, b: Token, o2: char, c: Token)
    requires Plain(a) && Plain(b) && Plain(c)
    requires IsMultiplicative(o1) && IsMultiplicative(o2)
    ensures ToPostfix(Infix3(a, o1, b, o2, c)) == Ok([a, b, Oper([o1]), c, Oper([o2])])
  {
    var toks := Infix3(a, o1, b, o2, c);
    ProductsGroupLeftLayout(toks, o1, o2);
    SumIsWhole(toks, [a, b, Oper([o1]), c, Oper([o2])]);
  }

  lemma ProductsGroupLeftLayout(toks: seq<Token>, o1: char, o2: char)
    requires Shape3(toks, o1, o2) && IsMultiplicative(o1) && IsMultiplicative(o2)
    ensures CharAt(toks, 0) != '-'
    ensures Sum(toks, 0) == Ok(([toks[0], toks[2], Oper([o1]), toks[4], Oper([o2])], 5))
  {
    var a, b, c := toks[0], toks[2], toks[4];
    var ab := [a] + [b] + [Oper([o1])];
    var out := ab + [c] + [Oper([o2])];
    Shape3Chars(toks, o1, o2);
    ProdStart(toks, 0);
    ProdNext(toks, 1, [a]);
    ProdNext(toks, 3, ab);
    LoopsStop(toks, 5, out);
    SumStart(toks, 0, (out, 5));
    assert out == [a, b, Oper([o1]), c, Oper([o2])];
  }

  // ----- Leading minus -----

  /** At the start of an assignment, `-` negates the whole sum after it:
      `- a + b` becomes `a b + ~`. */
  lemma LeadingMinusNegatesSum(a: Token, o: char, b: Token)
    requires Plain(a) && Plain(b) && IsAdditive(o)
    ensures ToPostfix([Oper("-"), a, Oper([o]), b]) == Ok([a, b, Oper([o]), Oper("~")])
  {
    var toks := [Oper("-"), a, Oper([o]), b];
    var ab := [a] + [b] + [Oper([o])];
    assert CharAt(toks, 0) == '-' && CharAt(toks, 1) == '\0' && CharAt(toks, 2) == o;
    ProdStart(toks, 1);
    ProdStops(toks, 2, [a]);
    SumStart(toks, 1, ([a], 2));
    ProdStart(toks, 3);
    LoopsStop(toks, 4, [b]);
    SumNext(toks, 2, [a], ([b], 4));
    LoopsStop(toks, 4, ab);
    AssignmentNegated(toks, (ab, 4));
    LoopsStop(toks, 4, ab + [Oper("~")]);
    WholeInput(toks, ab + [Oper("~")]);
    assert ab + [Oper("~")] == [a, b, Oper([o]), Oper("~")];
  }

  /** A second `-` is read by the sum, where it negates only the first
      product: `- - a + b` becomes `a ~ b + ~`, that is `-((-a) + b)`. */
  lemma SecondMinusNegatesProduct(a: Token, o: char, b: Token)
    requires Plain(a) && Plain(b) && IsAdditive(o)
    ensures ToPostfix([Oper("-"), Oper("-"), a, Oper([o]), b]) ==
      Ok([a, Oper("~"), b, Oper([o]), Oper("~")])
  {
    var toks := [Oper("-"), Oper("-"), a, Oper([o]), b];
    var neg := [a] + [Oper("~")];
    var sum := neg + [b] + [Oper([o])];
    assert CharAt(toks, 0) == '-' && CharAt(toks, 1) == '-' && CharAt(toks, 3) == o;
    ProdStart(toks, 2);
    ProdStops(toks, 3, [a]);
    SumNegated(toks, 1, ([a], 3));
    ProdStart(toks, 4);
    LoopsStop(toks, 5, [b]);
    SumNext(toks, 3, neg, ([b], 5));
    LoopsStop(toks, 5, sum);
    AssignmentNegated(toks, (sum, 5));
    LoopsStop(toks, 5, sum + [Oper("~")]);
    WholeInput(toks, sum + [Oper("~")]);
    assert sum + [Oper("~")] == [a, Oper("~"), b, Oper([o]), Oper("~")];
  }

  /** `~` replaces the top of the stack by its negated value, so `- a + b`
      on numbers gives `-(a + b)` and leaves the store as it was. */
  lemma LeadingMinusEvaluates(a: int, b: int, vars: Store)
    ensures EvaluateInfix([Oper("-"), Int(a), Oper("+"), Int(b)], vars) == Ok((-(a + b), vars))
  {
    IntIsOperand(a);
    IntIsOperand(b);
    LeadingMinusNegatesSum(Int(a), '+', Int(b));
    NegatedSumRuns(a, b, vars);
  }

  lemma NegatedSumRuns(a: int, b: int, vars: Store)
    ensures EvalPostfix([Int(a), Int(b), Oper("+"), Oper("~")], vars) == Ok((-(a + b), vars))
  {
    var x, y, plus, neg := Int(a), Int(b), Oper("+"), Oper("~");
    IntIsOperand(a);
    IntIsOperand(b);
    RunOperands([x, y], [plus, neg], [], vars);
    assert [x, y] + [plus, neg] == [x, y, plus, neg];
    assert Reversed([y]) == [y];
    assert Reversed([x, y]) + [] == [y, x];
    AddChar(a, b);
    RunArith('+', x, y, [], [neg], vars);
    assert [plus] + [neg] == [plus, neg];
    assert [y, x] + [] == [y, x];
    assert [Int(a + b)] + [] == [Int(a + b)];
    NegateLast(a + b, vars);
    EvalPostfixOf([x, y, plus, neg], vars, -(a + b), vars);
  }

  /** `~` as the last operator, on a number. */
  lemma NegateLast(v: int, vars: Store)
    ensures Run([Oper("~")], [Int(v)], vars) == Ok(([Int(-v)], vars))
  {
    assert TokenChar(Oper("~")) == '~' && IsOperator(Oper("~"));
    assert [Int(v)][1..] == [];
    assert [Int(-v)] + [] == [Int(-v)];
  }

  lemma MulChar(a: int, b: int)
    ensures ExprTree.IsArithChar('*') && ExprTree.ApplyChar('*', a, b) == Ok(a * b)
  {
  }

  // ----- The driver's `Age = 2+3*Five` -----

  /** The tokens of `Age = 2+3*Five`. */
  const AgeLine: seq<Token> :=
    [Ident("Age"), Oper("="), Int(2), Oper("+"), Int(3), Oper("*"), Ident("Five")]

  /** The driver's text `Age = 2+3*Five` scans to `AgeLine`. */
  lemma AgeLineScans(s: string)
    requires s == "Age = 2+3*Five"
    ensures Lexer.Scan(s) == AgeLine
  {
    AgeLineParts(s);
    AgeLineWords();
    AgeLineDigits();
    AssignSumProductScans("Age", "2", "3", "Five");
  }

  lemma AgeLineParts(s: string)
    requires s == "Age = 2+3*Five"
    ensures s == "Age" + (" = " + ("2" + ("+" + ("3" + ("*" + "Five")))))
  {
  }

  lemma AgeLineWords()
    ensures Lexer.WellFormed(Ident("Age")) && Lexer.WellFormed(Ident("Five"))
  {
  }

  lemma AgeLineDigits()
    ensures IntMath.AllDigits("2") && IntMath.DigitsValue("2") == 2
    ensures IntMath.AllDigits("3") && IntMath.DigitsValue("3") == 3
  {
  }

  /** A line of the shape `n = a+b*k` scans to its seven tokens, whatever
      the names and digit runs. */
  lemma AssignSumProductScans(n: string, a: string, b: string, k: string)
    requires Lexer.WellFormed(Ident(n)) && Lexer.WellFormed(Ident(k))
    requires |a| > 0 && IntMath.AllDigits(a) && |b| > 0 && IntMath.AllDigits(b)
    ensures Lexer.Scan(n + (" = " + (a + ("+" + (b + ("*" + k)))))) ==
      [Ident(n), Oper("="), Int(IntMath.DigitsValue(a)), Oper("+"),
       Int(IntMath.DigitsValue(b)), Oper("*"), Ident(k)]
  {
    var t := a + ("+" + (b + ("*" + k)));
    var tail := [Int(IntMath.DigitsValue(a)), Oper("+"), Int(IntMath.DigitsValue(b)), Oper("*"), Ident(k)];
    assert Lexer.Peek(t) == a[0];
    NameThenEquals(n, t);
    SumProductScans(a, b, k);
    JoinTwoAndFive(Ident(n), Oper("="), tail[0], tail[1], tail[2], tail[3], tail[4]);
  }

  /** `n = ` before text that starts with a non-space. */
  lemma NameThenEquals(n: string, t: string)
    requires Lexer.WellFormed(Ident(n)) && Lexer.Peek(t) != ' '
    ensures Lexer.Scan(n + (" = " + t)) == [Ident(n), Oper("=")] + Lexer.ScanTokens(t)
  {
    var r2 := ['='] + (" " + t);
    var r1 := " " + r2;
    assert " = " + t == r1;
    calc {
      Lexer.Scan(n + r1);
      { Lexer.DropSpacesNone(n + r1); }
      Lexer.ScanTokens(n + r1);
      { Lexer.ScanIdentFront(n, r1); }
      [Ident(n)] + Lexer.ScanTokens(Lexer.DropSpaces(r1));
      { Lexer.DropSpaceStep(r1); assert r1[1..] == r2; Lexer.DropSpacesNone(r2); }
      [Ident(n)] + Lexer.ScanTokens(r2);
      { EqualsThenDigits(t); }
      [Ident(n)] + ([Oper("=")] + Lexer.ScanTokens(t));
      { JoinOneAndOne(Ident(n), Oper("="), Lexer.ScanTokens(t)); }
      [Ident(n), Oper("=")] + Lexer.ScanTokens(t);
    }
  }

  lemma JoinTwoAndFive(t1: Token, t2: Token, t3: Token, t4: Token, t5: Token, t6: Token, t7: Token)
    ensures [t1, t2] + [t3, t4, t5, t6, t7] == [t1, t2, t3, t4, t5, t6, t7]
  {
  }

  /** `= ` before text that starts with a non-space. */
  lemma EqualsThenDigits(t: string)
    requires Lexer.Peek(t) != ' '
    ensures Lexer.ScanTokens(['='] + (" " + t)) == [Oper("=")] + Lexer.ScanTokens(t)
  {
    Lexer.ScanOperFront('=', " " + t);
    Lexer.DropSpaceStep(" " + t);
    assert (" " + t)[1..] == t;
    Lexer.DropSpacesNone(t);
  }

  /** `a+b*k` scans to its five tokens. */
  lemma SumProductScans(a: string, b: string, k: string)
    requires Lexer.WellFormed(Ident(k))
    requires |a| > 0 && IntMath.AllDigits(a) && |b| > 0 && IntMath.AllDigits(b)
    ensures Lexer.ScanTokens(a + ("+" + (b + ("*" + k)))) ==
      [Int(IntMath.DigitsValue(a)), Oper("+"), Int(IntMath.DigitsValue(b)), Oper("*"), Ident(k)]
  {
    var u := b + ("*" + k);
    assert "+" + u == ['+'] + u;
    assert Lexer.Peek(u) == b[0];
    DigitsThenOperator(a, '+', u);
    ProductScans(b, k);
    JoinTwoAndThree(Int(IntMath.DigitsValue(a)), Oper("+"), Int(IntMath.DigitsValue(b)), Oper("*"), Ident(k));
  }

  /** `b*k` scans to its three tokens. */
  lemma ProductScans(b: string, k: string)
    requires Lexer.WellFormed(Ident(k))
    requires |b| > 0 && IntMath.AllDigits(b)
    ensures Lexer.ScanTokens(b + ("*" + k)) == [Int(IntMath.DigitsValue(b)), Oper("*"), Ident(k)]
  {
    var y := Int(IntMath.DigitsValue(b));
    assert Lexer.Peek(k) == k[0];
    calc {
      Lexer.ScanTokens(b + ("*" + k));
      { assert "*" + k == ['*'] + k; }
      Lexer.ScanTokens(b + (['*'] + k));
      { DigitsThenOperator(b, '*', k); }
      [y, Oper("*")] + Lexer.ScanTokens(k);
      { NameAlone(k); }
      [y, Oper("*")] + [Ident(k)];
      { JoinTwoAndOne(y, Oper("*"), Ident(k)); }
      [y, Oper("*"), Ident(k)];
    }
  }

  lemma JoinTwoAndOne(t1: Token, t2: Token, t3: Token)
    ensures [t1, t2] + [t3] == [t1, t2, t3]
  {
  }

  lemma JoinTwoAndThree(t1: Token, t2: Token, t3: Token, t4: Token, t5: Token)
    ensures [t1, t2] + [t3, t4, t5] == [t1, t2, t3, t4, t5]
  {
  }

  /** A digit run and an operator character are two tokens. */
  lemma DigitsThenOperator(a: string, c: char, u: string)
    requires |a| > 0 && IntMath.AllDigits(a) && Lexer.IsOperatorChar(c) && Lexer.Peek(u) != ' '
    ensures Lexer.ScanTokens(a + ([c] + u)) == [Int(IntMath.DigitsValue(a)), Oper([c])] + Lexer.ScanTokens(u)
  {
    var x := Int(IntMath.DigitsValue(a));
    assert Lexer.Peek([c] + u) == c;
    Lexer.DropSpacesNone([c] + u);
    Lexer.DropSpacesNone(u);
    calc {
      Lexer.ScanTokens(a + ([c] + u));
      { Lexer.ScanDigitsFront(a, [c] + u); }
      [x] + Lexer.ScanTokens([c] + u);
      { Lexer.ScanOperFront(c, u); }
      [x] + ([Oper([c])] + Lexer.ScanTokens(u));
      { JoinOneAndOne(x, Oper([c]), Lexer.ScanTokens(u)); }
      [x, Oper([c])] + Lexer.ScanTokens(u);
    }
  }

  lemma JoinOneAndOne(t1: Token, t2: Token, ts: seq<Token>)
    ensures [t1] + ([t2] + ts) == [t1, t2] + ts
  {
  }

  /** A name on its own is one token. */
  lemma NameAlone(k: string)
    requires Lexer.WellFormed(Ident(k))
    ensures Lexer.ScanTokens(k) == [Ident(k)]
  {
    assert k == k + "";
    Lexer.ScanIdentFront(k, "");
    Lexer.ScanEmpty();
  }

  /** `Age = 2+3*Five` becomes `Age 2 3 Five * + =`. */
  lemma AgeLineConverts()
    ensures ToPostfix(AgeLine) == Ok(AgePostfix)
  {
    AgeConversion(AgeLine);
  }

  lemma AgeConversion(toks: seq<Token>)
    requires toks == AgeLine
    ensures ToPostfix(toks) == Ok(AgePostfix)
  {
    var age := Ident("Age");
    var rhs := [Int(2), Int(3), Ident("Five"), Oper("*"), Oper("+")];
    AgeLeft(toks);
    AgeRight(toks);
    AssignNext(toks, 1, [age], (rhs, 7));
    LoopsStop(toks, 7, [age] + rhs + [Oper("=")]);
    AgePostfixParts(rhs);
    WholeInput(toks, [age] + rhs + [Oper("=")]);
  }

  lemma AgePostfixParts(rhs: seq<Token>)
    requires rhs == [Int(2), Int(3), Ident("Five"), Oper("*"), Oper("+")]
    ensures [Ident("Age")] + rhs + [Oper("=")] == AgePostfix
  {
  }

  /** The name on the left is a whole sum, followed by `=`. */
  lemma AgeLeft(toks: seq<Token>)
    requires toks == AgeLine
    ensures CharAt(toks, 1) == '='
    ensures Assignment(toks, 0) == AssignLoop(toks, 1, [Ident("Age")])
  {
    var age := Ident("Age");
    assert CharAt(toks, 0) == '\0' && CharAt(toks, 1) == '=';
    ProdStart(toks, 0);
    ProdStops(toks, 1, [age]);
    SumStart(toks, 0, ([age], 1));
    SumStops(toks, 1, [age]);
    AssignmentStart(toks, 0, ([age], 1));
  }

  /** The right side `2+3*Five`. */
  lemma AgeRight(toks: seq<Token>)
    requires toks == AgeLine
    ensures Assignment(toks, 2) == Ok(([Int(2), Int(3), Ident("Five"), Oper("*"), Oper("+")], 7))
  {
    var two, three, five := Int(2), Int(3), Ident("Five");
    var prod := [three] + [five] + [Oper("*")];
    var out := [two] + prod + [Oper("+")];
    IntIsOperand(2);
    IntIsOperand(3);
    assert CharAt(toks, 2) == '\0' && CharAt(toks, 3) == '+' && CharAt(toks, 5) == '*';
    ProdStart(toks, 2);
    ProdStops(toks, 3, [two]);
    SumStart(toks, 2, ([two], 3));
    ProdStart(toks, 4);
    ProdNext(toks, 5, [three]);
    LoopsStop(toks, 7, prod);
    SumNext(toks, 3, [two], (prod, 7));
    LoopsStop(toks, 7, out);
    AssignmentStart(toks, 2, (out, 7));
    assert out == [two, three, five, Oper("*"), Oper("+")];
  }

  /** With `Five` holding 5, `Age = 2+3*Five` gives 17 and sets `Age` to
      17; nothing else changes. */
  lemma AgeLineEvaluates(vars: Store)
    requires "Five" in VarTree.Contents(vars) && VarTree.Contents(vars)["Five"] == 5
    ensures var r := EvaluateInfix(AgeLine, vars);
      r.Ok? && r.value.0 == 17 && VarTree.Contents(r.value.1) == VarTree.Contents(vars)["Age" := 17]
  {
    AgeLineConverts();
    var s: Store := VarTree.Assign(vars, "Age", 17);
    AgeRuns(vars, s);
  }

  lemma AgeRuns(vars: Store, s: Store)
    requires "Five" in VarTree.Contents(vars) && VarTree.Contents(vars)["Five"] == 5
    requires s == VarTree.Assign(vars, "Age", 17)
    ensures EvalPostfix(AgePostfix, vars) == Ok((17, s))
  {
    AgeLoop(AgePostfix, vars, s);
    EvalPostfixOf(AgePostfix, vars, 17, s);
  }

  /** `Age 2 3 Five * + =`. */
  const AgePostfix: seq<Token> :=
    [Ident("Age"), Int(2), Int(3), Ident("Five"), Oper("*"), Oper("+"), Oper("=")]

  lemma AgeLoop(ts: seq<Token>, vars: Store, s: Store)
    requires ts == AgePostfix
    requires "Five" in VarTree.Contents(vars) && VarTree.Contents(vars)["Five"] == 5
    requires s == VarTree.Assign(vars, "Age", 17)
    ensures Run(ts, [], vars) == Ok(([Int(17)], s))
  {
    AgeFront(ts, vars);
    ParenAssignOuter(Ident("Age"), 17, vars, s);
  }

  /** Everything up to the final `=`. */
  lemma AgeFront(ts: seq<Token>, vars: Store)
    requires ts == AgePostfix
    requires "Five" in VarTree.Contents(vars) && VarTree.Contents(vars)["Five"] == 5
    ensures Run(ts, [], vars) == Run([Oper("=")], [Int(17), Ident("Age")], vars)
  {
    AgePushes(vars);
    AgeArith(vars);
  }

  lemma AgePushes(vars: Store)
    ensures var age, two, three, five := Ident("Age"), Int(2), Int(3), Ident("Five");
      var times, plus, eq := Oper("*"), Oper("+"), Oper("=");
      Run([age, two, three, five, times, plus, eq], [], vars) ==
      Run([times, plus, eq], [five, three, two, age], vars)
  {
    var age, two, three, five := Ident("Age"), Int(2), Int(3), Ident("Five");
    var times, plus, eq := Oper("*"), Oper("+"), Oper("=");
    IntIsOperand(2);
    IntIsOperand(3);
    RunOperands([age, two, three, five], [times, plus, eq], [], vars);
    assert [age, two, three, five] + [times, plus, eq] == [age, two, three, five, times, plus, eq];
    assert Reversed([five]) == [five];
    assert Reversed([three, five]) == [five, three];
    assert Reversed([two, three, five]) == [five, three, two];
    assert Reversed([age, two, three, five]) + [] == [five, three, two, age];
  }

  /** `*` reads `Five` (5) and multiplies, then `+` adds 2. */
  lemma AgeArith(vars: Store)
    requires "Five" in VarTree.Contents(vars) && VarTree.Contents(vars)["Five"] == 5
    ensures Run([Oper("*"), Oper("+"), Oper("=")], [Ident("Five"), Int(3), Int(2), Ident("Age")], vars) ==
      Run([Oper("=")], [Int(17), Ident("Age")], vars)
  {
    var age, two, three, five := Ident("Age"), Int(2), Int(3), Ident("Five");
    var times, plus, eq := Oper("*"), Oper("+"), Oper("=");
    assert OperandValue(five, vars) == (5, vars);
    MulChar(3, 5);
    RunArith('*', three, five, [two, age], [plus, eq], vars);
    assert [times] + [plus, eq] == [times, plus, eq];
    assert [five, three] + [two, age] == [five, three, two, age];
    AddChar(2, 15);
    RunArith('+', two, Int(15), [age], [eq], vars);
    assert [plus] + [eq] == [plus, eq];
    assert [Int(15)] + [two, age] == [Int(15), two, age];
    assert [Int(15), two] + [age] == [Int(15), two, age];
    assert [Int(17)] + [age] == [Int(17), age];
  }
}
