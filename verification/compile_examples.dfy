/** Two of the Homework 6 driver's definitions, `deffn sqr(x)=x*x` and
    `deffn fact(n)=n<=1?1:n*fact(n-1)`, run through the Homework 7 parser:
    `makeFunction` builds exactly the definitions the evaluator examples
    use. The second one shows why the name enters the table before the
    body is parsed: the recursive `fact(n-1)` is read as a call. */
module CompileExamples {
  import opened Tokens
  import opened ExprTree
  import opened Compile
  import CallExamples

  /** The tokens of `deffn sqr(x)=x*x`. */
  const SqrLine: seq<Token> :=
    Definition("sqr", ["x"], [Oper("="), Ident("x"), Oper("*"), Ident("x")])

  /** The tokens of `deffn fact(n)=n<=1?1:n*fact(n-1)`. */
  const FactLine: seq<Token> := Definition("fact", ["n"], FactText)

  const FactText: seq<Token> :=
    [Oper("="), Ident("n"), Oper("<="), Int(1), Oper("?"), Int(1), Oper(":"),
     Ident("n"), Oper("*"), Ident("fact"), Oper("("), Ident("n"), Oper("-"), Int(1), Oper(")")]

  /** A one-name parameter list is the name alone. */
  lemma OneParameter(x: string)
    ensures ParamTokens([x]) == [Ident(x)]
  {
  }

  /** A one-parameter definition has its body from position 5 on. */
  lemma BodyAtFive(name: string, x: string, body: seq<Token>)
    ensures var toks := Definition(name, [x], body);
      |toks| == 5 + |body| && toks[5..] == body
  {
    OneParameter(x);
    var toks := Definition(name, [x], body);
    assert toks == [Ident("deffn"), Ident(name), Oper("("), Ident(x), Oper(")")] + body;
  }

  /** `deffn sqr(x)=x*x` defines `sqr` as `x * x` of its one parameter,
      whatever the table held before, as long as `x` is not itself the
      name of a function. */
  lemma SqrLineDefinesSqr(funs: FunTable)
    requires "x" !in funs
    ensures var r := MakeFunction(SqrLine, funs);
      r.Ok? && r.value["sqr"] == CallExamples.SqrDef
  {
    var registered := funs["sqr" := FunDef("sqr", PadParams([]), Nil)];
    OneParameter("x");
    MakeFunctionDefines("sqr", ["x"], [Oper("="), Ident("x"), Oper("*"), Ident("x")], funs);
    SqrBody(SqrLine, registered);
  }

  lemma SqrBody(toks: seq<Token>, funs: FunTable)
    requires |toks| == 9 && toks[5] == Oper("=") && toks[6] == Ident("x") &&
      toks[7] == Oper("*") && toks[8] == Ident("x")
    requires "x" !in funs
    ensures AssignmentToTree(toks, 5, funs) == (Operation(Variable("x"), "*", Variable("x")), 9)
  {
    var e := Operation(Variable("x"), "*", Variable("x"));
    LeafFactor(toks, 6, funs);
    LeafFactor(toks, 8, funs);
    ProdStep(toks, 7, Variable("x"), funs);
    ProdRestStops(toks, 9, e, funs);
    SumRestStops(toks, 9, e, funs);
    assert SumToTree(toks, 6, funs) == (e, 9);
    SumIsAssignment(toks, 6, funs);
    AssumedParensAtEnd(toks, 5, funs);
  }

  /** As a line of the compiler's input, the definition emits no code and
      adds `sqr` to the function table. */
  lemma SqrLineCompiles(st: Compiled, lower: (Expr, Store) -> Lowered)
    requires "x" !in st.funs
    ensures var r := Compile.Compile(SqrLine, st, lower);
      r.Ok? && r.value.prog == st.prog && r.value.pBegin == st.pBegin &&
      r.value.funs == st.funs["sqr" := CallExamples.SqrDef]
  {
    assert TokenText(SqrLine, 0) == "deffn";
    SqrLineDefinesSqr(st.funs);
    var t := MakeFunction(SqrLine, st.funs).value;
    assert TokenText(SqrLine, Advance(SqrLine, 0)) == "sqr";
    assert t == st.funs["sqr" := CallExamples.SqrDef];
  }

  /** `deffn fact(n)=n<=1?1:n*fact(n-1)` defines `fact` with a recursive
      call in its body: the call is parsed as one, because `fact` is in
      the table by the time the body is read. */
  lemma FactLineDefinesFact(funs: FunTable)
    requires "n" !in funs
    ensures var r := MakeFunction(FactLine, funs);
      r.Ok? && r.value["fact"] == CallExamples.FactDef
  {
    var registered := funs["fact" := FunDef("fact", PadParams([]), Nil)];
    OneParameter("n");
    MakeFunctionDefines("fact", ["n"], FactText, funs);
    FactLineLayout();
    FactBody(FactLine, registered);
  }

  /** The shape of the tokens of the body, from the `=` on. */
  predicate FactBodyAt(toks: seq<Token>) {
    |toks| == 20 && toks[5] == Oper("=") && toks[6] == Ident("n") && toks[7] == Oper("<=") &&
    toks[8] == Int(1) && toks[9] == Oper("?") && toks[10] == Int(1) && toks[11] == Oper(":") &&
    toks[12] == Ident("n") && toks[13] == Oper("*") && toks[14] == Ident("fact") &&
    toks[15] == Oper("(") && toks[16] == Ident("n") && toks[17] == Oper("-") &&
    toks[18] == Int(1) && toks[19] == Oper(")")
  }

  lemma FactLineLayout()
    ensures FactBodyAt(FactLine)
  {
    BodyAtFive("fact", "n", FactText);
    assert forall k :: 5 <= k < 20 ==> FactLine[k] == FactLine[5..][k - 5];
  }

  lemma FactBody(toks: seq<Token>, funs: FunTable)
    requires FactBodyAt(toks) && "n" !in funs && "fact" in funs
    ensures AssignmentToTree(toks, 5, funs) == (CallExamples.FactDef.functionBody, 20)
  {
    var e := CallExamples.FactDef.functionBody;
    var test := Operation(Variable("n"), "<=", Value(1));
    FactTest(toks, funs);
    FactNo(toks, funs);
    assert Advance(toks, 11) == 12;
    ConditionalStep(toks, 9, test, funs);
    RestsStop(toks, 20, e, funs);
    assert ConditionalToTree(toks, 6, funs) == (e, 20);
    AssumedParensAtEnd(toks, 5, funs);
  }

  /** `n <= 1` is the test and `1` the true branch. */
  lemma FactTest(toks: seq<Token>, funs: FunTable)
    requires FactBodyAt(toks) && "n" !in funs
    ensures CharAt(toks, 6) != '-'
    ensures TestToTree(toks, 6, funs) == (Operation(Variable("n"), "<=", Value(1)), 9)
    ensures TestToTree(toks, 10, funs) == (Value(1), 11)
  {
    IntIsOperand(1);
    LeafFactor(toks, 6, funs);
    LeafSum(toks, 6, funs);
    LeafSum(toks, 8, funs);
    TestStep(toks, 7, Variable("n"), funs);
    TestRestStops(toks, 9, Operation(Variable("n"), "<=", Value(1)), funs);
    LeafTest(toks, 10, funs);
  }

  /** `n * fact(n-1)` is the false branch. */
  lemma FactNo(toks: seq<Token>, funs: FunTable)
    requires FactBodyAt(toks) && "n" !in funs && "fact" in funs
    ensures TestToTree(toks, 12, funs) == (CallExamples.FactDef.functionBody.falseCase, 20)
  {
    var call := CallExamples.Call1("fact", Operation(Variable("n"), "-", Value(1)));
    var e := Operation(Variable("n"), "*", call);
    FactCall(toks, funs);
    LeafFactor(toks, 12, funs);
    ProdStep(toks, 13, Variable("n"), funs);
    RestsStop(toks, 20, e, funs);
    assert ProdToTree(toks, 12, funs) == (e, 20);
    assert SumToTree(toks, 12, funs) == (e, 20);
  }

  /** `fact(n-1)` is a call with one argument. */
  lemma FactCall(toks: seq<Token>, funs: FunTable)
    requires FactBodyAt(toks) && "n" !in funs && "fact" in funs
    ensures FactorToTree(toks, 14, funs) ==
      (CallExamples.Call1("fact", Operation(Variable("n"), "-", Value(1))), 20)
  {
    var arg := Operation(Variable("n"), "-", Value(1));
    FactArgument(toks, funs);
    CallArgsClosed(toks, 19, 1, funs);
    assert CallArgs(toks, 16, 0, funs) == ([arg] + seq(MaxArity - 1, _ => Nil), 19);
    assert [arg] + seq(MaxArity - 1, _ => Nil) == CallExamples.Args([arg]);
  }

  lemma FactArgument(toks: seq<Token>, funs: FunTable)
    requires FactBodyAt(toks) && "n" !in funs
    ensures AssignmentToTree(toks, 16, funs) == (Operation(Variable("n"), "-", Value(1)), 19)
  {
    var e := Operation(Variable("n"), "-", Value(1));
    IntIsOperand(1);
    LeafLevels(toks, 16, funs);
    LeafFactor(toks, 16, funs);
    LeafAlone(toks, 18, funs);
    SumStep(toks, 17, Variable("n"), funs);
    SumRestStops(toks, 19, e, funs);
    assert SumToTree(toks, 16, funs) == (e, 19);
    SumIsAssignment(toks, 16, funs);
  }
}
