/** The user functions the Homework 6 driver defines (`deffn sqr(x)=x*x`,
    `deffn abs(x)=x>0?x:-x`, `deffn fact(n)=n<=1?1:n*fact(n-1)`,
    `deffn add(a,b)=a+b`, `deffn three()=3`), as the trees the parser
    builds for them, and the results the driver expects from calling them. */
module CallExamples {
  import opened Outcomes
  import opened ExprTree
  import opened Evaluate
  import VarTree
  import IntMath

  /** The ten argument slots of a call with the given arguments. */
  function Args(given: seq<Expr>): (ps: seq<Expr>)
    requires |given| <= MaxArity
    ensures |ps| == MaxArity && ps[..|given|] == given
    ensures forall i :: |given| <= i < MaxArity ==> ps[i] == Nil
  {
    given + seq(MaxArity - |given|, _ => Nil)
  }

  function Call1(name: string, a: Expr): Expr {
    Function(name, Args([a]))
  }

  const SqrDef := FunDef("sqr", PadParams(["x"]), Operation(Variable("x"), "*", Variable("x")))

  const AbsDef := FunDef("abs", PadParams(["x"]),
    Conditional(Operation(Variable("x"), ">", Value(0)), Variable("x"), Negated(Variable("x"))))

  const FactDef := FunDef("fact", PadParams(["n"]),
    Conditional(Operation(Variable("n"), "<=", Value(1)),
                Value(1),
                Operation(Variable("n"), "*", Call1("fact", Operation(Variable("n"), "-", Value(1))))))

  const AddDef := FunDef("add", PadParams(["a", "b"]), Operation(Variable("a"), "+", Variable("b")))

  const ThreeDef := FunDef("three", PadParams([]), Value(3))

  /** The function table after the driver's five definitions. */
  const DriverFuns: FunTable :=
    map["sqr" := SqrDef, "abs" := AbsDef, "fact" := FactDef, "add" := AddDef, "three" := ThreeDef]

  function Factorial(n: int): int {
    if n <= 1 then 1 else n * Factorial(n - 1)
  }

  lemma ArityOfParams(given: seq<string>)
    requires |given| <= MaxArity && forall i :: 0 <= i < |given| ==> given[i] != ""
    ensures Arity(PadParams(given), 0) == |given|
  {
    ArityFromParams(given, 0);
  }

  lemma {:induction false} ArityFromParams(given: seq<string>, i: nat)
    requires |given| <= MaxArity && forall i :: 0 <= i < |given| ==> given[i] != ""
    requires i <= |given|
    ensures Arity(PadParams(given), i) == |given|
    decreases |given| - i
  {
    var ps := PadParams(given);
    if i < |given| {
      assert ps[i] == ps[..|given|][i] == given[i];
      ArityFromParams(given, i + 1);
    }
  }

  /** A one-parameter function called with one argument runs its body in a
      store holding just that parameter, and returns to the caller's store
      as the argument left it. */
  lemma OneArgCall(name: string, x: string, a: Expr, vars: Store, funs: FunTable, fuel: nat)
    requires name in funs && fuel > 0 && funs[name].parameter == PadParams([x]) && x != ""
    requires Eval(a, vars, funs, fuel).Ok?
    ensures var av := Eval(a, vars, funs, fuel).value;
      var local: Store := VarTree.Assign(VarTree.Empty, x, av.0);
      Eval(Call1(name, a), vars, funs, fuel) ==
      match Eval(funs[name].functionBody, local, funs, fuel - 1)
      case Err(f) => Err(f)
      case Ok((v, _)) => Ok((v, av.1))
  {
    var def := funs[name];
    ArityOfParams([x]);
    var args := Args([a]);
    assert args[0] == a;
    CallScope(name, args, vars, funs, fuel);
    var av := Eval(a, vars, funs, fuel).value;
    assert Eval(args[0], vars, funs, fuel) == Ok(av);
    assert EvalArgs(args, 1, 1, av.1, funs, fuel) == Ok(([], av.1));
    assert [av.0] + [] == [av.0];
    assert EvalArgs(args, 0, 1, vars, funs, fuel) == Ok(([av.0], av.1));
    assert [av.0][1..] == [];
    assert def.parameter[0] == def.parameter[..1][0] == x;
    assert BindParams(VarTree.Empty, def.parameter, 0, [av.0]) ==
      BindParams(VarTree.Assign(VarTree.Empty, x, av.0), def.parameter, 1, []);
    assert LocalStore(def, [av.0]) == VarTree.Assign(VarTree.Empty, x, av.0);
  }

  lemma OneArgCallGives(name: string, x: string, a: Expr, vars: Store, funs: FunTable, fuel: nat,
                         w: int, after: Store)
    requires name in funs && fuel > 0 && funs[name].parameter == PadParams([x]) && x != ""
    requires Eval(a, vars, funs, fuel).Ok?
    requires var av := Eval(a, vars, funs, fuel).value;
      var local: Store := VarTree.Assign(VarTree.Empty, x, av.0);
      Eval(funs[name].functionBody, local, funs, fuel - 1) == Ok((w, after))
    ensures Eval(Call1(name, a), vars, funs, fuel) == Ok((w, Eval(a, vars, funs, fuel).value.1))
  {
    OneArgCall(name, x, a, vars, funs, fuel);
  }

  /** Reading the only parameter of a one-parameter store. */
  lemma ReadParam(x: string, v: int, funs: FunTable, fuel: nat)
    ensures var local: Store := VarTree.Assign(VarTree.Empty, x, v);
      Eval(Variable(x), local, funs, fuel) == Ok((v, local))
  {
  }

  /** `fact` computes the factorial of its argument's value, given one
      level of fuel per recursive call. */
  lemma {:induction false} FactComputes(a: Expr, vars: Store, funs: FunTable, fuel: nat)
    requires "fact" in funs && funs["fact"] == FactDef
    requires Eval(a, vars, funs, fuel).Ok?
    requires fuel >= 1 && fuel >= Eval(a, vars, funs, fuel).value.0
    ensures var av := Eval(a, vars, funs, fuel).value;
      Eval(Call1("fact", a), vars, funs, fuel) == Ok((Factorial(av.0), av.1))
    decreases fuel, 0
  {
    var av := Eval(a, vars, funs, fuel).value;
    FactBody(av.0, funs, fuel - 1);
    OneArgCallGives("fact", "n", a, vars, funs, fuel, Factorial(av.0), VarTree.Assign(VarTree.Empty, "n", av.0));
  }

  /** The body of `fact` in the store holding `n` gives the factorial of
      `n`, with one level of fuel left per recursive call. */
  lemma {:induction false} FactBody(n: int, funs: FunTable, fuel: nat)
    requires "fact" in funs && funs["fact"] == FactDef
    requires n > 1 ==> fuel >= n - 1
    ensures var local: Store := VarTree.Assign(VarTree.Empty, "n", n);
      Eval(FactDef.functionBody, local, funs, fuel) == Ok((Factorial(n), local))
    decreases fuel, 1
  {
    var local: Store := VarTree.Assign(VarTree.Empty, "n", n);
    ReadParam("n", n, funs, fuel);
    var test := Operation(Variable("n"), "<=", Value(1));
    assert Eval(test, local, funs, fuel) == Ok((BoolToInt(n <= 1), local));
    if n > 1 {
      var a' := Operation(Variable("n"), "-", Value(1));
      assert Eval(a', local, funs, fuel) == Ok((n - 1, local));
      FactComputes(a', local, funs, fuel);
      var rec := Call1("fact", a');
      assert Eval(Operation(Variable("n"), "*", rec), local, funs, fuel) == Ok((n * Factorial(n - 1), local));
    }
  }

  /** `fact(5)` gives 120. */
  lemma FactOfFive(vars: Store)
    ensures Eval(Call1("fact", Value(5)), vars, DriverFuns, 5) == Ok((120, vars))
  {
    FactComputes(Value(5), vars, DriverFuns, 5);
    assert Factorial(5) == 120 by {
      assert Factorial(2) == 2;
      assert Factorial(3) == 6;
      assert Factorial(4) == 24;
    }
  }

  /** `sqr(5)` gives 25. */
  lemma SqrOfFive(vars: Store)
    ensures Eval(Call1("sqr", Value(5)), vars, DriverFuns, 1) == Ok((25, vars))
  {
    OneArgCall("sqr", "x", Value(5), vars, DriverFuns, 1);
    ReadParam("x", 5, DriverFuns, 0);
  }

  /** `abs` of any argument value is its absolute value. */
  lemma AbsComputes(a: Expr, vars: Store, funs: FunTable, fuel: nat)
    requires "abs" in funs && funs["abs"] == AbsDef && fuel > 0
    requires Eval(a, vars, funs, fuel).Ok?
    ensures var av := Eval(a, vars, funs, fuel).value;
      Eval(Call1("abs", a), vars, funs, fuel) == Ok((IntMath.Abs(av.0), av.1))
  {
    var av := Eval(a, vars, funs, fuel).value;
    AbsBody(funs["abs"].functionBody, av.0, funs, fuel - 1);
    OneArgCallGives("abs", "x", a, vars, funs, fuel, IntMath.Abs(av.0), VarTree.Assign(VarTree.Empty, "x", av.0));
  }

  lemma AbsBody(body: Expr, v: int, funs: FunTable, fuel: nat)
    requires body == AbsDef.functionBody
    ensures Eval(body, VarTree.Assign(VarTree.Empty, "x", v), funs, fuel) ==
      Ok((IntMath.Abs(v), VarTree.Assign(VarTree.Empty, "x", v)))
  {
    var local: Store := VarTree.Assign(VarTree.Empty, "x", v);
    ReadParam("x", v, funs, fuel);
    var test := Operation(Variable("x"), ">", Value(0));
    assert Eval(test, local, funs, fuel) == Ok((BoolToInt(v > 0), local));
    if v <= 0 {
      assert Eval(Negated(Variable("x")), local, funs, fuel) == Ok((v * -1, local));
    }
  }

  /** `Three = abs(-3)` gives 3 and leaves `Three` holding 3. */
  lemma ThreeIsAbsOfMinusThree(vars: Store)
    ensures var r := Eval(Operation(Variable("Three"), "=", Call1("abs", Negated(Value(3)))), vars, DriverFuns, 1);
      r.Ok? && r.value.0 == 3 && VarTree.Contents(r.value.1) == VarTree.Contents(vars)["Three" := 3]
  {
    AbsComputes(Negated(Value(3)), vars, DriverFuns, 1);
  }
}
