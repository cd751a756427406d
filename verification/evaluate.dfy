/** The tree-walking evaluator of Homework 6 (`evaluate` in
    `exprtree.cpp`), with user-defined function calls.

    `evaluate(VarTree &v, FunctionDef &funs)` returns an `int` and updates
    `v` in place; here it returns the value together with the new store.
    A user function may call itself without bound, so evaluation carries a
    fuel bound on the depth of nested calls: a call made with no fuel left
    fails with `OutOfFuel`, and `FuelOnlyBoundsDepth` shows that more fuel
    never changes an outcome that did not run out. Operands are evaluated
    left before right, which is the order the drivers rely on; C++ itself
    leaves that order unspecified. */
module Evaluate {
  import IntMath
  import opened Outcomes
  import opened ExprTree
  import VarTree

  /** A variable store: a binary search tree of names. */
  type Store = t: VarTree.Tree | VarTree.IsBST(t) witness VarTree.Empty

  /** Parameter slot `i` of a definition; a slot it does not hold is the
      empty name that ends the parameter list. */
  function ParamName(names: seq<string>, i: nat): string {
    if i < |names| then names[i] else ""
  }

  /** `evaluate` of every node kind. */
  function Eval(e: Expr, vars: Store, funs: FunTable, fuel: nat): Result<(int, Store)>
    decreases fuel, e
  {
    match e
    case Nil => Err(NullNode)
    case Value(v) => Ok((v, vars))
    case Variable(n) =>
      var looked := VarTree.Lookup(vars, n);
      var s: Store := looked.1;
      Ok((looked.0, s))
    case Operation(l, op, r) =>
      if op == "=" then
        var rv :- Eval(r, vars, funs, fuel);
        if !Printable(l) then Err(NullNode)
        else
          var s: Store := VarTree.Assign(rv.1, ToString(l), rv.0);
          Ok((rv.0, s))
      else if IsArithmetic(op) || IsRelational(op) then
        var lv :- Eval(l, vars, funs, fuel);
        var rv :- Eval(r, lv.1, funs, fuel);
        var x :- Apply(op, lv.0, rv.0);
        Ok((x, rv.1))
      else
        Ok((0, vars))
    case Conditional(t, a, b) =>
      var tv :- Eval(t, vars, funs, fuel);
      if tv.0 != 0 then Eval(a, tv.1, funs, fuel) else Eval(b, tv.1, funs, fuel)
    case Function(name, args) =>
      if name !in funs then Err(UnknownFunction(name))
      else if fuel == 0 then Err(OutOfFuel)
      else
        var def := funs[name];
        var bound :- BindArgs(def.parameter, args, 0, vars, VarTree.Empty, funs, fuel);
        var result :- Eval(def.functionBody, bound.0, funs, fuel - 1);
        Ok((result.0, bound.1))
  }

  /** The parameter loop of `Function::evaluate`: for each named parameter
      slot `i`, argument `i` is evaluated in the caller's store and its
      value assigned to the parameter in the local store. Returns the local
      store and the caller's store. A missing argument is a null pointer. */
  function BindArgs(names: seq<string>, args: seq<Expr>, i: nat, caller: Store, local: Store,
                    funs: FunTable, fuel: nat): Result<(Store, Store)>
    decreases fuel, args, MaxArity - i
  {
    if i >= MaxArity || ParamName(names, i) == "" then Ok((local, caller))
    else if i >= |args| then Err(NullNode)
    else
      var av :- Eval(args[i], caller, funs, fuel);
      BindArgs(names, args, i + 1, av.1, VarTree.Assign(local, names[i], av.0), funs, fuel)
  }

  // ----- A reference description of a call -----

  /** The number of named parameter slots from `i` on. */
  function Arity(names: seq<string>, i: nat): (n: nat)
    ensures i <= n && (n > i ==> n <= MaxArity && n <= |names|)
    ensures forall j :: i <= j < n ==> ParamName(names, j) != ""
    ensures n < MaxArity ==> ParamName(names, n) == ""
    decreases MaxArity - i
  {
    if i < MaxArity && ParamName(names, i) != "" then Arity(names, i + 1) else i
  }

  /** The values of the arguments from slot `i` up to `n`, evaluated left
      to right in the caller's store, and the caller's store afterwards. */
  function EvalArgs(args: seq<Expr>, i: nat, n: nat, caller: Store, funs: FunTable, fuel: nat)
    : (r: Result<(seq<int>, Store)>)
    requires i <= n
    ensures r.Ok? ==> |r.value.0| == n - i
    decreases n - i
  {
    if i == n then Ok(([], caller))
    else if i >= |args| then Err(NullNode)
    else
      var av :- Eval(args[i], caller, funs, fuel);
      var rest :- EvalArgs(args, i + 1, n, av.1, funs, fuel);
      Ok(([av.0] + rest.0, rest.1))
  }

  /** The store holding parameter `names[j]` bound to `vals[j - i]`, for the
      slots `j` from `i` on, assigned in order on top of `local`. */
  function BindParams(local: Store, names: seq<string>, i: nat, vals: seq<int>): Store
    requires i + |vals| <= |names|
    decreases |vals|
  {
    if |vals| == 0 then local
    else BindParams(VarTree.Assign(local, names[i], vals[0]), names, i + 1, vals[1..])
  }

  /** The local store of a call holds the parameter names and nothing else:
      no name of the caller's store is visible in it. */
  lemma BindParamsNames(local: Store, names: seq<string>, i: nat, vals: seq<int>)
    requires i + |vals| <= |names|
    ensures forall x :: x in VarTree.Contents(BindParams(local, names, i, vals)) <==>
      x in VarTree.Contents(local) || x in names[i..i + |vals|]
  {
    forall x
      ensures x in VarTree.Contents(BindParams(local, names, i, vals)) <==>
        x in VarTree.Contents(local) || x in names[i..i + |vals|]
    {
      BindParamsHas(local, names, i, vals, i + |vals|, x);
    }
  }

  /** One name at a time: `x` is bound after the parameter loop exactly
      when it was bound before or is one of the parameter names, those in
      slots `i` up to `j`. */
  lemma {:induction false} BindParamsHas(local: Store, names: seq<string>, i: nat, vals: seq<int>, j: nat, x: string)
    requires j == i + |vals| <= |names|
    ensures x in VarTree.Contents(BindParams(local, names, i, vals)) <==>
      x in VarTree.Contents(local) || x in names[i..j]
    decreases |vals|
  {
    if |vals| > 0 {
      var local' := VarTree.Assign(local, names[i], vals[0]);
      BindParamsStep(local, names, i, vals);
      BindParamsHas(local', names, i + 1, vals[1..], j, x);
      AssignHas(local, names[i], vals[0], x);
      InSliceHead(names, i, j, x);
    }
  }

  lemma AssignHas(local: Store, name: string, v: int, x: string)
    ensures x in VarTree.Contents(VarTree.Assign(local, name, v)) <==>
      x in VarTree.Contents(local) || x == name
  {
  }

  lemma BindParamsStep(local: Store, names: seq<string>, i: nat, vals: seq<int>)
    requires 0 < |vals| && i + |vals| <= |names|
    ensures BindParams(local, names, i, vals) ==
      BindParams(VarTree.Assign(local, names[i], vals[0]), names, i + 1, vals[1..])
  {
  }

  /** Membership in a slice: its first element or the rest. */
  lemma InSliceHead<T>(s: seq<T>, i: nat, j: nat, x: T)
    requires i < j <= |s|
    ensures x in s[i..j] <==> x == s[i] || x in s[i + 1..j]
  {
    assert s[i..j] == [s[i]] + s[i + 1..j];
  }

  /** What the parameter loop gives once the arguments from slot `i` on
      have been evaluated: their values bound from slot `i` on, or the
      fault that stopped the evaluation. */
  function BindOutcome(local: Store, names: seq<string>, i: nat, e: Result<(seq<int>, Store)>)
    : Result<(Store, Store)>
    requires e.Ok? ==> i + |e.value.0| <= |names|
  {
    match e
    case Err(f) => Err(f)
    case Ok((vals, s)) => Ok((BindParams(local, names, i, vals), s))
  }

  /** The parameter loop is argument evaluation in the caller's store
      followed by binding the values in the local store; the two stores
      never meet. */
  lemma {:induction false} BindArgsSplits(names: seq<string>, args: seq<Expr>, i: nat,
                                          caller: Store, local: Store, funs: FunTable, fuel: nat)
    requires i <= Arity(names, 0) <= |names|
    ensures var n := Arity(names, 0);
      BindArgs(names, args, i, caller, local, funs, fuel) ==
      BindOutcome(local, names, i, EvalArgs(args, i, n, caller, funs, fuel))
    decreases MaxArity - i
  {
    var n := Arity(names, 0);
    if i < n && i < |args| && Eval(args[i], caller, funs, fuel).Ok? {
      var av := Eval(args[i], caller, funs, fuel).value;
      var local' := VarTree.Assign(local, names[i], av.0);
      assert i < MaxArity;
      BindArgsSplits(names, args, i + 1, av.1, local', funs, fuel);
      BindArgsStep(names, args, i, caller, local, funs, fuel);
    } else {
      BindArgsStops(names, args, i, caller, local, funs, fuel);
    }
  }

  /** The parameter loop ends, or fails, without a recursive turn. */
  lemma BindArgsStops(names: seq<string>, args: seq<Expr>, i: nat,
                      caller: Store, local: Store, funs: FunTable, fuel: nat)
    requires i <= Arity(names, 0) <= |names|
    requires !(i < Arity(names, 0) && i < |args| && Eval(args[i], caller, funs, fuel).Ok?)
    ensures var n := Arity(names, 0);
      BindArgs(names, args, i, caller, local, funs, fuel) ==
      BindOutcome(local, names, i, EvalArgs(args, i, n, caller, funs, fuel))
  {
    var n := Arity(names, 0);
    if i < n {
      assert i < MaxArity && ParamName(names, i) != "";
    } else {
      assert i >= MaxArity || ParamName(names, i) == "";
    }
  }

  /** One turn of the parameter loop: the first argument's value goes
      into the local store, and the rest of the loop starts from the store
      that argument left. */
  lemma BindArgsStep(names: seq<string>, args: seq<Expr>, i: nat,
                     caller: Store, local: Store, funs: FunTable, fuel: nat)
    requires i < Arity(names, 0) <= |names| && i < |args|
    requires Eval(args[i], caller, funs, fuel).Ok?
    requires var av := Eval(args[i], caller, funs, fuel).value;
      var local' := VarTree.Assign(local, names[i], av.0);
      BindArgs(names, args, i + 1, av.1, local', funs, fuel) ==
      BindOutcome(local', names, i + 1, EvalArgs(args, i + 1, Arity(names, 0), av.1, funs, fuel))
    ensures var n := Arity(names, 0);
      BindArgs(names, args, i, caller, local, funs, fuel) ==
      BindOutcome(local, names, i, EvalArgs(args, i, n, caller, funs, fuel))
  {
    var n := Arity(names, 0);
    var av := Eval(args[i], caller, funs, fuel).value;
    assert i < MaxArity && ParamName(names, i) != "";
    var rest := EvalArgs(args, i + 1, n, av.1, funs, fuel);
    if rest.Ok? {
      BindOne(local, names, i, av.0, rest.value.0);
    }
  }

  /** Binding a first value, then the rest from the next slot on. */
  lemma BindOne(local: Store, names: seq<string>, i: nat, v: int, vals: seq<int>)
    requires i + 1 + |vals| <= |names|
    ensures BindParams(local, names, i, [v] + vals) ==
      BindParams(VarTree.Assign(local, names[i], v), names, i + 1, vals)
  {
    assert ([v] + vals)[1..] == vals;
  }

  lemma {:induction false} ArityFrom(names: seq<string>, i: nat, j: nat)
    requires i <= j <= Arity(names, i)
    ensures Arity(names, j) == Arity(names, i)
    decreases j - i
  {
    if i < j {
      ArityFrom(names, i + 1, j);
    }
  }

  /** The local store of a call when its arguments evaluate to `vals`. */
  function LocalStore(def: FunDef, vals: seq<int>): Store
    requires |vals| <= |def.parameter|
  {
    BindParams(VarTree.Empty, def.parameter, 0, vals)
  }

  /** A call evaluates its arguments in the caller's store, binds them in a
      fresh store that holds only the parameters, and runs the body in that
      store alone. The caller's store afterwards is the one the arguments
      left: the body cannot change it. */
  lemma CallScope(name: string, args: seq<Expr>, vars: Store, funs: FunTable, fuel: nat)
    requires name in funs && fuel > 0
    requires Arity(funs[name].parameter, 0) <= |funs[name].parameter|
    ensures var def := funs[name];
      var n := Arity(def.parameter, 0);
      Eval(Function(name, args), vars, funs, fuel) ==
      match EvalArgs(args, 0, n, vars, funs, fuel)
      case Err(f) => Err(f)
      case Ok((vals, s)) =>
        match Eval(def.functionBody, LocalStore(def, vals), funs, fuel - 1)
        case Err(f) => Err(f)
        case Ok((v, _)) => Ok((v, s))
    ensures var def := funs[name];
      var n := Arity(def.parameter, 0);
      EvalArgs(args, 0, n, vars, funs, fuel).Ok? ==>
      forall x :: x in VarTree.Contents(LocalStore(def, EvalArgs(args, 0, n, vars, funs, fuel).value.0)) <==>
        x in def.parameter[..n]
  {
    var def := funs[name];
    var n := Arity(def.parameter, 0);
    BindArgsSplits(def.parameter, args, 0, vars, VarTree.Empty, funs, fuel);
    var ea := EvalArgs(args, 0, n, vars, funs, fuel);
    if ea.Ok? {
      BindParamsNames(VarTree.Empty, def.parameter, 0, ea.value.0);
    }
  }

  /** Globals are invisible inside a call: two callers whose arguments
      evaluate to the same values get the same result, whatever else
      their stores hold. */
  lemma CallSeesOnlyArguments(name: string, args: seq<Expr>, vars1: Store, vars2: Store,
                              funs: FunTable, fuel: nat)
    requires name in funs && fuel > 0
    requires Arity(funs[name].parameter, 0) <= |funs[name].parameter|
    requires var n := Arity(funs[name].parameter, 0);
      EvalArgs(args, 0, n, vars1, funs, fuel).Ok? && EvalArgs(args, 0, n, vars2, funs, fuel).Ok? &&
      EvalArgs(args, 0, n, vars1, funs, fuel).value.0 == EvalArgs(args, 0, n, vars2, funs, fuel).value.0
    ensures Eval(Function(name, args), vars1, funs, fuel).Ok? <==>
      Eval(Function(name, args), vars2, funs, fuel).Ok?
    ensures Eval(Function(name, args), vars1, funs, fuel).Ok? ==>
      Eval(Function(name, args), vars1, funs, fuel).value.0 ==
      Eval(Function(name, args), vars2, funs, fuel).value.0
  {
    CallScope(name, args, vars1, funs, fuel);
    CallScope(name, args, vars2, funs, fuel);
  }

  /** A name the body reads that is not a parameter reads as 0, even when
      the caller's store gives it a value. */
  lemma GlobalReadsZero(name: string, x: string, args: seq<Expr>, vars: Store, funs: FunTable, fuel: nat)
    requires name in funs && fuel > 0 && funs[name].functionBody == Variable(x)
    requires Arity(funs[name].parameter, 0) <= |funs[name].parameter|
    requires x !in funs[name].parameter[..Arity(funs[name].parameter, 0)]
    requires EvalArgs(args, 0, Arity(funs[name].parameter, 0), vars, funs, fuel).Ok?
    ensures Eval(Function(name, args), vars, funs, fuel).Ok?
    ensures Eval(Function(name, args), vars, funs, fuel).value.0 == 0
  {
    CallScope(name, args, vars, funs, fuel);
  }

  // ----- Node by node -----

  /** A `Value` is its constant and leaves the store alone; a `Variable`
      reads its name, creating it with value 0 when it is missing. */
  lemma LeafMeaning(v: int, x: string, vars: Store, funs: FunTable, fuel: nat)
    ensures Eval(Value(v), vars, funs, fuel) == Ok((v, vars))
    ensures var r := Eval(Variable(x), vars, funs, fuel);
      r.Ok? &&
      r.value.0 == (if x in VarTree.Contents(vars) then VarTree.Contents(vars)[x] else 0) &&
      VarTree.Contents(r.value.1) == VarTree.Contents(vars)[x := r.value.0] &&
      (x in VarTree.Contents(vars) ==> r.value.1 == vars)
  {
  }

  /** `=` evaluates its right side, stores the value under the text of its
      left side, whatever kind of node that is, and yields the value. */
  lemma AssignMeaning(l: Expr, r: Expr, vars: Store, funs: FunTable, fuel: nat)
    requires Printable(l) && Eval(r, vars, funs, fuel).Ok?
    ensures var res := Eval(Operation(l, "=", r), vars, funs, fuel);
      var rv := Eval(r, vars, funs, fuel).value;
      res.Ok? && res.value.0 == rv.0 &&
      VarTree.Contents(res.value.1) == VarTree.Contents(rv.1)[ToString(l) := rv.0]
  {
  }

  /** Assigning to a number stores under its digits: `3 = 4` gives the
      store `{ 3=4 }`. */
  lemma AssignToNumber(funs: FunTable, fuel: nat)
    ensures var res := Eval(Operation(Value(3), "=", Value(4)), VarTree.Empty, funs, fuel);
      res.Ok? && res.value.0 == 4 && VarTree.Contents(res.value.1) == map["3" := 4]
  {
    assert IntMath.IntToString(3) == "3" by {
      assert IntMath.NatToString(3) == [IntMath.DigitChar(3)];
    }
  }

  /** A relational operation yields 1 when the comparison of its operands'
      values holds and 0 when it does not. */
  lemma RelationalIsBoolean(l: Expr, op: string, r: Expr, vars: Store, funs: FunTable, fuel: nat)
    requires IsRelational(op)
    requires Eval(Operation(l, op, r), vars, funs, fuel).Ok?
    ensures var a := Eval(l, vars, funs, fuel).value;
      var b := Eval(r, a.1, funs, fuel).value;
      var res := Eval(Operation(l, op, r), vars, funs, fuel).value.0;
      (res == 0 || res == 1) &&
      (res == 1 <==>
        ((op == ">" && a.0 > b.0) || (op == "<" && a.0 < b.0) ||
         (op == ">=" && a.0 >= b.0) || (op == "<=" && a.0 <= b.0) ||
         (op == "==" && a.0 == b.0) || (op == "!=" && a.0 != b.0)))
  {
    var a := Eval(l, vars, funs, fuel).value;
    var b := Eval(r, a.1, funs, fuel).value;
    RelationalValue(l, op, r, vars, funs, fuel);
    RelationalMeaning(op, a.0, b.0);
  }

  lemma RelationalValue(l: Expr, op: string, r: Expr, vars: Store, funs: FunTable, fuel: nat)
    requires IsRelational(op)
    requires Eval(Operation(l, op, r), vars, funs, fuel).Ok?
    ensures Eval(l, vars, funs, fuel).Ok?
    ensures var a := Eval(l, vars, funs, fuel).value;
      Eval(r, a.1, funs, fuel).Ok? &&
      Eval(Operation(l, op, r), vars, funs, fuel).value.0 ==
        Apply(op, a.0, Eval(r, a.1, funs, fuel).value.0).value
  {
    RelationalIsNotAssign(op);
  }

  lemma RelationalIsNotAssign(op: string)
    requires IsRelational(op)
    ensures op != "=" && !IsArithmetic(op)
  {
  }

  /** An operator the evaluator does not know yields 0; neither operand is
      evaluated and the store is unchanged. */
  lemma UnknownOperatorIsZero(l: Expr, op: string, r: Expr, vars: Store, funs: FunTable, fuel: nat)
    requires op != "=" && !IsArithmetic(op) && !IsRelational(op)
    ensures Eval(Operation(l, op, r), vars, funs, fuel) == Ok((0, vars))
  {
  }

  /** A conditional whose test is non-zero is its true branch: the false
      branch is never evaluated, so any tree may stand there. */
  lemma TrueTestIgnoresFalseBranch(t: Expr, a: Expr, b1: Expr, b2: Expr, vars: Store, funs: FunTable, fuel: nat)
    requires Eval(t, vars, funs, fuel).Ok? && Eval(t, vars, funs, fuel).value.0 != 0
    ensures Eval(Conditional(t, a, b1), vars, funs, fuel) == Eval(Conditional(t, a, b2), vars, funs, fuel)
    ensures Eval(Conditional(t, a, b1), vars, funs, fuel) == Eval(a, Eval(t, vars, funs, fuel).value.1, funs, fuel)
  {
  }

  /** A conditional whose test is zero is its false branch, whatever the
      true branch is. */
  lemma FalseTestIgnoresTrueBranch(t: Expr, a1: Expr, a2: Expr, b: Expr, vars: Store, funs: FunTable, fuel: nat)
    requires Eval(t, vars, funs, fuel).Ok? && Eval(t, vars, funs, fuel).value.0 == 0
    ensures Eval(Conditional(t, a1, b), vars, funs, fuel) == Eval(Conditional(t, a2, b), vars, funs, fuel)
    ensures Eval(Conditional(t, a1, b), vars, funs, fuel) == Eval(b, Eval(t, vars, funs, fuel).value.1, funs, fuel)
  {
  }

  // ----- Fuel -----

  /** Fuel bounds only the depth of nested calls: an evaluation that did not
      run out of fuel gives the same outcome with any larger bound. */
  lemma {:induction false} FuelOnlyBoundsDepth(e: Expr, vars: Store, funs: FunTable, f1: nat, f2: nat)
    requires f1 <= f2 && Eval(e, vars, funs, f1) != Err(OutOfFuel)
    ensures Eval(e, vars, funs, f2) == Eval(e, vars, funs, f1)
    decreases f1, e
  {
    match e
    case Nil =>
    case Value(_) =>
    case Variable(_) =>
    case Operation(l, op, r) =>
      if op == "=" {
        FuelOnlyBoundsDepth(r, vars, funs, f1, f2);
      } else if IsArithmetic(op) || IsRelational(op) {
        FuelOnlyBoundsDepth(l, vars, funs, f1, f2);
        var lv := Eval(l, vars, funs, f1);
        if lv.Ok? {
          FuelOnlyBoundsDepth(r, lv.value.1, funs, f1, f2);
        }
      }
    case Conditional(t, a, b) =>
      FuelOnlyBoundsDepth(t, vars, funs, f1, f2);
      var tv := Eval(t, vars, funs, f1);
      if tv.Ok? {
        if tv.value.0 != 0 {
          FuelOnlyBoundsDepth(a, tv.value.1, funs, f1, f2);
        } else {
          FuelOnlyBoundsDepth(b, tv.value.1, funs, f1, f2);
        }
      }
    case Function(name, args) =>
      if name in funs && f1 > 0 {
        var def := funs[name];
        BindArgsFuel(def.parameter, args, 0, vars, VarTree.Empty, funs, f1, f2);
        var bound := BindArgs(def.parameter, args, 0, vars, VarTree.Empty, funs, f1);
        if bound.Ok? {
          FuelOnlyBoundsDepth(def.functionBody, bound.value.0, funs, f1 - 1, f2 - 1);
        }
      }
  }

  lemma {:induction false} BindArgsFuel(names: seq<string>, args: seq<Expr>, i: nat, caller: Store, local: Store,
                                        funs: FunTable, f1: nat, f2: nat)
    requires f1 <= f2 && BindArgs(names, args, i, caller, local, funs, f1) != Err(OutOfFuel)
    ensures BindArgs(names, args, i, caller, local, funs, f2) == BindArgs(names, args, i, caller, local, funs, f1)
    decreases f1, args, MaxArity - i
  {
    if i < MaxArity && ParamName(names, i) != "" && i < |args| {
      FuelOnlyBoundsDepth(args[i], caller, funs, f1, f2);
      var av := Eval(args[i], caller, funs, f1);
      if av.Ok? {
        BindArgsFuel(names, args, i + 1, av.value.1, VarTree.Assign(local, names[i], av.value.0), funs, f1, f2);
      }
    }
  }
}
