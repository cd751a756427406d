/** The Homework 7 compiler front end (`compile.cpp`): a recursive-descent
    parser from the token list to an expression tree, `deffn` function
    definitions, and the framing of `compile` around the lowering of a
    tree to machine instructions.

    Precedence from loosest to tightest: `=` (grouping to the right),
    `? :`, the relational operators, `+ -`, `* / %`, and factors. Every
    level except `=` groups to the left. A parse never fails: where the
    input is malformed the tree holds a null operand (`Nil`), as the
    source's does.

    The iterator is a position in the token sequence; past the last token
    `tokenText` answers the empty string, `tokenChar()` NUL, and
    `advance()` stays put. */
module Compile {
  import opened IntMath
  import opened Outcomes
  import opened Tokens
  import opened ExprTree
  import Evaluate
  import Machine

  type Store = Evaluate.Store

  /** `isOperator`: the token's text is one of the seventeen operator
      symbols; everything else is a number or a name. */
  predicate IsOperator(t: Token) {
    var s := Text(t);
    s == "+" || s == "-" || s == "*" || s == "/" || s == "%" ||
    s == "(" || s == ")" || s == "=" || s == "?" || s == ":" ||
    s == ">" || s == "<" || s == ">=" || s == "<=" || s == "==" ||
    s == "!=" || s == ","
  }

  /** `tokenText`: the text of the token at `pos`, or `""` at the end. */
  function TokenText(toks: seq<Token>, pos: nat): (s: string)
    ensures pos >= |toks| ==> s == ""
    ensures s != [] ==> pos < |toks|
    ensures pos < |toks| && toks[pos].Oper? ==> s == toks[pos].sym
  {
    if pos < |toks| then Text(toks[pos]) else ""
  }

  /** A parsed part of the input: the tree and the position after it. */
  type Parsed = (Expr, nat)

  // ----- The parser -----

  /** `assignmentToTree`: an optional leading `-` that negates the whole
      conditional after it, then any number of `= assignment`. */
  function AssignmentToTree(toks: seq<Token>, pos: nat, funs: FunTable): (r: Parsed)
    requires pos <= |toks|
    ensures pos <= r.1 <= |toks|
    decreases |toks| - pos, 10, 0
  {
    if CharAt(toks, pos) == '-' then
      var c := ConditionalToTree(toks, pos + 1, funs);
      AssignmentRest(toks, c.1, Negated(c.0), funs)
    else
      var c := ConditionalToTree(toks, pos, funs);
      AssignmentRest(toks, c.1, c.0, funs)
  }

  /** The `while (oper == "=")` loop of `assignmentToTree`. The right side
      is a whole assignment, so `=` groups to the right. */
  function AssignmentRest(toks: seq<Token>, pos: nat, lhs: Expr, funs: FunTable): (r: Parsed)
    requires pos <= |toks|
    ensures pos <= r.1 <= |toks|
    decreases |toks| - pos, 9, 0
  {
    if TokenText(toks, pos) == "=" then
      var rhs := AssignmentToTree(toks, pos + 1, funs);
      AssignmentRest(toks, rhs.1, Operation(lhs, "=", rhs.0), funs)
    else (lhs, pos)
  }

  /** `conditionalToTree`: an optional leading `-` that negates the first
      test, then any number of `? test : test`. */
  function ConditionalToTree(toks: seq<Token>, pos: nat, funs: FunTable): (r: Parsed)
    requires pos <= |toks|
    ensures pos <= r.1 <= |toks|
    decreases |toks| - pos, 8, 0
  {
    if CharAt(toks, pos) == '-' then
      var t := TestToTree(toks, pos + 1, funs);
      ConditionalRest(toks, t.1, Negated(t.0), funs)
    else
      var t := TestToTree(toks, pos, funs);
      ConditionalRest(toks, t.1, t.0, funs)
  }

  /** The `while (oper == "?")` loop: both branches are tests, the token
      between them is skipped unread (it is assumed to be `:`), and the
      conditional built so far becomes the test of the next one. */
  function ConditionalRest(toks: seq<Token>, pos: nat, test: Expr, funs: FunTable): (r: Parsed)
    requires pos <= |toks|
    ensures pos <= r.1 <= |toks|
    decreases |toks| - pos, 7, 0
  {
    if TokenText(toks, pos) == "?" then
      var yes := TestToTree(toks, pos + 1, funs);
      var no := TestToTree(toks, Advance(toks, yes.1), funs);
      ConditionalRest(toks, no.1, Conditional(test, yes.0, no.0), funs)
    else (test, pos)
  }

  /** `testToTree`: an optional leading `-` that negates the first sum,
      then any number of `relop sum`. */
  function TestToTree(toks: seq<Token>, pos: nat, funs: FunTable): (r: Parsed)
    requires pos <= |toks|
    ensures pos <= r.1 <= |toks|
    decreases |toks| - pos, 6, 0
  {
    if CharAt(toks, pos) == '-' then
      var s := SumToTree(toks, pos + 1, funs);
      TestRest(toks, s.1, Negated(s.0), funs)
    else
      var s := SumToTree(toks, pos, funs);
      TestRest(toks, s.1, s.0, funs)
  }

  function TestRest(toks: seq<Token>, pos: nat, lhs: Expr, funs: FunTable): (r: Parsed)
    requires pos <= |toks|
    ensures pos <= r.1 <= |toks|
    decreases |toks| - pos, 5, 0
  {
    var op := TokenText(toks, pos);
    if IsRelational(op) then
      var rhs := SumToTree(toks, pos + 1, funs);
      TestRest(toks, rhs.1, Operation(lhs, op, rhs.0), funs)
    else (lhs, pos)
  }

  /** `sumToTree`: an optional leading `-` that negates the first product,
      then any number of `+ product` or `- product`. */
  function SumToTree(toks: seq<Token>, pos: nat, funs: FunTable): (r: Parsed)
    requires pos <= |toks|
    ensures pos <= r.1 <= |toks|
    decreases |toks| - pos, 4, 0
  {
    if CharAt(toks, pos) == '-' then
      var p := ProdToTree(toks, pos + 1, funs);
      SumRest(toks, p.1, Negated(p.0), funs)
    else
      var p := ProdToTree(toks, pos, funs);
      SumRest(toks, p.1, p.0, funs)
  }

  function SumRest(toks: seq<Token>, pos: nat, lhs: Expr, funs: FunTable): (r: Parsed)
    requires pos <= |toks|
    ensures pos <= r.1 <= |toks|
    decreases |toks| - pos, 3, 0
  {
    var op := TokenText(toks, pos);
    if op == "+" || op == "-" then
      var rhs := ProdToTree(toks, pos + 1, funs);
      SumRest(toks, rhs.1, Operation(lhs, op, rhs.0), funs)
    else (lhs, pos)
  }

  /** `prodToTree`: a factor, then any number of `* factor`, `/ factor`
      or `% factor`. */
  function ProdToTree(toks: seq<Token>, pos: nat, funs: FunTable): (r: Parsed)
    requires pos <= |toks|
    ensures pos <= r.1 <= |toks|
    decreases |toks| - pos, 2, 0
  {
    var f := FactorToTree(toks, pos, funs);
    ProdRest(toks, f.1, f.0, funs)
  }

  function ProdRest(toks: seq<Token>, pos: nat, lhs: Expr, funs: FunTable): (r: Parsed)
    requires pos <= |toks|
    ensures pos <= r.1 <= |toks|
    decreases |toks| - pos, 1, 0
  {
    var op := TokenText(toks, pos);
    if op == "*" || op == "/" || op == "%" then
      var rhs := FactorToTree(toks, pos + 1, funs);
      ProdRest(toks, rhs.1, Operation(lhs, op, rhs.0), funs)
    else (lhs, pos)
  }

  /** `factorToTree`: null at the end of the input; a number; a call, when
      the name is in the function table at this moment; a variable; a
      negated factor after `-`; or an assignment between an assumed `(`
      and an assumed `)`. Away from the end it consumes at least one
      token. */
  function FactorToTree(toks: seq<Token>, pos: nat, funs: FunTable): (r: Parsed)
    requires pos <= |toks|
    ensures pos <= r.1 <= |toks|
    ensures pos < |toks| ==> pos < r.1
    ensures pos == |toks| ==> r == (Nil, pos)
    decreases |toks| - pos, 0, 0
  {
    if pos == |toks| then (Nil, pos)
    else
      var t := toks[pos];
      if !IsOperator(t) then
        if t.Int? then (Value(t.value), pos + 1)
        else if Text(t) in funs then
          var args := CallArgs(toks, Advance(toks, pos + 1), 0, funs);
          (Function(Text(t), args.0), Advance(toks, args.1))
        else (Variable(Text(t)), pos + 1)
      else if TokenChar(t) == '-' then
        var f := FactorToTree(toks, pos + 1, funs);
        (Negated(f.0), f.1)
      else
        var e := AssignmentToTree(toks, pos + 1, funs);
        (e.0, Advance(toks, e.1))
  }

  /** The ten argument slots of a call, from slot `i` on: an assignment for
      each slot until `)` is reached (a `,` after an argument is skipped),
      and null for every slot after it. */
  function CallArgs(toks: seq<Token>, pos: nat, i: nat, funs: FunTable): (r: (seq<Expr>, nat))
    requires pos <= |toks| && i <= MaxArity
    ensures |r.0| == MaxArity - i && pos <= r.1 <= |toks|
    decreases |toks| - pos, 11, MaxArity - i
  {
    if i == MaxArity then ([], pos)
    else if TokenText(toks, pos) != ")" then
      var a := AssignmentToTree(toks, pos, funs);
      var next := if TokenText(toks, a.1) == "," then a.1 + 1 else a.1;
      var rest := CallArgs(toks, next, i + 1, funs);
      ([a.0] + rest.0, rest.1)
    else
      var rest := CallArgs(toks, pos, i + 1, funs);
      ([Nil] + rest.0, rest.1)
  }

  // ----- Function definitions -----

  /** The parameter loop of `makeFunction`: names up to `)`, a `,` after a
      name skipped. Writing an eleventh name overruns the ten-slot
      parameter array. */
  function ParamList(toks: seq<Token>, pos: nat, acc: seq<string>): (r: Result<(seq<string>, nat)>)
    requires pos <= |toks| && |acc| <= MaxArity
    ensures r.Ok? ==> |acc| <= |r.value.0| <= MaxArity && r.value.0[..|acc|] == acc
    ensures r.Ok? ==> pos <= r.value.1 < |toks| && TokenText(toks, r.value.1) == ")"
    ensures r.Err? ==> r.fault == TooManyParameters
    decreases MaxArity - |acc|
  {
    if TokenText(toks, pos) == ")" then Ok((acc, pos))
    else if |acc| == MaxArity then Err(TooManyParameters)
    else
      var p := Advance(toks, pos);
      var next := if TokenText(toks, p) == "," then p + 1 else p;
      var r := ParamList(toks, next, acc + [TokenText(toks, pos)]);
      assert r.Ok? ==> r.value.0[..|acc|] == (acc + [TokenText(toks, pos)])[..|acc|];
      r
  }

  /** `makeFunction` for the tokens `deffn name ( params ) body`. The name
      enters the table before the body is parsed, so the body can call the
      function it defines; a second definition of a name replaces the
      first. While the body is parsed the entry holds the name alone: the
      parse asks only whether a name is in the table. The source has
      already filled in the parameter slots by then. */
  function MakeFunction(toks: seq<Token>, funs: FunTable): (r: Result<FunTable>)
    ensures var name := TokenText(toks, Advance(toks, 0));
      r.Ok? ==>
        r.value.Keys == funs.Keys + {name} && r.value[name].name == name &&
        |r.value[name].parameter| == MaxArity &&
        (forall n :: n in funs && n != name ==> r.value[n] == funs[n])
  {
    var p0 := Advance(toks, 0);
    var name := TokenText(toks, p0);
    var registered := funs[name := FunDef(name, PadParams([]), Nil)];
    var p1 := Advance(toks, Advance(toks, p0));
    var (params, p2) :- ParamList(toks, p1, []);
    var body := AssignmentToTree(toks, p2 + 1, registered);
    Ok(funs[name := FunDef(name, PadParams(params), body.0)])
  }

  // ----- compile -----

  /** What `toInstruction` does to a tree: the instructions it appends,
      the register holding the answer, and the variable store afterwards.
      Its code is not part of this model, so `Compile` takes it as a
      parameter. */
  datatype Lowered = Lowered(code: seq<Machine.Instr>, answer: nat, vars: Store)

  /** The state `compile` updates: the function table, the variable store,
      the program `prog[0..pEnd]` and `pBegin`. */
  datatype Compiled = Compiled(funs: FunTable, vars: Store, prog: seq<Machine.Instr>, pBegin: nat)

  /** `compile`: a `deffn` line defines a function and emits nothing; any
      other line is parsed as an assignment, lowered, and followed by one
      `Print` of the answer register, and the program then starts at 0. A
      line that parses to a null tree (a blank line, say) is lowered
      through the null root: `Err(NullNode)`. */
  function Compile(toks: seq<Token>, st: Compiled, lower: (Expr, Store) -> Lowered): (r: Result<Compiled>)
    ensures TokenText(toks, 0) == "deffn" ==>
      (r.Ok? <==> MakeFunction(toks, st.funs).Ok?) &&
      (r.Ok? ==> r.value == st.(funs := MakeFunction(toks, st.funs).value))
    ensures TokenText(toks, 0) != "deffn" ==>
      (r.Ok? <==> AssignmentToTree(toks, 0, st.funs).0 != Nil)
    ensures TokenText(toks, 0) != "deffn" && AssignmentToTree(toks, 0, st.funs).0 != Nil ==>
      var low := lower(AssignmentToTree(toks, 0, st.funs).0, st.vars);
      r.Ok? && r.value.funs == st.funs && r.value.pBegin == 0 && r.value.vars == low.vars &&
      r.value.prog == st.prog + low.code + [Machine.Print(low.answer)]
  {
    if TokenText(toks, 0) == "deffn" then
      var funs :- MakeFunction(toks, st.funs);
      Ok(st.(funs := funs))
    else
      var root := AssignmentToTree(toks, 0, st.funs);
      if root.0 == Nil then Err(NullNode)
      else
        var low := lower(root.0, st.vars);
        Ok(Compiled(st.funs, low.vars, st.prog + low.code + [Machine.Print(low.answer)], 0))
  }

  /** Running a compiled line runs the program so far and the lowered
      code, and then prints the answer register: the one value the line
      writes to the console is its answer. */
  lemma CompiledLinePrintsAnswer(toks: seq<Token>, st: Compiled, lower: (Expr, Store) -> Lowered,
                                 s: Machine.State, s1: Machine.State)
    requires TokenText(toks, 0) != "deffn" && AssignmentToTree(toks, 0, st.funs).0 != Nil
    requires var low := lower(AssignmentToTree(toks, 0, st.funs).0, st.vars);
      Machine.Run(st.prog + low.code, s) == Ok(s1) && low.answer < |s1.regs|
    ensures var low := lower(AssignmentToTree(toks, 0, st.funs).0, st.vars);
      var r := Compile(toks, st, lower);
      r.Ok? && r.value.pBegin == 0 &&
      Machine.Run(r.value.prog, s) == Ok(s1.(output := s1.output + [s1.regs[low.answer]]))
  {
    var low := lower(AssignmentToTree(toks, 0, st.funs).0, st.vars);
    Machine.RunAppend(st.prog + low.code, [Machine.Print(low.answer)], s);
    assert [Machine.Print(low.answer)][1..] == [];
  }

  /** A blank line parses to the null tree, so compiling it fails where
      the source calls `toInstruction` through a null root. */
  lemma BlankLineFails(st: Compiled, lower: (Expr, Store) -> Lowered)
    ensures AssignmentToTree([], 0, st.funs).0 == Nil
    ensures Compile([], st, lower) == Err(NullNode)
  {
  }

  // ----- Shape of the trees the parser builds -----

  /** An integer token is never taken for an operator. */
  lemma IntIsOperand(v: int)
    ensures !IsOperator(Int(v))
  {
    var s := IntToString(v);
    if v >= 0 {
      assert IsDigit(s[0]);
    } else {
      assert |s| >= 2 && IsDigit(s[1]) by {
        assert |s| == 1 + |NatToString(-v)|;
        assert s[1..] == NatToString(-v);
      }
    }
  }

  /** A number, or a name that is not a function: a token that parses as
      a leaf on its own. */
  predicate IsLeaf(t: Token, funs: FunTable) {
    (t.Int? || (t.Ident? && t.name !in funs)) && !IsOperator(t)
  }

  function Leaf(t: Token): Expr {
    if t.Int? then Value(t.value) else Variable(Text(t))
  }

  /** The token at `pos` continues none of the operator loops. */
  predicate Stops(toks: seq<Token>, pos: nat) {
    var s := TokenText(toks, pos);
    s != "=" && s != "?" && !IsRelational(s) && s != "+" && s != "-" &&
    s != "*" && s != "/" && s != "%"
  }

  /** Every loop ends at a token that continues none of them. */
  lemma RestsStop(toks: seq<Token>, pos: nat, e: Expr, funs: FunTable)
    requires pos <= |toks| && Stops(toks, pos)
    ensures AssignmentRest(toks, pos, e, funs) == (e, pos)
    ensures ConditionalRest(toks, pos, e, funs) == (e, pos)
    ensures TestRest(toks, pos, e, funs) == (e, pos)
    ensures SumRest(toks, pos, e, funs) == (e, pos)
    ensures ProdRest(toks, pos, e, funs) == (e, pos)
  {
  }

  /** A leaf token is a whole factor, and the start of a product. */
  lemma LeafFactor(toks: seq<Token>, pos: nat, funs: FunTable)
    requires pos < |toks| && IsLeaf(toks[pos], funs)
    ensures FactorToTree(toks, pos, funs) == (Leaf(toks[pos]), pos + 1)
    ensures ProdToTree(toks, pos, funs) == ProdRest(toks, pos + 1, Leaf(toks[pos]), funs)
    ensures CharAt(toks, pos) != '-'
  {
  }

  /** A leaf followed by a token that continues no loop parses as that
      leaf at every level. */
  lemma LeafAlone(toks: seq<Token>, pos: nat, funs: FunTable)
    requires pos < |toks| && IsLeaf(toks[pos], funs) && Stops(toks, pos + 1)
    ensures var r := (Leaf(toks[pos]), pos + 1);
      ProdToTree(toks, pos, funs) == r && SumToTree(toks, pos, funs) == r &&
      TestToTree(toks, pos, funs) == r && ConditionalToTree(toks, pos, funs) == r &&
      AssignmentToTree(toks, pos, funs) == r
  {
    var e := Leaf(toks[pos]);
    LeafFactor(toks, pos, funs);
    RestsStop(toks, pos + 1, e, funs);
  }

  /** A leaf as a product, a sum or a test, continued by the loop of that
      level. */
  lemma LeafLevels(toks: seq<Token>, pos: nat, funs: FunTable)
    requires pos < |toks| && IsLeaf(toks[pos], funs)
    ensures var e, p := Leaf(toks[pos]), pos + 1;
      ProdToTree(toks, pos, funs) == ProdRest(toks, p, e, funs) &&
      (TokenText(toks, p) != "*" && TokenText(toks, p) != "/" && TokenText(toks, p) != "%" ==>
        SumToTree(toks, pos, funs) == SumRest(toks, p, e, funs))
  {
    LeafFactor(toks, pos, funs);
  }

  /** The token at `pos` ends a test: it continues none of the relational,
      additive or multiplicative loops. */
  predicate EndsTest(toks: seq<Token>, pos: nat) {
    var s := TokenText(toks, pos);
    !IsRelational(s) && s != "+" && s != "-" && s != "*" && s != "/" && s != "%"
  }

  /** A leaf before a token that ends a test is a whole test. */
  lemma LeafTest(toks: seq<Token>, pos: nat, funs: FunTable)
    requires pos < |toks| && IsLeaf(toks[pos], funs) && EndsTest(toks, pos + 1)
    ensures TestToTree(toks, pos, funs) == (Leaf(toks[pos]), pos + 1)
  {
    var e := Leaf(toks[pos]);
    LeafFactor(toks, pos, funs);
    ProdRestStops(toks, pos + 1, e, funs);
    SumRestStops(toks, pos + 1, e, funs);
    TestRestStops(toks, pos + 1, e, funs);
    assert SumToTree(toks, pos, funs) == (e, pos + 1);
  }

  /** ... and the start of a conditional. */
  lemma LeafConditional(toks: seq<Token>, pos: nat, funs: FunTable)
    requires pos < |toks| && IsLeaf(toks[pos], funs) && EndsTest(toks, pos + 1)
    ensures ConditionalToTree(toks, pos, funs) == ConditionalRest(toks, pos + 1, Leaf(toks[pos]), funs)
  {
    LeafTest(toks, pos, funs);
    LeafFactor(toks, pos, funs);
  }

  /** A leaf before a token that continues no sum is a whole sum. */
  lemma LeafSum(toks: seq<Token>, pos: nat, funs: FunTable)
    requires pos < |toks| && IsLeaf(toks[pos], funs)
    requires var s := TokenText(toks, pos + 1);
      s != "+" && s != "-" && s != "*" && s != "/" && s != "%"
    ensures SumToTree(toks, pos, funs) == (Leaf(toks[pos]), pos + 1)
    ensures TestToTree(toks, pos, funs) == TestRest(toks, pos + 1, Leaf(toks[pos]), funs)
  {
    LeafFactor(toks, pos, funs);
  }

  /** A sum that starts without `-` and ends where no loop continues is a
      whole assignment. */
  lemma SumIsAssignment(toks: seq<Token>, pos: nat, funs: FunTable)
    requires pos <= |toks| && CharAt(toks, pos) != '-'
    requires Stops(toks, SumToTree(toks, pos, funs).1)
    ensures AssignmentToTree(toks, pos, funs) == SumToTree(toks, pos, funs)
  {
    var s := SumToTree(toks, pos, funs);
    RestsStop(toks, s.1, s.0, funs);
    assert TestToTree(toks, pos, funs) == s;
    assert ConditionalToTree(toks, pos, funs) == s;
  }

  /** Each operator loop ends at a token that does not continue it. */
  lemma ProdRestStops(toks: seq<Token>, pos: nat, e: Expr, funs: FunTable)
    requires pos <= |toks| && !IsMultiplicative(TokenText(toks, pos))
    ensures ProdRest(toks, pos, e, funs) == (e, pos)
  {
  }

  lemma SumRestStops(toks: seq<Token>, pos: nat, e: Expr, funs: FunTable)
    requires pos <= |toks| && !IsAdditive(TokenText(toks, pos))
    ensures SumRest(toks, pos, e, funs) == (e, pos)
  {
  }

  lemma TestRestStops(toks: seq<Token>, pos: nat, e: Expr, funs: FunTable)
    requires pos <= |toks| && !IsRelational(TokenText(toks, pos))
    ensures TestRest(toks, pos, e, funs) == (e, pos)
  {
  }

  /** A test that starts without `-` and ends where no loop continues is a
      whole assignment. */
  lemma TestIsAssignment(toks: seq<Token>, pos: nat, funs: FunTable)
    requires pos <= |toks| && CharAt(toks, pos) != '-'
    requires Stops(toks, TestToTree(toks, pos, funs).1)
    ensures AssignmentToTree(toks, pos, funs) == TestToTree(toks, pos, funs)
  {
    var t := TestToTree(toks, pos, funs);
    RestsStop(toks, t.1, t.0, funs);
    assert ConditionalToTree(toks, pos, funs) == t;
  }

  /** One round of each operator loop. */
  lemma SumStep(toks: seq<Token>, pos: nat, lhs: Expr, funs: FunTable)
    requires pos < |toks| && IsAdditive(TokenText(toks, pos))
    ensures var p := ProdToTree(toks, pos + 1, funs);
      SumRest(toks, pos, lhs, funs) == SumRest(toks, p.1, Operation(lhs, TokenText(toks, pos), p.0), funs)
  {
  }

  lemma ProdStep(toks: seq<Token>, pos: nat, lhs: Expr, funs: FunTable)
    requires pos < |toks| && IsMultiplicative(TokenText(toks, pos))
    ensures var f := FactorToTree(toks, pos + 1, funs);
      ProdRest(toks, pos, lhs, funs) == ProdRest(toks, f.1, Operation(lhs, TokenText(toks, pos), f.0), funs)
  {
  }

  lemma TestStep(toks: seq<Token>, pos: nat, lhs: Expr, funs: FunTable)
    requires pos < |toks| && IsRelational(TokenText(toks, pos))
    ensures var s := SumToTree(toks, pos + 1, funs);
      TestRest(toks, pos, lhs, funs) == TestRest(toks, s.1, Operation(lhs, TokenText(toks, pos), s.0), funs)
  {
  }

  // ----- Precedence and grouping -----

  /** Three operands and two operators, `a o1 b o2 c`. */
  function Infix3(a: Token, o1: string, b: Token, o2: string, c: Token): seq<Token> {
    [a, Oper(o1), b, Oper(o2), c]
  }

  lemma Infix3Indices(a: Token, o1: string, b: Token, o2: string, c: Token)
    ensures var toks := Infix3(a, o1, b, o2, c);
      |toks| == 5 && toks[0] == a && toks[1] == Oper(o1) && toks[2] == b &&
      toks[3] == Oper(o2) && toks[4] == c
  {
  }

  predicate IsAdditive(op: string) {
    op == "+" || op == "-"
  }

  predicate IsMultiplicative(op: string) {
    op == "*" || op == "/" || op == "%"
  }

  /** `* / %` bind tighter than `+ -` when they come second: `2+3*4` is
      `2 + (3*4)`. */
  lemma ProductInsideSum(a: Token, o1: string, b: Token, o2: string, c: Token, funs: FunTable)
    requires IsLeaf(a, funs) && IsLeaf(b, funs) && IsLeaf(c, funs)
    requires IsAdditive(o1) && IsMultiplicative(o2)
    ensures AssignmentToTree(Infix3(a, o1, b, o2, c), 0, funs) ==
      (Operation(Leaf(a), o1, Operation(Leaf(b), o2, Leaf(c))), 5)
  {
    var toks := Infix3(a, o1, b, o2, c);
    var bc := Operation(Leaf(b), o2, Leaf(c));
    var e := Operation(Leaf(a), o1, bc);
    Infix3Indices(a, o1, b, o2, c);
    EndEndsTest(toks);
    LeafSum(toks, 4, funs);
    LeafFactor(toks, 4, funs);
    ProdStep(toks, 3, Leaf(b), funs);
    RestsStop(toks, 5, bc, funs);
    LeafFactor(toks, 2, funs);
    assert ProdToTree(toks, 2, funs) == (bc, 5);
    SumStep(toks, 1, Leaf(a), funs);
    RestsStop(toks, 5, e, funs);
    LeafLevels(toks, 0, funs);
    assert SumToTree(toks, 0, funs) == (e, 5);
    SumIsAssignment(toks, 0, funs);
  }

  /** ... and when they come first: `2*3+4` is `(2*3) + 4`. */
  lemma ProductBeforeSum(a: Token, o1: string, b: Token, o2: string, c: Token, funs: FunTable)
    requires IsLeaf(a, funs) && IsLeaf(b, funs) && IsLeaf(c, funs)
    requires IsMultiplicative(o1) && IsAdditive(o2)
    ensures AssignmentToTree(Infix3(a, o1, b, o2, c), 0, funs) ==
      (Operation(Operation(Leaf(a), o1, Leaf(b)), o2, Leaf(c)), 5)
  {
    var toks := Infix3(a, o1, b, o2, c);
    var ab := Operation(Leaf(a), o1, Leaf(b));
    var e := Operation(ab, o2, Leaf(c));
    ProductFirst(toks, o1, o2, funs);
    LeafSum(toks, 4, funs);
    LeafFactor(toks, 4, funs);
    SumStep(toks, 3, ab, funs);
    RestsStop(toks, 5, e, funs);
    assert SumToTree(toks, 0, funs) == (e, 5);
    SumIsAssignment(toks, 0, funs);
  }

  lemma ProductFirst(toks: seq<Token>, o1: string, o2: string, funs: FunTable)
    requires |toks| == 5 && toks[1] == Oper(o1) && toks[3] == Oper(o2)
    requires IsLeaf(toks[0], funs) && IsLeaf(toks[2], funs)
    requires IsMultiplicative(o1) && IsAdditive(o2)
    ensures ProdToTree(toks, 0, funs) == (Operation(Leaf(toks[0]), o1, Leaf(toks[2])), 3)
    ensures CharAt(toks, 0) != '-'
  {
    var ab := Operation(Leaf(toks[0]), o1, Leaf(toks[2]));
    LeafFactor(toks, 2, funs);
    ProdStep(toks, 1, Leaf(toks[0]), funs);
    ProdRestStops(toks, 3, ab, funs);
    LeafFactor(toks, 0, funs);
  }

  /** `+` and `-` group to the left: `a - b - c` is `(a - b) - c`. */
  lemma SumsGroupLeft(a: Token, o1: string, b: Token, o2: string, c: Token, funs: FunTable)
    requires IsLeaf(a, funs) && IsLeaf(b, funs) && IsLeaf(c, funs)
    requires IsAdditive(o1) && IsAdditive(o2)
    ensures AssignmentToTree(Infix3(a, o1, b, o2, c), 0, funs) ==
      (Operation(Operation(Leaf(a), o1, Leaf(b)), o2, Leaf(c)), 5)
  {
    var toks := Infix3(a, o1, b, o2, c);
    var ab := Operation(Leaf(a), o1, Leaf(b));
    var e := Operation(ab, o2, Leaf(c));
    SumsGroupLeftProducts(a, o1, b, o2, c, funs);
    SumStep(toks, 1, Leaf(a), funs);
    SumStep(toks, 3, ab, funs);
    SumRestStops(toks, 5, e, funs);
    assert SumToTree(toks, 0, funs) == (e, 5);
    SumIsAssignment(toks, 0, funs);
  }

  lemma SumsGroupLeftProducts(a: Token, o1: string, b: Token, o2: string, c: Token, funs: FunTable)
    requires IsLeaf(a, funs) && IsLeaf(b, funs) && IsLeaf(c, funs)
    requires IsAdditive(o1) && IsAdditive(o2)
    ensures var toks := Infix3(a, o1, b, o2, c);
      SumToTree(toks, 0, funs) == SumRest(toks, 1, Leaf(a), funs) && CharAt(toks, 0) != '-' &&
      ProdToTree(toks, 2, funs) == (Leaf(b), 3) && ProdToTree(toks, 4, funs) == (Leaf(c), 5)
  {
    var toks := Infix3(a, o1, b, o2, c);
    LeafLevels(toks, 0, funs);
    LeafFactor(toks, 2, funs);
    ProdRestStops(toks, 3, Leaf(b), funs);
    LeafFactor(toks, 4, funs);
    ProdRestStops(toks, 5, Leaf(c), funs);
  }

  /** `* / %` group to the left: `a / b * c` is `(a / b) * c`. */
  lemma ProductsGroupLeft(a: Token, o1: string, b: Token, o2: string, c: Token, funs: FunTable)
    requires IsLeaf(a, funs) && IsLeaf(b, funs) && IsLeaf(c, funs)
    requires IsMultiplicative(o1) && IsMultiplicative(o2)
    ensures AssignmentToTree(Infix3(a, o1, b, o2, c), 0, funs) ==
      (Operation(Operation(Leaf(a), o1, Leaf(b)), o2, Leaf(c)), 5)
  {
    var toks := Infix3(a, o1, b, o2, c);
    var ab := Operation(Leaf(a), o1, Leaf(b));
    var e := Operation(ab, o2, Leaf(c));
    LeafFactor(toks, 0, funs);
    LeafFactor(toks, 2, funs);
    LeafFactor(toks, 4, funs);
    ProdStep(toks, 1, Leaf(a), funs);
    ProdStep(toks, 3, ab, funs);
    RestsStop(toks, 5, e, funs);
    assert ProdToTree(toks, 0, funs) == (e, 5);
    assert SumToTree(toks, 0, funs) == (e, 5);
    SumIsAssignment(toks, 0, funs);
  }

  /** The relational operators group to the left: `a < b == c` is
      `(a < b) == c`. */
  lemma TestsGroupLeft(a: Token, o1: string, b: Token, o2: string, c: Token, funs: FunTable)
    requires IsLeaf(a, funs) && IsLeaf(b, funs) && IsLeaf(c, funs)
    requires IsRelational(o1) && IsRelational(o2)
    ensures AssignmentToTree(Infix3(a, o1, b, o2, c), 0, funs) ==
      (Operation(Operation(Leaf(a), o1, Leaf(b)), o2, Leaf(c)), 5)
  {
    var toks := Infix3(a, o1, b, o2, c);
    var ab := Operation(Leaf(a), o1, Leaf(b));
    var e := Operation(ab, o2, Leaf(c));
    TestsGroupLeftSums(a, o1, b, o2, c, funs);
    TestStep(toks, 1, Leaf(a), funs);
    TestStep(toks, 3, ab, funs);
    TestRestStops(toks, 5, e, funs);
    assert TestToTree(toks, 0, funs) == (e, 5);
    RestsStop(toks, 5, e, funs);
  }

  lemma TestsGroupLeftSums(a: Token, o1: string, b: Token, o2: string, c: Token, funs: FunTable)
    requires IsLeaf(a, funs) && IsLeaf(b, funs) && IsLeaf(c, funs)
    requires IsRelational(o1) && IsRelational(o2)
    ensures var toks := Infix3(a, o1, b, o2, c);
      TestToTree(toks, 0, funs) == TestRest(toks, 1, Leaf(a), funs) &&
      SumToTree(toks, 2, funs) == (Leaf(b), 3) && SumToTree(toks, 4, funs) == (Leaf(c), 5) &&
      CharAt(toks, 0) != '-'
  {
    RelationalSums(Infix3(a, o1, b, o2, c), o1, o2, funs);
  }

  lemma RelationalSums(toks: seq<Token>, o1: string, o2: string, funs: FunTable)
    requires |toks| == 5 && toks[1] == Oper(o1) && toks[3] == Oper(o2)
    requires IsLeaf(toks[0], funs) && IsLeaf(toks[2], funs) && IsLeaf(toks[4], funs)
    requires IsRelational(o1) && IsRelational(o2)
    ensures TestToTree(toks, 0, funs) == TestRest(toks, 1, Leaf(toks[0]), funs) &&
      SumToTree(toks, 2, funs) == (Leaf(toks[2]), 3) && SumToTree(toks, 4, funs) == (Leaf(toks[4]), 5) &&
      CharAt(toks, 0) != '-'
  {
    LeafSum(toks, 0, funs);
    LeafSum(toks, 2, funs);
    LeafSum(toks, 4, funs);
  }

  /** `=` groups to the right: `a = b = c` is `a = (b = c)`. */
  lemma AssignmentsGroupRight(a: Token, b: Token, c: Token, funs: FunTable)
    requires IsLeaf(a, funs) && IsLeaf(b, funs) && IsLeaf(c, funs)
    ensures AssignmentToTree(Infix3(a, "=", b, "=", c), 0, funs) ==
      (Operation(Leaf(a), "=", Operation(Leaf(b), "=", Leaf(c))), 5)
  {
    var toks := Infix3(a, "=", b, "=", c);
    var bc := Operation(Leaf(b), "=", Leaf(c));
    Infix3Indices(a, "=", b, "=", c);
    MarkEndsTest(toks, 1, "=");
    MarkEndsTest(toks, 3, "=");
    EndEndsTest(toks);
    LeafConditional(toks, 0, funs);
    LeafConditional(toks, 2, funs);
    LeafAlone(toks, 4, funs);
    RestsStop(toks, 5, bc, funs);
    assert AssignmentToTree(toks, 2, funs) == (bc, 5);
    RestsStop(toks, 5, Operation(Leaf(a), "=", bc), funs);
  }

  /** Chained conditionals group to the left: in `t ? a : b ? c : d` the
      first conditional is the test of the second. */
  lemma ConditionalsChain(t: Token, a: Token, b: Token, c: Token, d: Token, funs: FunTable)
    requires IsLeaf(t, funs) && IsLeaf(a, funs) && IsLeaf(b, funs) && IsLeaf(c, funs) && IsLeaf(d, funs)
    ensures var toks := [t, Oper("?"), a, Oper(":"), b, Oper("?"), c, Oper(":"), d];
      AssignmentToTree(toks, 0, funs) ==
      (Conditional(Conditional(Leaf(t), Leaf(a), Leaf(b)), Leaf(c), Leaf(d)), 9)
  {
    var toks := [t, Oper("?"), a, Oper(":"), b, Oper("?"), c, Oper(":"), d];
    var first := Conditional(Leaf(t), Leaf(a), Leaf(b));
    var e := Conditional(first, Leaf(c), Leaf(d));
    ConditionalsChainTests(t, a, b, c, d, funs);
    assert Advance(toks, 3) == 4 && Advance(toks, 7) == 8;
    ConditionalStep(toks, 1, Leaf(t), funs);
    ConditionalStep(toks, 5, first, funs);
    RestsStop(toks, 9, e, funs);
  }

  lemma ConditionalsChainTests(t: Token, a: Token, b: Token, c: Token, d: Token, funs: FunTable)
    requires IsLeaf(t, funs) && IsLeaf(a, funs) && IsLeaf(b, funs) && IsLeaf(c, funs) && IsLeaf(d, funs)
    ensures var toks := [t, Oper("?"), a, Oper(":"), b, Oper("?"), c, Oper(":"), d];
      CharAt(toks, 0) != '-' &&
      ConditionalToTree(toks, 0, funs) == ConditionalRest(toks, 1, Leaf(t), funs) &&
      TestToTree(toks, 2, funs) == (Leaf(a), 3) && TestToTree(toks, 4, funs) == (Leaf(b), 5) &&
      TestToTree(toks, 6, funs) == (Leaf(c), 7) && TestToTree(toks, 8, funs) == (Leaf(d), 9)
  {
    var toks := [t, Oper("?"), a, Oper(":"), b, Oper("?"), c, Oper(":"), d];
    ChainIndices(toks, t, a, b, c, d);
    ChainHead(toks, t, a, b, funs);
    ChainTail(toks, c, d, funs);
  }

  lemma ChainIndices(toks: seq<Token>, t: Token, a: Token, b: Token, c: Token, d: Token)
    requires toks == [t, Oper("?"), a, Oper(":"), b, Oper("?"), c, Oper(":"), d]
    ensures |toks| == 9 && toks[0] == t && toks[1] == Oper("?") && toks[2] == a
    ensures toks[3] == Oper(":") && toks[4] == b && toks[5] == Oper("?")
    ensures toks[6] == c && toks[7] == Oper(":") && toks[8] == d
  {
  }

  lemma ChainHead(toks: seq<Token>, t: Token, a: Token, b: Token, funs: FunTable)
    requires |toks| == 9 && toks[0] == t && toks[1] == Oper("?") && toks[2] == a &&
      toks[3] == Oper(":") && toks[4] == b && toks[5] == Oper("?")
    requires IsLeaf(t, funs) && IsLeaf(a, funs) && IsLeaf(b, funs)
    ensures CharAt(toks, 0) != '-'
    ensures ConditionalToTree(toks, 0, funs) == ConditionalRest(toks, 1, Leaf(t), funs)
    ensures TestToTree(toks, 2, funs) == (Leaf(a), 3) && TestToTree(toks, 4, funs) == (Leaf(b), 5)
  {
    MarkEndsTest(toks, 1, "?");
    MarkEndsTest(toks, 3, ":");
    MarkEndsTest(toks, 5, "?");
    LeafFactor(toks, 0, funs);
    LeafConditional(toks, 0, funs);
    LeafTest(toks, 2, funs);
    LeafTest(toks, 4, funs);
  }

  lemma ChainTail(toks: seq<Token>, c: Token, d: Token, funs: FunTable)
    requires |toks| == 9 && toks[6] == c && toks[7] == Oper(":") && toks[8] == d
    requires IsLeaf(c, funs) && IsLeaf(d, funs)
    ensures TestToTree(toks, 6, funs) == (Leaf(c), 7) && TestToTree(toks, 8, funs) == (Leaf(d), 9)
  {
    MarkEndsTest(toks, 7, ":");
    EndEndsTest(toks);
    LeafTest(toks, 6, funs);
    LeafTest(toks, 8, funs);
  }

  /** A `?`, `:` or `=` ends a test. */
  lemma MarkEndsTest(toks: seq<Token>, pos: nat, m: string)
    requires pos < |toks| && toks[pos] == Oper(m) && (m == "?" || m == ":" || m == "=")
    ensures EndsTest(toks, pos)
  {
  }

  /** The end of the line ends a test, and every operator loop. */
  lemma EndEndsTest(toks: seq<Token>)
    ensures EndsTest(toks, |toks|) && Stops(toks, |toks|)
  {
  }

  lemma ConditionalStep(toks: seq<Token>, pos: nat, test: Expr, funs: FunTable)
    requires pos < |toks| && TokenText(toks, pos) == "?"
    ensures var yes := TestToTree(toks, pos + 1, funs);
      var no := TestToTree(toks, Advance(toks, yes.1), funs);
      ConditionalRest(toks, pos, test, funs) == ConditionalRest(toks, no.1, Conditional(test, yes.0, no.0), funs)
  {
  }

  /** The branches of a conditional are tests, so an `=` after the false
      branch assigns to the whole conditional: `t ? a : b = c` is
      `(t ? a : b) = c`. */
  lemma BranchesAreTests(t: Token, a: Token, b: Token, c: Token, funs: FunTable)
    requires IsLeaf(t, funs) && IsLeaf(a, funs) && IsLeaf(b, funs) && IsLeaf(c, funs)
    ensures var toks := [t, Oper("?"), a, Oper(":"), b, Oper("="), c];
      AssignmentToTree(toks, 0, funs) ==
      (Operation(Conditional(Leaf(t), Leaf(a), Leaf(b)), "=", Leaf(c)), 7)
  {
    var toks := [t, Oper("?"), a, Oper(":"), b, Oper("="), c];
    var cond := Conditional(Leaf(t), Leaf(a), Leaf(b));
    BranchesAreTestsParts(t, a, b, c, funs);
    ConditionalStep(toks, 1, Leaf(t), funs);
    assert ConditionalRest(toks, 5, cond, funs) == (cond, 5);
    assert ConditionalToTree(toks, 0, funs) == (cond, 5);
    RestsStop(toks, 7, Operation(cond, "=", Leaf(c)), funs);
  }

  lemma BranchesAreTestsParts(t: Token, a: Token, b: Token, c: Token, funs: FunTable)
    requires IsLeaf(t, funs) && IsLeaf(a, funs) && IsLeaf(b, funs) && IsLeaf(c, funs)
    ensures var toks := [t, Oper("?"), a, Oper(":"), b, Oper("="), c];
      CharAt(toks, 0) != '-' && Advance(toks, 3) == 4 &&
      ConditionalToTree(toks, 0, funs) == ConditionalRest(toks, 1, Leaf(t), funs) &&
      TestToTree(toks, 2, funs) == (Leaf(a), 3) && TestToTree(toks, 4, funs) == (Leaf(b), 5) &&
      AssignmentToTree(toks, 6, funs) == (Leaf(c), 7)
  {
    var toks := [t, Oper("?"), a, Oper(":"), b, Oper("="), c];
    BranchParts(toks, t, a, b, c, funs);
  }

  lemma BranchParts(toks: seq<Token>, t: Token, a: Token, b: Token, c: Token, funs: FunTable)
    requires |toks| == 7 && toks[0] == t && toks[1] == Oper("?") && toks[2] == a &&
      toks[3] == Oper(":") && toks[4] == b && toks[5] == Oper("=") && toks[6] == c
    requires IsLeaf(t, funs) && IsLeaf(a, funs) && IsLeaf(b, funs) && IsLeaf(c, funs)
    ensures CharAt(toks, 0) != '-' && Advance(toks, 3) == 4
    ensures ConditionalToTree(toks, 0, funs) == ConditionalRest(toks, 1, Leaf(t), funs)
    ensures TestToTree(toks, 2, funs) == (Leaf(a), 3) && TestToTree(toks, 4, funs) == (Leaf(b), 5)
    ensures AssignmentToTree(toks, 6, funs) == (Leaf(c), 7)
  {
    BranchHead(toks, t, funs);
    BranchTests(toks, a, b, funs);
    LeafAlone(toks, 6, funs);
  }

  lemma BranchHead(toks: seq<Token>, t: Token, funs: FunTable)
    requires |toks| == 7 && toks[0] == t && toks[1] == Oper("?") && toks[3] == Oper(":")
    requires IsLeaf(t, funs)
    ensures CharAt(toks, 0) != '-' && Advance(toks, 3) == 4
    ensures ConditionalToTree(toks, 0, funs) == ConditionalRest(toks, 1, Leaf(t), funs)
  {
    LeafFactor(toks, 0, funs);
    LeafConditional(toks, 0, funs);
  }

  lemma BranchTests(toks: seq<Token>, a: Token, b: Token, funs: FunTable)
    requires |toks| == 7 && toks[2] == a && toks[3] == Oper(":") && toks[4] == b && toks[5] == Oper("=")
    requires IsLeaf(a, funs) && IsLeaf(b, funs)
    ensures TestToTree(toks, 2, funs) == (Leaf(a), 3) && TestToTree(toks, 4, funs) == (Leaf(b), 5)
  {
    LeafTest(toks, 2, funs);
    LeafTest(toks, 4, funs);
  }

  // ----- Unary minus -----

  /** A leading `-` on a whole line negates the whole conditional after
      it, not just the first operand: `-a+b` is `-(a+b)`. */
  lemma LeadingMinusNegatesAll(a: Token, o: string, b: Token, funs: FunTable)
    requires IsLeaf(a, funs) && IsLeaf(b, funs) && IsAdditive(o)
    ensures AssignmentToTree([Oper("-"), a, Oper(o), b], 0, funs) ==
      (Negated(Operation(Leaf(a), o, Leaf(b))), 4)
  {
    var toks := [Oper("-"), a, Oper(o), b];
    var ab := Operation(Leaf(a), o, Leaf(b));
    LeadingMinusSum(a, o, b, funs);
    SumStep(toks, 2, Leaf(a), funs);
    SumRestStops(toks, 4, ab, funs);
    assert SumToTree(toks, 1, funs) == (ab, 4);
    RestsStop(toks, 4, ab, funs);
    assert TestToTree(toks, 1, funs) == (ab, 4);
    assert ConditionalToTree(toks, 1, funs) == (ab, 4);
    RestsStop(toks, 4, Negated(ab), funs);
  }

  lemma LeadingMinusSum(a: Token, o: string, b: Token, funs: FunTable)
    requires IsLeaf(a, funs) && IsLeaf(b, funs) && IsAdditive(o)
    ensures var toks := [Oper("-"), a, Oper(o), b];
      CharAt(toks, 0) == '-' && CharAt(toks, 1) != '-' &&
      SumToTree(toks, 1, funs) == SumRest(toks, 2, Leaf(a), funs) &&
      ProdToTree(toks, 3, funs) == (Leaf(b), 4)
  {
    var toks := [Oper("-"), a, Oper(o), b];
    LeafLevels(toks, 1, funs);
    LeafAlone(toks, 3, funs);
  }

  /** After a binary operator, `-` negates the next factor only:
      `a * -b` is `a * (b * -1)`. */
  lemma MinusAfterOperator(a: Token, o: string, b: Token, funs: FunTable)
    requires IsLeaf(a, funs) && IsLeaf(b, funs) && IsMultiplicative(o)
    ensures AssignmentToTree([a, Oper(o), Oper("-"), b], 0, funs) ==
      (Operation(Leaf(a), o, Negated(Leaf(b))), 4)
  {
    var toks := [a, Oper(o), Oper("-"), b];
    var e := Operation(Leaf(a), o, Negated(Leaf(b)));
    LeafFactor(toks, 0, funs);
    LeafFactor(toks, 3, funs);
    assert FactorToTree(toks, 2, funs) == (Negated(Leaf(b)), 4);
    ProdStep(toks, 1, Leaf(a), funs);
    ProdRestStops(toks, 4, e, funs);
    assert ProdToTree(toks, 0, funs) == (e, 4);
    SumRestStops(toks, 4, e, funs);
    assert SumToTree(toks, 0, funs) == (e, 4);
    SumIsAssignment(toks, 0, funs);
  }

  /** After a relational operator, `-` negates only the first product of
      the sum that follows: `a < -b + c` is `a < ((b * -1) + c)`. */
  lemma MinusStartsSum(a: Token, o1: string, b: Token, o2: string, c: Token, funs: FunTable)
    requires IsLeaf(a, funs) && IsLeaf(b, funs) && IsLeaf(c, funs)
    requires IsRelational(o1) && IsAdditive(o2)
    ensures AssignmentToTree([a, Oper(o1), Oper("-"), b, Oper(o2), c], 0, funs) ==
      (Operation(Leaf(a), o1, Operation(Negated(Leaf(b)), o2, Leaf(c))), 6)
  {
    var toks := [a, Oper(o1), Oper("-"), b, Oper(o2), c];
    var rhs := Operation(Negated(Leaf(b)), o2, Leaf(c));
    var e := Operation(Leaf(a), o1, rhs);
    MinusStartsSumParts(a, o1, b, o2, c, funs);
    SumStep(toks, 4, Negated(Leaf(b)), funs);
    SumRestStops(toks, 6, rhs, funs);
    assert SumToTree(toks, 2, funs) == (rhs, 6);
    TestStep(toks, 1, Leaf(a), funs);
    TestRestStops(toks, 6, e, funs);
    assert TestToTree(toks, 0, funs) == (e, 6);
    TestIsAssignment(toks, 0, funs);
  }

  lemma MinusStartsSumParts(a: Token, o1: string, b: Token, o2: string, c: Token, funs: FunTable)
    requires IsLeaf(a, funs) && IsLeaf(b, funs) && IsLeaf(c, funs)
    requires IsRelational(o1) && IsAdditive(o2)
    ensures var toks := [a, Oper(o1), Oper("-"), b, Oper(o2), c];
      CharAt(toks, 0) != '-' && TestToTree(toks, 0, funs) == TestRest(toks, 1, Leaf(a), funs) &&
      SumToTree(toks, 2, funs) == SumRest(toks, 4, Negated(Leaf(b)), funs) &&
      ProdToTree(toks, 5, funs) == (Leaf(c), 6)
  {
    MinusSumLayout([a, Oper(o1), Oper("-"), b, Oper(o2), c], o1, o2, funs);
  }

  lemma MinusSumLayout(toks: seq<Token>, o1: string, o2: string, funs: FunTable)
    requires |toks| == 6 && toks[1] == Oper(o1) && toks[2] == Oper("-") && toks[4] == Oper(o2)
    requires IsLeaf(toks[0], funs) && IsLeaf(toks[3], funs) && IsLeaf(toks[5], funs)
    requires IsRelational(o1) && IsAdditive(o2)
    ensures CharAt(toks, 0) != '-' && TestToTree(toks, 0, funs) == TestRest(toks, 1, Leaf(toks[0]), funs) &&
      SumToTree(toks, 2, funs) == SumRest(toks, 4, Negated(Leaf(toks[3])), funs) &&
      ProdToTree(toks, 5, funs) == (Leaf(toks[5]), 6)
  {
    LeafSum(toks, 0, funs);
    NegatedSumStart(toks, o2, funs);
    LeafAlone(toks, 5, funs);
  }

  lemma NegatedSumStart(toks: seq<Token>, o2: string, funs: FunTable)
    requires |toks| == 6 && toks[2] == Oper("-") && toks[4] == Oper(o2)
    requires IsLeaf(toks[3], funs) && IsAdditive(o2)
    ensures SumToTree(toks, 2, funs) == SumRest(toks, 4, Negated(Leaf(toks[3])), funs)
  {
    LeafFactor(toks, 3, funs);
    ProdRestStops(toks, 4, Leaf(toks[3]), funs);
    assert CharAt(toks, 2) == '-';
  }

  // ----- Parentheses -----

  /** An operator other than `-` in factor position opens a nested
      assignment, and the token after that assignment is skipped as its
      closing parenthesis: `( a )` is `a`. */
  lemma ParenthesisedFactor(toks: seq<Token>, q: nat, funs: FunTable)
    requires q < |toks| && IsOperator(toks[q]) && CharAt(toks, q) != '-'
    requires TokenText(toks, AssignmentToTree(toks, q + 1, funs).1) == ")"
    ensures var e := AssignmentToTree(toks, q + 1, funs);
      FactorToTree(toks, q, funs) == (e.0, e.1 + 1)
  {
  }

  /** Neither parenthesis is checked: an operator such as `=` before an
      assignment that runs to the end of the input makes that whole
      assignment one factor, and so the whole line. This is how a
      definition's body `= x * x` parses. */
  lemma AssumedParensAtEnd(toks: seq<Token>, q: nat, funs: FunTable)
    requires q < |toks| && IsOperator(toks[q]) && CharAt(toks, q) != '-'
    requires AssignmentToTree(toks, q + 1, funs).1 == |toks|
    ensures AssignmentToTree(toks, q, funs) == (AssignmentToTree(toks, q + 1, funs).0, |toks|)
  {
    var e := AssignmentToTree(toks, q + 1, funs).0;
    assert FactorToTree(toks, q, funs) == (e, |toks|);
    RestsStop(toks, |toks|, e, funs);
    assert ProdToTree(toks, q, funs) == (e, |toks|);
    assert SumToTree(toks, q, funs) == (e, |toks|);
    assert TestToTree(toks, q, funs) == (e, |toks|);
    assert ConditionalToTree(toks, q, funs) == (e, |toks|);
  }

  // ----- Calls -----

  /** Once `)` is reached, every remaining argument slot is null. */
  lemma {:induction false} CallArgsClosed(toks: seq<Token>, pos: nat, i: nat, funs: FunTable)
    requires pos <= |toks| && i <= MaxArity && TokenText(toks, pos) == ")"
    ensures CallArgs(toks, pos, i, funs) == (seq(MaxArity - i, _ => Nil), pos)
    decreases MaxArity - i
  {
    if i < MaxArity {
      CallArgsClosed(toks, pos, i + 1, funs);
      var rest := CallArgs(toks, pos, i + 1, funs);
      assert CallArgs(toks, pos, i, funs) == ([Nil] + rest.0, rest.1);
      NilsCons(MaxArity - (i + 1));
    } else {
      assert CallArgs(toks, pos, i, funs) == ([], pos);
      assert seq(MaxArity - i, _ => Nil) == [];
    }
  }

  lemma NilsCons(n: nat)
    ensures [Nil] + seq(n, _ => Nil) == seq(n + 1, _ => Nil)
  {
  }

  /** A name in the function table followed by `(a, b)` is a call with
      those two arguments and eight null slots. */
  lemma TwoArgumentCall(f: Token, a: Token, b: Token, funs: FunTable)
    requires f.Ident? && f.name in funs && !IsOperator(f)
    requires IsLeaf(a, funs) && IsLeaf(b, funs)
    ensures FactorToTree([f, Oper("("), a, Oper(","), b, Oper(")")], 0, funs) ==
      (Function(f.name, [Leaf(a), Leaf(b)] + seq(MaxArity - 2, _ => Nil)), 6)
  {
    var toks := [f, Oper("("), a, Oper(","), b, Oper(")")];
    CallSlots(toks, a, b, funs);
  }

  lemma CallSlots(toks: seq<Token>, a: Token, b: Token, funs: FunTable)
    requires |toks| == 6 && toks[1] == Oper("(") && toks[2] == a && toks[3] == Oper(",") &&
      toks[4] == b && toks[5] == Oper(")")
    requires IsLeaf(a, funs) && IsLeaf(b, funs)
    ensures CallArgs(toks, 2, 0, funs) == ([Leaf(a), Leaf(b)] + seq(MaxArity - 2, _ => Nil), 5)
  {
    var nils := seq(MaxArity - 2, _ => Nil);
    LeafAlone(toks, 2, funs);
    LeafAlone(toks, 4, funs);
    CallArgsClosed(toks, 5, 2, funs);
    assert TokenText(toks, 4) != ")" && TokenText(toks, 5) == ")";
    assert CallArgs(toks, 4, 1, funs) == ([Leaf(b)] + nils, 5);
    assert TokenText(toks, 2) != ")" && TokenText(toks, 3) == ",";
    assert [Leaf(a)] + ([Leaf(b)] + nils) == [Leaf(a), Leaf(b)] + nils;
  }

  /** A name that is not in the function table is a variable, even when a
      `(` follows it. */
  lemma NameOutsideTableIsVariable(toks: seq<Token>, pos: nat, funs: FunTable)
    requires pos < |toks| && toks[pos].Ident? && toks[pos].name !in funs && !IsOperator(toks[pos])
    ensures FactorToTree(toks, pos, funs) == (Variable(toks[pos].name), pos + 1)
  {
  }

  // ----- Parameter lists -----

  /** The tokens of a parameter list `n0 , n1 , ... , nk`. */
  function ParamTokens(ns: seq<string>): (ts: seq<Token>)
    ensures |ns| > 0 ==> |ts| == 2 * |ns| - 1
    ensures |ns| == 0 ==> ts == []
  {
    if |ns| == 0 then []
    else if |ns| == 1 then [Ident(ns[0])]
    else [Ident(ns[0]), Oper(",")] + ParamTokens(ns[1..])
  }

  /** The parameter loop reads the names of a parameter list in order, and
      fails exactly when there are more than ten of them. */
  lemma {:induction false} ParamListReads(toks: seq<Token>, pos: nat, acc: seq<string>, ns: seq<string>)
    requires |acc| <= MaxArity
    requires pos + |ParamTokens(ns)| < |toks|
    requires toks[pos..pos + |ParamTokens(ns)|] == ParamTokens(ns)
    requires TokenText(toks, pos + |ParamTokens(ns)|) == ")"
    requires forall i :: 0 <= i < |ns| ==> ns[i] != ")"
    ensures |acc| + |ns| <= MaxArity ==>
      ParamList(toks, pos, acc) == Ok((acc + ns, pos + |ParamTokens(ns)|))
    ensures |acc| + |ns| > MaxArity ==> ParamList(toks, pos, acc) == Err(TooManyParameters)
    decreases |ns|
  {
    var pt := ParamTokens(ns);
    if |ns| == 0 {
      assert acc + ns == acc;
    } else {
      assert toks[pos] == pt[0] == Ident(ns[0]);
      assert TokenText(toks, pos) == ns[0];
      if |acc| < MaxArity {
        var rest := ns[1..];
        assert acc + ns == (acc + [ns[0]]) + rest;
        if |ns| == 1 {
          assert TokenText(toks, pos + 1) == ")";
          ParamListReads(toks, pos + 1, acc + [ns[0]], rest);
        } else {
          assert pt == [Ident(ns[0]), Oper(",")] + ParamTokens(rest);
          assert toks[pos + 1] == pt[1] == Oper(",");
          assert toks[pos + 2..pos + 2 + |ParamTokens(rest)|] == pt[2..];
          ParamListReads(toks, pos + 2, acc + [ns[0]], rest);
        }
      }
    }
  }

  /** The tokens `deffn name ( params ) body`. */
  function Definition(name: string, ns: seq<string>, body: seq<Token>): seq<Token> {
    [Ident("deffn"), Ident(name), Oper("(")] + ParamTokens(ns) + [Oper(")")] + body
  }

  /** `makeFunction` on a definition with at most ten parameters records
      the names in order, fills the other slots with `""`, and parses the
      body with the function already in the table; with more than ten
      parameters it overruns the parameter array. */
  lemma MakeFunctionDefines(name: string, ns: seq<string>, body: seq<Token>, funs: FunTable)
    requires forall i :: 0 <= i < |ns| ==> ns[i] != ")"
    ensures var toks := Definition(name, ns, body);
      var r := MakeFunction(toks, funs);
      var registered := funs[name := FunDef(name, PadParams([]), Nil)];
      (r.Ok? <==> |ns| <= MaxArity) &&
      (r.Ok? ==>
        r.value[name].parameter == PadParams(ns) &&
        r.value[name].functionBody == AssignmentToTree(toks, 4 + |ParamTokens(ns)|, registered).0)
  {
    var toks := Definition(name, ns, body);
    DefinitionLayout(name, ns, body);
    ParamListReads(toks, 3, [], ns);
    assert [] + ns == ns;
  }

  lemma DefinitionLayout(name: string, ns: seq<string>, body: seq<Token>)
    ensures var toks := Definition(name, ns, body);
      var pt := ParamTokens(ns);
      3 + |pt| < |toks| && toks[3..3 + |pt|] == pt && TokenText(toks, 3 + |pt|) == ")" &&
      TokenText(toks, Advance(toks, 0)) == name && Advance(toks, Advance(toks, Advance(toks, 0))) == 3
  {
    var toks := Definition(name, ns, body);
    var pt := ParamTokens(ns);
    assert toks == [Ident("deffn"), Ident(name), Oper("(")] + (pt + ([Oper(")")] + body));
    assert toks[3..3 + |pt|] == pt;
    assert toks[3 + |pt|] == Oper(")");
  }
}
