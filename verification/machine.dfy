/** The register machine of Homework 7 (`machine.h`, `machine.cpp`).

    An instruction names temporary registers and variable slots by index.
    The register file and the variable stack are integer arrays of a fixed
    length; an index outside an array is an overrun, which the model
    reports as an error instead of reading or writing past the end. The
    machine's console is the sequence of values `Print` has written. */
module Machine {
  import opened IntMath
  import opened Outcomes
  import ExprTree
  import Lexer

  /** The five subclasses of `Compute`. */
  datatype Op = Add | Subtract | Multiply | Divide | Mod

  /** The instruction set: `Print`, `Val`, `VarAssign`, `VarLoad` and the
      arithmetic `Compute` instructions. Every instruction carries the
      register `valueTemp`; there are no compare or branch instructions. */
  datatype Instr =
    | Print(valueTemp: nat)
    | Val(valueTemp: nat, val: int)
    | VarAssign(valueTemp: nat, stackLoc: nat)
    | VarLoad(valueTemp: nat, stackLoc: nat)
    | Compute(valueTemp: nat, argA: nat, argB: nat, op: Op)

  /** The symbol each `Compute` subclass passes to its base constructor. */
  function Symbol(op: Op): (s: string)
    ensures ExprTree.IsArithmetic(s)
  {
    match op
    case Add => "+"
    case Subtract => "-"
    case Multiply => "*"
    case Divide => "/"
    case Mod => "%"
  }

  lemma SymbolInjective(a: Op, b: Op)
    ensures Symbol(a) == Symbol(b) <==> a == b
  {
  }

  /** The arguments of `execute`: the registers, the variable stack, the
      stack pointer and the program counter, and the console output. */
  datatype State = State(regs: seq<int>, stack: seq<int>, stackPointer: int,
                         programCounter: int, output: seq<int>)

  /** Every register and slot an instruction reads or writes is inside
      its array. */
  predicate InRange(i: Instr, s: State) {
    match i
    case Print(t) => t < |s.regs|
    case Val(t, _) => t < |s.regs|
    case VarAssign(t, l) => t < |s.regs| && l < |s.stack|
    case VarLoad(t, l) => t < |s.regs| && l < |s.stack|
    case Compute(t, a, b, _) => t < |s.regs| && a < |s.regs| && b < |s.regs|
  }

  /** `execute` of every instruction. */
  function Execute(i: Instr, s: State): (r: Result<State>)
    ensures r.Err? <==>
      (!InRange(i, s) || (i.Compute? && (i.op == Divide || i.op == Mod) && s.regs[i.argB] == 0))
    ensures r.Err? ==> r.fault == if InRange(i, s) then DivideByZero else ArrayOverrun
    ensures r.Ok? ==>
      r.value.stackPointer == s.stackPointer && r.value.programCounter == s.programCounter
    ensures r.Ok? ==> |r.value.regs| == |s.regs| && |r.value.stack| == |s.stack|
    ensures r.Ok? && !i.Print? ==> r.value.output == s.output
    ensures r.Ok? && (i.Print? || i.VarAssign?) ==> r.value.regs == s.regs
    ensures r.Ok? && !i.VarAssign? ==> r.value.stack == s.stack
  {
    if !InRange(i, s) then Err(ArrayOverrun)
    else
      match i
      case Print(t) => Ok(s.(output := s.output + [s.regs[t]]))
      case Val(t, v) => Ok(s.(regs := s.regs[t := v]))
      case VarAssign(t, l) => Ok(s.(stack := s.stack[l := s.regs[t]]))
      case VarLoad(t, l) => Ok(s.(regs := s.regs[t := s.stack[l]]))
      case Compute(t, a, b, op) =>
        var x :- ExprTree.Apply(Symbol(op), s.regs[a], s.regs[b]);
        Ok(s.(regs := s.regs[t := x]))
  }

  /** `Val(t, v)` sets register `t` to `v` and nothing else. */
  lemma ValSets(t: nat, v: int, s: State)
    requires t < |s.regs|
    ensures Execute(Val(t, v), s).Ok?
    ensures var s' := Execute(Val(t, v), s).value;
      s'.regs[t] == v && (forall j :: 0 <= j < |s.regs| && j != t ==> s'.regs[j] == s.regs[j]) &&
      s'.stack == s.stack && s'.output == s.output
  {
  }

  /** `VarLoad(t, l)` copies slot `l` into register `t`; the stack is
      unchanged. */
  lemma VarLoadSets(t: nat, l: nat, s: State)
    requires t < |s.regs| && l < |s.stack|
    ensures Execute(VarLoad(t, l), s).Ok?
    ensures var s' := Execute(VarLoad(t, l), s).value;
      s'.regs[t] == s.stack[l] && (forall j :: 0 <= j < |s.regs| && j != t ==> s'.regs[j] == s.regs[j]) &&
      s'.stack == s.stack
  {
  }

  /** `VarAssign(t, l)` copies register `t` into slot `l`; the registers
      are unchanged. */
  lemma VarAssignSets(t: nat, l: nat, s: State)
    requires t < |s.regs| && l < |s.stack|
    ensures Execute(VarAssign(t, l), s).Ok?
    ensures var s' := Execute(VarAssign(t, l), s).value;
      s'.stack[l] == s.regs[t] && (forall j :: 0 <= j < |s.stack| && j != l ==> s'.stack[j] == s.stack[j]) &&
      s'.regs == s.regs
  {
  }

  /** An arithmetic instruction sets its result register to
      `regs[argA] op regs[argB]`, with C++ truncating division, and
      nothing else. */
  lemma ComputeSets(t: nat, a: nat, b: nat, op: Op, s: State)
    requires t < |s.regs| && a < |s.regs| && b < |s.regs|
    requires (op == Divide || op == Mod) ==> s.regs[b] != 0
    ensures Execute(Compute(t, a, b, op), s).Ok?
    ensures var s' := Execute(Compute(t, a, b, op), s).value;
      var x, y := s.regs[a], s.regs[b];
      s'.regs[t] == (match op
                     case Add => x + y
                     case Subtract => x - y
                     case Multiply => x * y
                     case Divide => TDiv(x, y)
                     case Mod => TMod(x, y)) &&
      (forall j :: 0 <= j < |s.regs| && j != t ==> s'.regs[j] == s.regs[j]) &&
      s'.stack == s.stack
  {
  }

  /** `Print` changes no register, no slot, neither counter, and only
      writes the register's value to the console. */
  lemma PrintChangesNothing(t: nat, s: State)
    requires t < |s.regs|
    ensures Execute(Print(t), s) == Ok(s.(output := s.output + [s.regs[t]]))
  {
  }

  /** Storing a register into a slot and loading the slot into another
      register copies the first register into the second. */
  lemma StoreLoadRoundTrip(r: nat, l: nat, r2: nat, s: State)
    requires r < |s.regs| && r2 < |s.regs| && l < |s.stack|
    ensures Execute(VarAssign(r, l), s).Ok?
    ensures var s1 := Execute(VarAssign(r, l), s).value;
      Execute(VarLoad(r2, l), s1).Ok? &&
      Execute(VarLoad(r2, l), s1).value.regs[r2] == s.regs[r]
  {
    VarAssignSets(r, l, s);
    var s1 := Execute(VarAssign(r, l), s).value;
    VarLoadSets(r2, l, s1);
  }

  /** Loading a slot into a register and storing that register back leaves
      the stack as it was. */
  lemma LoadStoreKeepsStack(r: nat, l: nat, s: State)
    requires r < |s.regs| && l < |s.stack|
    ensures Execute(VarLoad(r, l), s).Ok?
    ensures var s1 := Execute(VarLoad(r, l), s).value;
      Execute(VarAssign(r, l), s1).Ok? && Execute(VarAssign(r, l), s1).value.stack == s.stack
  {
    var s1 := Execute(VarLoad(r, l), s).value;
    assert s.stack[l := s1.regs[r]] == s.stack;
  }

  // ----- Running a program -----

  /** The instructions from `prog[pc]` on, executed in order. The machine
      has no branches, so a program runs straight through. */
  function Run(prog: seq<Instr>, s: State): Result<State>
  {
    if prog == [] then Ok(s)
    else
      var s1 :- Execute(prog[0], s);
      Run(prog[1..], s1)
  }

  /** Running two programs one after the other is running their
      concatenation. */
  lemma {:induction false} RunAppend(p: seq<Instr>, q: seq<Instr>, s: State)
    ensures Run(p + q, s) == match Run(p, s)
      case Err(f) => Err(f)
      case Ok(s1) => Run(q, s1)
  {
    if p == [] {
      assert p + q == q;
    } else {
      assert (p + q)[1..] == p[1..] + q;
      match Execute(p[0], s)
      case Err(_) =>
      case Ok(s1) => RunAppend(p[1..], q, s1);
    }
  }

  /** A program that does not print leaves the console alone, and no
      program moves the stack pointer or the program counter. */
  lemma {:induction false} RunFrame(prog: seq<Instr>, s: State)
    requires Run(prog, s).Ok?
    ensures Run(prog, s).value.stackPointer == s.stackPointer
    ensures Run(prog, s).value.programCounter == s.programCounter
    ensures (forall k :: 0 <= k < |prog| ==> !prog[k].Print?) ==> Run(prog, s).value.output == s.output
  {
    if prog != [] {
      var s1 := Execute(prog[0], s).value;
      RunFrame(prog[1..], s1);
      if forall k :: 0 <= k < |prog| ==> !prog[k].Print? {
        assert !prog[0].Print?;
        assert forall k :: 0 <= k < |prog[1..]| ==> !prog[1..][k].Print? by {
          forall k | 0 <= k < |prog[1..]| ensures !prog[1..][k].Print? {
            assert prog[1..][k] == prog[k + 1];
          }
        }
      }
    }
  }

  /** The method form of running a program: executes `prog[pc]` for `pc`
      from `pBegin` up to `pEnd`, stopping at the first error. */
  method RunProgram(prog: seq<Instr>, pBegin: nat, pEnd: nat, s0: State) returns (r: Result<State>)
    requires pBegin <= pEnd <= |prog|
    ensures r == Run(prog[pBegin..pEnd], s0)
  {
    var s := s0;
    var pc := pBegin;
    while pc < pEnd
      invariant pBegin <= pc <= pEnd
      invariant Run(prog[pBegin..pEnd], s0) == Run(prog[pc..pEnd], s)
    {
      assert prog[pc..pEnd][1..] == prog[pc + 1..pEnd];
      var step := Execute(prog[pc], s);
      if step.Err? {
        return Err(step.fault);
      }
      s := step.value;
      pc := pc + 1;
    }
    return Ok(s);
  }

  // ----- Listing -----

  /** `toString` of every instruction: one line of the program listing. */
  function ToString(i: Instr): string {
    match i
    case Print(t) => "print T" + NatToString(t) + "\n"
    case Val(t, v) => "T" + NatToString(t) + " = " + IntToString(v) + "\n"
    case VarAssign(t, l) => "stack[" + NatToString(l) + "] = T" + NatToString(t) + "\n"
    case VarLoad(t, l) => "T" + NatToString(t) + " = stack[" + NatToString(l) + "]\n"
    case Compute(t, a, b, op) =>
      "T" + NatToString(t) + " = T" + NatToString(a) + " " + Symbol(op) + " T" + NatToString(b) + "\n"
  }

  // ----- Reading a listing back -----

  /** The number a line continues with, and the rest of the line. */
  function ReadNat(s: string): Option<(nat, string)> {
    var n := Lexer.DigitRun(s);
    if n == 0 then None else Some((DigitsValue(s[..n]), s[n..]))
  }

  /** A possibly negative number, and the rest of the line. */
  function ReadInt(s: string): Option<(int, string)> {
    if |s| > 0 && s[0] == '-' then
      var (v, rest) :- ReadNat(s[1..]);
      Some((-(v as int), rest))
    else
      var (v, rest) :- ReadNat(s);
      Some((v as int, rest))
  }

  /** The rest of `s` after the text `p`, when `s` starts with `p`. */
  function After(p: string, s: string): Option<string> {
    if p <= s then Some(s[|p|..]) else None
  }

  /** The arithmetic instruction a symbol stands for. */
  function OpOf(c: char): Option<Op> {
    match c
    case '+' => Some(Add)
    case '-' => Some(Subtract)
    case '*' => Some(Multiply)
    case '/' => Some(Divide)
    case '%' => Some(Mod)
    case _ => None
  }

  /** The instruction a listing line stands for, if any. */
  function Decode(line: string): Option<Instr> {
    if "print T" <= line then
      var (t, r) :- ReadNat(line[7..]);
      if r == "\n" then Some(Print(t)) else None
    else if "stack[" <= line then
      var (l, r1) :- ReadNat(line[6..]);
      var r2 :- After("] = T", r1);
      var (t, r3) :- ReadNat(r2);
      if r3 == "\n" then Some(VarAssign(t, l)) else None
    else if "T" <= line then
      var (t, r1) :- ReadNat(line[1..]);
      var r2 :- After(" = ", r1);
      DecodeRight(t, r2)
    else None
  }

  /** A line `T<t> = ...`, from the right-hand side on. */
  function DecodeRight(t: nat, r2: string): Option<Instr> {
    if "stack[" <= r2 then
      var (l, r3) :- ReadNat(r2[6..]);
      if r3 == "]\n" then Some(VarLoad(t, l)) else None
    else if "T" <= r2 then
      DecodeOperation(t, r2[1..])
    else
      var (v, r3) :- ReadInt(r2);
      if r3 == "\n" then Some(Val(t, v)) else None
  }

  /** A line `T<t> = T...`, from the first operand on. */
  function DecodeOperation(t: nat, r: string): Option<Instr> {
    var (a, r3) :- ReadNat(r);
    var r4 :- After(" ", r3);
    if |r4| == 0 then None
    else
      var op :- OpOf(r4[0]);
      var r5 :- After(" T", r4[1..]);
      var (b, r6) :- ReadNat(r5);
      if r6 == "\n" then Some(Compute(t, a, b, op)) else None
  }

  /** A number followed by a non-digit reads back as itself. */
  lemma ReadNatOf(v: nat, rest: string)
    requires !IsDigit(Lexer.Peek(rest))
    ensures ReadNat(NatToString(v) + rest) == Some((v, rest))
  {
    var d := NatToString(v);
    Lexer.DigitRunOf(d, rest);
    assert (d + rest)[..|d|] == d;
    assert (d + rest)[|d|..] == rest;
    DigitsValueOfNatToString(v);
  }

  lemma ReadIntOf(v: int, rest: string)
    requires !IsDigit(Lexer.Peek(rest))
    ensures ReadInt(IntToString(v) + rest) == Some((v, rest))
  {
    if v < 0 {
      assert (IntToString(v) + rest)[1..] == NatToString(-v) + rest;
      ReadNatOf(-v, rest);
    } else {
      ReadNatOf(v, rest);
    }
  }

  lemma AfterOf(p: string, rest: string)
    ensures After(p, p + rest) == Some(rest)
  {
    assert (p + rest)[..|p|] == p;
    assert (p + rest)[|p|..] == rest;
  }

  /** Every listing line reads back as the instruction that printed it, so
      distinct instructions print distinct lines. */
  lemma DecodeToString(i: Instr)
    ensures Decode(ToString(i)) == Some(i)
  {
    match i
    case Print(t) => DecodePrint(t);
    case Val(t, v) => DecodeVal(t, v);
    case VarAssign(t, l) => DecodeVarAssign(t, l);
    case VarLoad(t, l) => DecodeVarLoad(t, l);
    case Compute(t, a, b, op) => DecodeCompute(t, a, b, op);
  }

  lemma DecodePrint(t: nat)
    ensures Decode(ToString(Print(t))) == Some(Print(t))
  {
    var line := ToString(Print(t));
    assert line == "print T" + (NatToString(t) + "\n");
    AfterOf("print T", NatToString(t) + "\n");
    ReadNatOf(t, "\n");
  }

  lemma DecodeVarAssign(t: nat, l: nat)
    ensures Decode(ToString(VarAssign(t, l))) == Some(VarAssign(t, l))
  {
    var dt, dl := NatToString(t), NatToString(l);
    var line := ToString(VarAssign(t, l));
    assert line == "stack[" + (dl + ("] = T" + (dt + "\n")));
    assert !("print T" <= line) by {
      assert line[0] == 's';
    }
    AfterOf("stack[", dl + ("] = T" + (dt + "\n")));
    ReadNatOf(l, "] = T" + (dt + "\n"));
    AfterOf("] = T", dt + "\n");
    ReadNatOf(t, "\n");
  }

  /** A line that starts `T<t> = ` is read by its right-hand side. */
  lemma DecodeTLine(t: nat, r2: string)
    ensures Decode("T" + (NatToString(t) + (" = " + r2))) == DecodeRight(t, r2)
  {
    var dt := NatToString(t);
    var line := "T" + (dt + (" = " + r2));
    assert !("print T" <= line) && !("stack[" <= line) by {
      assert line[0] == 'T';
    }
    AfterOf("T", dt + (" = " + r2));
    ReadNatOf(t, " = " + r2);
    AfterOf(" = ", r2);
  }

  lemma DecodeVarLoad(t: nat, l: nat)
    ensures Decode(ToString(VarLoad(t, l))) == Some(VarLoad(t, l))
  {
    var dl := NatToString(l);
    var r2 := "stack[" + (dl + "]\n");
    assert ToString(VarLoad(t, l)) == "T" + (NatToString(t) + (" = " + r2));
    DecodeTLine(t, r2);
    AfterOf("stack[", dl + "]\n");
    ReadNatOf(l, "]\n");
  }

  lemma DecodeVal(t: nat, v: int)
    ensures Decode(ToString(Val(t, v))) == Some(Val(t, v))
  {
    var dv := IntToString(v);
    var r2 := dv + "\n";
    assert ToString(Val(t, v)) == "T" + (NatToString(t) + (" = " + r2));
    DecodeTLine(t, r2);
    assert !("stack[" <= r2) && !("T" <= r2) by {
      assert r2[0] == dv[0];
    }
    ReadIntOf(v, "\n");
  }

  lemma DecodeCompute(t: nat, a: nat, b: nat, op: Op)
    ensures Decode(ToString(Compute(t, a, b, op))) == Some(Compute(t, a, b, op))
  {
    var r := NatToString(a) + (" " + (Symbol(op) + (" T" + (NatToString(b) + "\n"))));
    ComputeText(t, a, b, op);
    DecodeTLine(t, "T" + r);
    DecodeRightOperation(t, r);
    DecodeOperationOf(t, a, b, op);
  }

  lemma ComputeText(t: nat, a: nat, b: nat, op: Op)
    ensures ToString(Compute(t, a, b, op)) ==
      "T" + (NatToString(t) + (" = " + ("T" + (NatToString(a) + (" " + (Symbol(op) + (" T" + (NatToString(b) + "\n"))))))))
  {
  }

  lemma DecodeRightOperation(t: nat, r: string)
    ensures DecodeRight(t, "T" + r) == DecodeOperation(t, r)
  {
    assert !("stack[" <= "T" + r) by {
      assert ("T" + r)[0] == 'T';
    }
    assert ("T" + r)[1..] == r;
  }

  lemma DecodeOperationOf(t: nat, a: nat, b: nat, op: Op)
    ensures var r4 := Symbol(op) + (" T" + (NatToString(b) + "\n"));
      DecodeOperation(t, NatToString(a) + (" " + r4)) == Some(Compute(t, a, b, op))
  {
    var r4 := Symbol(op) + (" T" + (NatToString(b) + "\n"));
    ReadNatOf(a, " " + r4);
    AfterOf(" ", r4);
    OperatorOf(b, op);
  }

  /** The operator and the right operand of an operation line. */
  lemma OperatorOf(b: nat, op: Op)
    ensures var db := NatToString(b);
      var r4 := Symbol(op) + (" T" + (db + "\n"));
      |r4| > 0 && OpOf(r4[0]) == Some(op) && After(" T", r4[1..]) == Some(db + "\n") &&
      ReadNat(db + "\n") == Some((b, "\n"))
  {
    var db := NatToString(b);
    SymbolReads(op, " T" + (db + "\n"));
    AfterOf(" T", db + "\n");
    ReadNatOf(b, "\n");
  }

  lemma SymbolReads(op: Op, rest: string)
    ensures var r := Symbol(op) + rest;
      |r| > 0 && OpOf(r[0]) == Some(op) && r[1..] == rest
  {
    var s := Symbol(op);
    assert |s| == 1 && OpOf(s[0]) == Some(op) by {
      match op
      case Add =>
      case Subtract =>
      case Multiply =>
      case Divide =>
      case Mod =>
    }
    assert (s + rest)[0] == s[0];
    assert (s + rest)[1..] == rest;
  }
}
