/** The part of the Unix desk calculator `dc` that the output of `makedc`
    uses: number literals (with `_` as the minus sign; a `_` with no digit
    after it reads as the number 0), one-character
    registers loaded with `l` and stored with `s`, and the integer
    operators `+ - * / %`. `dc` is an external program; this module only
    gives the text `makedc` produces a meaning, so that the text can be
    checked against the tree it came from.

    Stacks grow at the end of the sequence. Each register holds a single
    value (`dc`'s per-register stacks are not used by `makedc`). Division
    and remainder truncate toward zero, as `dc` does at scale 0. */
module DcCalc {
  import opened IntMath
  import opened Outcomes
  import Lexer
  import ExprTree

  datatype Machine = Machine(stack: seq<int>, regs: map<char, int>)

  /** Puts `v` on top of the stack. */
  function Push(m: Machine, v: int): (r: Machine)
    ensures r.stack == m.stack + [v] && r.regs == m.regs
  {
    Machine(m.stack + [v], m.regs)
  }

  /** Runs a `dc` program to its end, or to the first error. */
  function Run(p: string, m: Machine): Result<Machine>
    decreases |p|
  {
    if |p| == 0 then Ok(m)
    else
      var c := p[0];
      if c == ' ' then Run(p[1..], m)
      else if IsDigit(c) then
        var n := Lexer.DigitRun(p);
        Run(p[n..], Push(m, DigitsValue(p[..n])))
      else if c == '_' then
        // `_` is a minus sign before digits; with none after it, `dc`
        // reads the number 0.
        var n := Lexer.DigitRun(p[1..]);
        Run(p[1 + n..], Push(m, -(DigitsValue(p[1..][..n]) as int)))
      else if c == 'l' && |p| > 1 then
        if p[1] in m.regs then Run(p[2..], Push(m, m.regs[p[1]])) else Err(NoRegister)
      else if c == 's' && |p| > 1 then
        if |m.stack| == 0 then Err(StackUnderflow)
        else
          var top := m.stack[|m.stack| - 1];
          Run(p[2..], Machine(m.stack[..|m.stack| - 1], m.regs[p[1] := top]))
      else if ExprTree.IsArithChar(c) then
        if |m.stack| < 2 then Err(StackUnderflow)
        else
          var a := m.stack[|m.stack| - 2];
          var b := m.stack[|m.stack| - 1];
          var x :- ExprTree.ApplyChar(c, a, b);
          Run(p[1..], Machine(m.stack[..|m.stack| - 2] + [x], m.regs))
      else Err(UnknownOperator)
  }

  /** A number literal followed by a space pushes the number. */
  lemma RunNumber(v: nat, rest: string, m: Machine)
    ensures Run(NatToString(v) + " " + rest, m) == Run(rest, Push(m, v))
  {
    RunDigits(NatToString(v) + " " + rest, NatToString(v), rest, m);
    DigitsValueOfNatToString(v);
  }

  lemma RunDigits(p: string, d: string, rest: string, m: Machine)
    requires |d| > 0 && AllDigits(d) && p == d + " " + rest
    ensures Run(p, m) == Run(rest, Push(m, DigitsValue(d)))
  {
    assert p == d + (" " + rest);
    Lexer.DigitRunOf(d, " " + rest);
    assert IsDigit(p[0]) && p[..|d|] == d;
    assert Run(p, m) == Run(p[|d|..], Push(m, DigitsValue(d)));
    assert p[|d|..] == " " + rest;
    RunSpace(rest, Push(m, DigitsValue(d)));
  }

  /** `_` followed by a number literal and a space pushes its negation. */
  lemma RunNegativeNumber(p: string, v: nat, rest: string, m: Machine)
    requires p == "_" + NatToString(v) + " " + rest
    ensures Run(p, m) == Run(rest, Push(m, -(v as int)))
  {
    RunNegativeDigits(p, NatToString(v), rest, m);
    DigitsValueOfNatToString(v);
  }

  lemma RunNegativeDigits(p: string, d: string, rest: string, m: Machine)
    requires |d| > 0 && AllDigits(d) && p == "_" + d + " " + rest
    ensures Run(p, m) == Run(rest, Push(m, -(DigitsValue(d) as int)))
  {
    NegativeLayout(p, d, rest);
    RunNegativeRun(p, |d|, d, rest, m);
  }

  /** Where the digits of `_d ` and what follows them sit. */
  lemma NegativeLayout(p: string, d: string, rest: string)
    requires |d| > 0 && AllDigits(d) && p == "_" + d + " " + rest
    ensures |p| > 1 && p[0] == '_' && IsDigit(p[1])
    ensures Lexer.DigitRun(p[1..]) == |d| && p[1..][..|d|] == d && p[1 + |d|..] == " " + rest
  {
    var q := p[1..];
    assert q == d + (" " + rest);
    Lexer.DigitRunOf(d, " " + rest);
  }

  lemma RunNegativeRun(p: string, n: nat, d: string, rest: string, m: Machine)
    requires |p| > 1 && p[0] == '_' && IsDigit(p[1])
    requires Lexer.DigitRun(p[1..]) == n && p[1..][..n] == d && p[1 + n..] == " " + rest
    ensures Run(p, m) == Run(rest, Push(m, -(DigitsValue(d) as int)))
  {
    RunNegativeStep(p, m);
    RunSpace(rest, Push(m, -(DigitsValue(d) as int)));
  }

  /** `_` and a run of digits push the negated number. */
  lemma RunNegativeStep(p: string, m: Machine)
    requires |p| > 1 && p[0] == '_' && IsDigit(p[1])
    ensures var n := Lexer.DigitRun(p[1..]);
      Run(p, m) == Run(p[1 + n..], Push(m, -(DigitsValue(p[1..][..n]) as int)))
  {
  }

  /** A space separates tokens and does nothing else. */
  lemma RunSpace(rest: string, m: Machine)
    ensures Run(" " + rest, m) == Run(rest, m)
  {
    assert (" " + rest)[1..] == rest;
  }

  /** `l` and a register name push the register. */
  lemma RunLoad(r: char, rest: string, m: Machine)
    requires r in m.regs
    ensures Run(['l', r] + rest, m) == Run(rest, Push(m, m.regs[r]))
  {
    assert (['l', r] + rest)[2..] == rest;
  }

  /** `s` and a register name pop the top of the stack into the register. */
  lemma RunStore(r: char, rest: string, st: seq<int>, v: int, regs: map<char, int>)
    ensures Run(['s', r] + rest, Machine(st + [v], regs)) == Run(rest, Machine(st, regs[r := v]))
  {
    assert (['s', r] + rest)[2..] == rest;
    assert (st + [v])[..|st|] == st;
  }

  /** An operator replaces the two topmost values by the result. */
  lemma RunOperator(c: char, rest: string, st: seq<int>, a: int, b: int, regs: map<char, int>)
    requires ExprTree.IsArithChar(c) && ExprTree.Apply([c], a, b).Ok?
    ensures Run([c] + rest, Machine(st + [a, b], regs)) ==
      Run(rest, Machine(st + [ExprTree.Apply([c], a, b).value], regs))
  {
    assert ([c] + rest)[1..] == rest;
    var s := st + [a, b];
    assert s[..|s| - 2] == st;
    ExprTree.ApplyCharIsApply(c, a, b);
  }
}
