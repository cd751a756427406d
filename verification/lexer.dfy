/** The scanner of Homework 4: the `TokenList(const char[])` constructor and
    `isOperator(char)` in `tokenlist.cpp`.

    The input is a C string; the model reads a character past the end of
    the sequence as the terminating NUL, so a NUL inside the sequence ends
    the input exactly as it does in C. */
module Lexer {
  import opened IntMath
  import opened Tokens

  /** `isOperator(char)`: the characters reserved as one-character
      operators. */
  predicate IsOperatorChar(c: char) {
    c == '+' || c == '-' || c == '*' || c == '/' || c == '%' ||
    c == '(' || c == ')' || c == '=' || c == '~'
  }

  /** The character the scanner sees at the front of `s`. */
  function Peek(s: string): char {
    if |s| == 0 then '\0' else s[0]
  }

  /** Skips spaces (only `' '`; tabs are ordinary characters). */
  function DropSpaces(s: string): (r: string)
    ensures |r| <= |s| && r == s[|s| - |r|..]
    ensures Peek(r) != ' '
    ensures forall i :: 0 <= i < |s| - |r| ==> s[i] == ' '
  {
    if |s| > 0 && s[0] == ' ' then DropSpaces(s[1..]) else s
  }

  /** Text that does not start with a space is left as it is. */
  lemma DropSpacesNone(s: string)
    requires Peek(s) != ' '
    ensures DropSpaces(s) == s
  {
  }

  /** A leading space is dropped with the rest. */
  lemma DropSpaceStep(s: string)
    requires |s| > 0 && s[0] == ' '
    ensures DropSpaces(s) == DropSpaces(s[1..])
  {
  }

  /** The empty text has no tokens. */
  lemma ScanEmpty()
    ensures ScanTokens(DropSpaces("")) == []
  {
  }

  /** Length of the run of digits at the front of `s`. */
  function DigitRun(s: string): (n: nat)
    ensures n <= |s| && AllDigits(s[..n])
    ensures !IsDigit(Peek(s[n..]))
  {
    if |s| > 0 && IsDigit(s[0]) then
      var n := 1 + DigitRun(s[1..]);
      assert s[..n] == [s[0]] + s[1..][..n - 1];
      n
    else 0
  }

  /** The characters an identifier may hold. */
  predicate IsWordChar(c: char) {
    c != ' ' && c != '\0' && !IsOperatorChar(c)
  }

  /** Length of the identifier run at the front of `s`: everything up to a
      space, the terminator or an operator character. */
  function WordRun(s: string): (n: nat)
    ensures n <= |s|
    ensures forall i :: 0 <= i < n ==> IsWordChar(s[i])
    ensures !IsWordChar(Peek(s[n..]))
  {
    if |s| > 0 && IsWordChar(s[0]) then 1 + WordRun(s[1..]) else 0
  }

  /** The tokens of `s`, which starts at a non-space character (the body of
      the constructor's outer loop). */
  function ScanTokens(s: string): seq<Token>
    requires Peek(s) != ' '
    decreases |s|
  {
    var c := Peek(s);
    if c == '\0' then []
    else if IsDigit(c) then
      var n := DigitRun(s);
      [Int(DigitsValue(s[..n]))] + ScanTokens(DropSpaces(s[n..]))
    else if IsOperatorChar(c) then
      [Oper([c])] + ScanTokens(DropSpaces(s[1..]))
    else
      var n := WordRun(s);
      [Ident(s[..n])] + ScanTokens(DropSpaces(s[n..]))
  }

  /** The token list built by `TokenList(const char expr[])`. */
  function Scan(s: string): seq<Token> {
    ScanTokens(DropSpaces(s))
  }

  lemma AppendStep(done: seq<Token>, t: Token, todo: seq<Token>, all: seq<Token>)
    requires done + ([t] + todo) == all
    ensures (done + [t]) + todo == all
  {
    assert (done + [t]) + todo == done + ([t] + todo);
  }

  /** The constructor as the source writes it: one pass along the text,
      appending each token at the back of the list. */
  method Tokenize(s: string) returns (list: TokenList)
    ensures list.items == Scan(s)
  {
    list := TokenList([]);
    var rest := DropSpaces(s);
    while Peek(rest) != '\0'
      invariant Peek(rest) != ' '
      invariant list.items + ScanTokens(rest) == Scan(s)
      decreases |rest|
    {
      var c := rest[0];
      var n: nat;
      var t: Token;
      if IsDigit(c) {
        n := DigitRun(rest);
        t := Int(DigitsValue(rest[..n]));
      } else if IsOperatorChar(c) {
        n := 1;
        t := Oper([c]);
      } else {
        n := WordRun(rest);
        t := Ident(rest[..n]);
      }
      var next := DropSpaces(rest[n..]);
      assert ScanTokens(rest) == [t] + ScanTokens(next);
      AppendStep(list.items, t, ScanTokens(next), Scan(s));
      list := list.PushBack(t);
      rest := next;
    }
  }

  /** The shape of every token the scanner can produce: a non-negative
      integer, a one-character operator, or a non-empty identifier that
      starts with a non-digit and holds no space, terminator or operator. */
  predicate WellFormed(t: Token) {
    match t
    case Int(v) => v >= 0
    case Oper(sym) => |sym| == 1 && IsOperatorChar(sym[0])
    case Ident(n) =>
      |n| > 0 && !IsDigit(n[0]) && forall i :: 0 <= i < |n| ==> IsWordChar(n[i])
  }

  /** Every token of every input is well formed; in particular no token
      contains a space. */
  lemma {:induction false} ScanTokensWellFormed(s: string)
    requires Peek(s) != ' '
    ensures forall i :: 0 <= i < |ScanTokens(s)| ==> WellFormed(ScanTokens(s)[i])
    decreases |s|
  {
    var c := Peek(s);
    if c == '\0' {
    } else if IsDigit(c) {
      ScanTokensWellFormed(DropSpaces(s[DigitRun(s)..]));
    } else if IsOperatorChar(c) {
      ScanTokensWellFormed(DropSpaces(s[1..]));
    } else {
      var n := WordRun(s);
      assert IsWordChar(c);
      ScanTokensWellFormed(DropSpaces(s[n..]));
    }
  }

  lemma ScanWellFormed(s: string)
    ensures forall i :: 0 <= i < |Scan(s)| ==> WellFormed(Scan(s)[i])
  {
    ScanTokensWellFormed(DropSpaces(s));
  }

  lemma {:induction false} DigitRunOf(d: string, rest: string)
    requires AllDigits(d) && !IsDigit(Peek(rest))
    ensures DigitRun(d + rest) == |d|
    decreases |d|
  {
    if |d| > 0 {
      assert (d + rest)[1..] == d[1..] + rest;
      DigitRunOf(d[1..], rest);
    } else {
      assert d + rest == rest;
    }
  }

  lemma {:induction false} WordRunOf(w: string, rest: string)
    requires forall i :: 0 <= i < |w| ==> IsWordChar(w[i])
    requires !IsWordChar(Peek(rest))
    ensures WordRun(w + rest) == |w|
    decreases |w|
  {
    if |w| > 0 {
      assert (w + rest)[1..] == w[1..] + rest;
      WordRunOf(w[1..], rest);
    } else {
      assert w + rest == rest;
    }
  }

  /** Scanning the rendering of a list of well-formed tokens (each token's
      text followed by a space, as the list's output operator writes it)
      gives the list back: digit runs are read back as the integers they
      spell, and spaces only separate tokens. */
  lemma {:induction false} ScanRender(ts: seq<Token>)
    requires forall i :: 0 <= i < |ts| ==> WellFormed(ts[i])
    ensures Scan(Render(ts)) == ts
  {
    RenderStartsSolid(ts);
    ScanTokensRender(ts);
  }

  lemma {:induction false} RenderStartsSolid(ts: seq<Token>)
    requires forall i :: 0 <= i < |ts| ==> WellFormed(ts[i])
    ensures Peek(Render(ts)) != ' '
    ensures DropSpaces(Render(ts)) == Render(ts)
  {
    if ts != [] {
      var t := ts[0];
      assert WellFormed(t);
      var x := Render(ts);
      assert x == Text(t) + " " + Render(ts[1..]);
      assert |Text(t)| > 0 && x[0] == Text(t)[0];
      match t
      case Int(v) =>
        assert IsDigit(Text(t)[0]);
      case Oper(sym) =>
        assert IsOperatorChar(x[0]);
      case Ident(n) =>
        assert IsWordChar(n[0]);
    }
  }

  lemma DropOneSpace(r: string)
    requires Peek(r) != ' '
    ensures DropSpaces(" " + r) == r
  {
    assert (" " + r)[1..] == r;
  }

  /** A maximal digit run, leading zeros included, is one integer token
      holding the run's decimal value, whatever non-digit follows it. */
  lemma ScanDigitsFront(d: string, r: string)
    requires |d| > 0 && AllDigits(d) && !IsDigit(Peek(r))
    ensures ScanTokens(d + r) == [Int(DigitsValue(d))] + ScanTokens(DropSpaces(r))
  {
    var x := d + r;
    assert Peek(x) == d[0];
    DigitRunOf(d, r);
    assert x[..|d|] == d;
    assert x[|d|..] == r;
  }

  /** The decimal text of a number scans back to that number. */
  lemma ScanIntFront(v: nat, r: string)
    requires !IsDigit(Peek(r))
    ensures ScanTokens(NatToString(v) + r) == [Int(v)] + ScanTokens(DropSpaces(r))
  {
    ScanDigitsFront(NatToString(v), r);
    DigitsValueOfNatToString(v);
  }

  /** An operator character is one token, whatever follows it. */
  lemma ScanOperFront(c: char, r: string)
    requires IsOperatorChar(c)
    ensures ScanTokens([c] + r) == [Oper([c])] + ScanTokens(DropSpaces(r))
  {
    var x := [c] + r;
    assert Peek(x) == c && c != '\0' && !IsDigit(c);
    assert x[1..] == r;
    assert ScanTokens(x) == [Oper([c])] + ScanTokens(DropSpaces(x[1..]));
  }

  /** An identifier runs up to the next space, terminator or operator. */
  lemma ScanIdentFront(n: string, r: string)
    requires WellFormed(Ident(n)) && !IsWordChar(Peek(r))
    ensures ScanTokens(n + r) == [Ident(n)] + ScanTokens(DropSpaces(r))
  {
    var x := n + r;
    assert Peek(x) == n[0] && IsWordChar(n[0]);
    WordRunOf(n, r);
    assert x[..|n|] == n;
    assert x[|n|..] == r;
  }

  lemma {:induction false} ScanTokensRender(ts: seq<Token>)
    requires forall i :: 0 <= i < |ts| ==> WellFormed(ts[i])
    ensures Peek(Render(ts)) != ' '
    ensures ScanTokens(Render(ts)) == ts
  {
    RenderStartsSolid(ts);
    if ts != [] {
      var t := ts[0];
      var r := Render(ts[1..]);
      RenderStartsSolid(ts[1..]);
      ScanTokensRender(ts[1..]);
      ScanFront(t, r);
      assert ts == [t] + ts[1..];
    }
  }

  lemma ScanFront(t: Token, r: string)
    requires WellFormed(t) && Peek(r) != ' '
    ensures ScanTokens(Text(t) + (" " + r)) == [t] + ScanTokens(r)
  {
    DropOneSpace(r);
    match t
    case Int(v) =>
      ScanIntFront(v, " " + r);
    case Oper(sym) =>
      assert sym == [sym[0]];
      ScanOperFront(sym[0], " " + r);
    case Ident(n) =>
      ScanIdentFront(n, " " + r);
  }

  /** Adjacent operator characters are never merged: a string of operator
      characters scans to one one-character operator token per character. */
  lemma {:induction false} OperatorsStaySingle(s: string)
    requires forall i :: 0 <= i < |s| ==> IsOperatorChar(s[i])
    ensures |Scan(s)| == |s|
    ensures forall i :: 0 <= i < |s| ==> Scan(s)[i] == Oper([s[i]])
    decreases |s|
  {
    if |s| > 0 {
      OperatorsStaySingle(s[1..]);
      ScanOperatorStep(s);
    }
  }

  lemma ScanOperatorStep(s: string)
    requires |s| > 0 && IsOperatorChar(s[0])
    requires Peek(s[1..]) != ' '
    ensures Scan(s) == [Oper([s[0]])] + Scan(s[1..])
  {
    DropSpacesNone(s);
    DropSpacesNone(s[1..]);
    assert [s[0]] + s[1..] == s;
    ScanOperFront(s[0], s[1..]);
  }
}
