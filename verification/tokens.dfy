/** Tokens and the token list of Homework 4 (`tokenlist.cpp`).

    The list is a singly linked list with `head` and `tail` pointers; it is
    used as a queue (`push_back`) by the scanner and the infix-to-postfix
    converter, and as a stack (`push_front` / `pop_front`) by the postfix
    evaluator. The model keeps the list as the sequence of its tokens, head
    first, and exposes the two pointers as optional first and last tokens. */
module Tokens {
  import opened IntMath
  import opened Outcomes

  /** A token is an integer, an operator symbol or an identifier. */
  datatype Token = Int(value: int) | Oper(sym: string) | Ident(name: string)

  /** `tokenText()`: the characters a token stands for. */
  function Text(t: Token): string {
    match t
    case Int(v) => IntToString(v)
    case Oper(s) => s
    case Ident(n) => n
  }

  /** `tokenChar()`: the operator character of an operator token. Any other
      token answers NUL, which compares unequal to every operator. */
  function TokenChar(t: Token): char {
    if t.Oper? && |t.sym| > 0 then t.sym[0] else '\0'
  }

  // ----- The list iterator -----

  /** `tokenChar()` of an iterator standing at position `pos`. Past the
      last token it answers NUL. */
  function CharAt(toks: seq<Token>, pos: nat): char {
    if pos < |toks| then TokenChar(toks[pos]) else '\0'
  }

  /** `advance()` of an iterator standing at position `pos`; past the last
      token it stays put. */
  function Advance(toks: seq<Token>, pos: nat): nat {
    if pos < |toks| then pos + 1 else pos
  }

  datatype TokenList = TokenList(items: seq<Token>) {

    /** `head == NULL` (and then `tail == NULL` as well). */
    predicate IsEmpty() {
      |items| == 0
    }

    /** The token under `head`, if any. */
    function Head(): Option<Token> {
      if |items| == 0 then None else Some(items[0])
    }

    /** The token under `tail`, if any. */
    function Tail(): Option<Token> {
      if |items| == 0 then None else Some(items[|items| - 1])
    }

    /** `push_back`: the new element becomes the tail; it also becomes the
        head when the list was empty; everything already there stays, in
        order. */
    function PushBack(t: Token): (r: TokenList)
      ensures r.Tail() == Some(t)
      ensures r.Head() == if IsEmpty() then Some(t) else Head()
      ensures |r.items| == |items| + 1 && r.items[..|items|] == items
    {
      TokenList(items + [t])
    }

    /** `push_front`: the new element becomes the head; it also becomes the
        tail when the list was empty; the old elements follow it. */
    function PushFront(t: Token): (r: TokenList)
      ensures r.Head() == Some(t)
      ensures r.Tail() == if IsEmpty() then Some(t) else Tail()
      ensures |r.items| == |items| + 1 && r.items[1..] == items
    {
      TokenList([t] + items)
    }

    /** `pop_front`: returns the head token and unlinks it. The list must not
        be empty (the source dereferences `head` unchecked). Popping the
        last element leaves both `head` and `tail` null. */
    function PopFront(): (r: (Token, TokenList))
      requires !IsEmpty()
      ensures Some(r.0) == Head()
      ensures r.1.items == items[1..]
      ensures r.1.IsEmpty() <==> |items| == 1
      ensures r.1.Head() == None <==> r.1.Tail() == None
      ensures !r.1.IsEmpty() ==> r.1.Tail() == Tail()
    {
      (items[0], TokenList(items[1..]))
    }
  }

  /** Used as a stack, the list gives back what was pushed last, and is then
      exactly as it was before the push. */
  lemma PopUndoesPushFront(l: TokenList, t: Token)
    ensures l.PushFront(t).PopFront() == (t, l)
  {
  }

  /** Used as a queue, pushing at the back does not disturb which token is
      popped first from a non-empty list. */
  lemma PushBackKeepsFront(l: TokenList, t: Token)
    requires !l.IsEmpty()
    ensures l.PushBack(t).PopFront().0 == l.PopFront().0
    ensures l.PushBack(t).PopFront().1 == l.PopFront().1.PushBack(t)
  {
  }

  /** The output operator of a token list: every token's text followed by a
      space. */
  function Render(ts: seq<Token>): (s: string)
    ensures ts == [] <==> s == []
  {
    if ts == [] then [] else Text(ts[0]) + (" " + Render(ts[1..]))
  }
}
