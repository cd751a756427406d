/** The variable store of Homework 6 (`vartree.cpp`): a binary search tree
    from names to integer values, ordered by `std::string` comparison, with
    auto-vivification: looking up or assigning a name that is not there
    first inserts it with value 0.

    The tree is an immutable datatype here; an operation that changes the
    tree returns the new tree. Its meaning is the map `Contents`. */
module VarTree {
  import opened IntMath
  import opened Outcomes

  /** `std::string` `operator<`: lexicographic by character code, with a
      proper prefix ordered first. */
  predicate Less(a: string, b: string)
    decreases |a|
  {
    if |a| == 0 then |b| > 0
    else if |b| == 0 then false
    else a[0] < b[0] || (a[0] == b[0] && Less(a[1..], b[1..]))
  }

  lemma {:induction false} LessIrreflexive(a: string)
    ensures !Less(a, a)
    decreases |a|
  {
    if |a| > 0 {
      LessIrreflexive(a[1..]);
    }
  }

  lemma {:induction false} LessAsymmetric(a: string, b: string)
    requires Less(a, b)
    ensures !Less(b, a)
    decreases |a|
  {
    if |a| > 0 && |b| > 0 && a[0] == b[0] {
      LessAsymmetric(a[1..], b[1..]);
    }
  }

  lemma {:induction false} LessTransitive(a: string, b: string, c: string)
    requires Less(a, b) && Less(b, c)
    ensures Less(a, c)
    decreases |a|
  {
    if |a| > 0 && a[0] == b[0] && b[0] == c[0] {
      LessTransitive(a[1..], b[1..], c[1..]);
    }
  }

  /** Two names that neither precede the other are the same name. */
  lemma {:induction false} LessTotal(a: string, b: string)
    requires !Less(a, b) && !Less(b, a)
    ensures a == b
    decreases |a|
  {
    if |a| > 0 && |b| > 0 {
      LessTotal(a[1..], b[1..]);
      assert a == [a[0]] + a[1..] && b == [b[0]] + b[1..];
    }
  }

  datatype Tree = Empty | Node(left: Tree, name: string, value: int, right: Tree)

  /** What the tree stores: each name in it with its value. */
  function Contents(t: Tree): map<string, int> {
    match t
    case Empty => map[]
    case Node(l, n, v, r) => (Contents(l) + Contents(r))[n := v]
  }

  /** The search-tree invariant: every name in the left subtree precedes the
      node's name, which precedes every name in the right subtree. */
  predicate IsBST(t: Tree) {
    match t
    case Empty => true
    case Node(l, n, v, r) =>
      && IsBST(l) && IsBST(r)
      && (forall k :: k in Contents(l) ==> Less(k, n))
      && (forall k :: k in Contents(r) ==> Less(n, k))
  }

  /** In a search tree the name at a node is found in neither subtree, so
      its value is the node's own. */
  lemma NodeNameNotBelow(t: Tree)
    requires t.Node?
    ensures IsBST(t) ==> t.name !in Contents(t.left) && t.name !in Contents(t.right)
    ensures Contents(t)[t.name] == t.value
  {
    LessIrreflexive(t.name);
  }

  /** `recursiveSearch` followed by an access through the node pointer it
      returns: the walk goes left while `name` precedes the node's name,
      right while it follows it, and creates a node with value 0 at the
      empty place where the name belongs. Then the found node's value is
      read, or overwritten when `write` holds a value. The second component
      is the value read. */
  function Access(t: Tree, name: string, write: Option<int>): (r: (Tree, int))
    ensures IsBST(t) ==> IsBST(r.0)
    ensures IsBST(t) ==> r.1 == if name in Contents(t) then Contents(t)[name] else 0
    ensures IsBST(t) ==> Contents(r.0) == Contents(t)[name := if write.Some? then write.value else r.1]
    ensures IsBST(t) && name in Contents(t) && write.None? ==> r.0 == t
  {
    match t
    case Empty => (Node(Empty, name, if write.Some? then write.value else 0, Empty), 0)
    case Node(l, n, v, rt) =>
      if Less(name, n) then
        var (l', x) := Access(l, name, write);
        AccessLeftStep(t, name, write, l', x);
        (Node(l', n, v, rt), x)
      else if Less(n, name) then
        var (rt', x) := Access(rt, name, write);
        AccessRightStep(t, name, write, rt', x);
        (Node(l, n, v, rt'), x)
      else
        LessTotal(name, n);
        NodeNameNotBelow(t);
        (Node(l, n, if write.Some? then write.value else v, rt), v)
  }

  lemma UpdateLeftOfUnion(a: map<string, int>, b: map<string, int>, n: string, v: int, k: string, w: int)
    requires k != n && k !in b
    ensures (a[k := w] + b)[n := v] == ((a + b)[n := v])[k := w]
  {
  }

  lemma UpdateRightOfUnion(a: map<string, int>, b: map<string, int>, n: string, v: int, k: string, w: int)
    requires k != n
    ensures (a + b[k := w])[n := v] == ((a + b)[n := v])[k := w]
  {
  }

  lemma AccessLeftStep(t: Tree, name: string, write: Option<int>, l': Tree, x: int)
    requires t.Node? && Less(name, t.name)
    requires IsBST(t.left) ==> IsBST(l')
    requires IsBST(t.left) ==> x == if name in Contents(t.left) then Contents(t.left)[name] else 0
    requires IsBST(t.left) ==> Contents(l') == Contents(t.left)[name := if write.Some? then write.value else x]
    requires IsBST(t.left) && name in Contents(t.left) && write.None? ==> l' == t.left
    ensures IsBST(t) ==> IsBST(Node(l', t.name, t.value, t.right))
    ensures IsBST(t) ==> x == if name in Contents(t) then Contents(t)[name] else 0
    ensures IsBST(t) ==>
      (Contents(Node(l', t.name, t.value, t.right)) ==
       Contents(t)[name := if write.Some? then write.value else x])
    ensures IsBST(t) && name in Contents(t) && write.None? ==> Node(l', t.name, t.value, t.right) == t
  {
    if IsBST(t) {
      var n := t.name;
      var w := if write.Some? then write.value else x;
      assert name != n by { LessIrreflexive(n); }
      assert name !in Contents(t.right) by {
        if name in Contents(t.right) { LessAsymmetric(name, n); }
      }
      UpdateLeftOfUnion(Contents(t.left), Contents(t.right), n, t.value, name, w);
      assert IsBST(Node(l', n, t.value, t.right)) by {
        forall k | k in Contents(l')
          ensures Less(k, n)
        {
        }
      }
    }
  }

  lemma AccessRightStep(t: Tree, name: string, write: Option<int>, r': Tree, x: int)
    requires t.Node? && Less(t.name, name)
    requires IsBST(t.right) ==> IsBST(r')
    requires IsBST(t.right) ==> x == if name in Contents(t.right) then Contents(t.right)[name] else 0
    requires IsBST(t.right) ==> Contents(r') == Contents(t.right)[name := if write.Some? then write.value else x]
    requires IsBST(t.right) && name in Contents(t.right) && write.None? ==> r' == t.right
    ensures IsBST(t) ==> IsBST(Node(t.left, t.name, t.value, r'))
    ensures IsBST(t) ==> x == if name in Contents(t) then Contents(t)[name] else 0
    ensures IsBST(t) ==>
      (Contents(Node(t.left, t.name, t.value, r')) ==
       Contents(t)[name := if write.Some? then write.value else x])
    ensures IsBST(t) && name in Contents(t) && write.None? ==> Node(t.left, t.name, t.value, r') == t
  {
    if IsBST(t) {
      var n := t.name;
      var w := if write.Some? then write.value else x;
      assert name != n by { LessIrreflexive(n); }
      assert name !in Contents(t.left) by {
        if name in Contents(t.left) { LessAsymmetric(n, name); }
      }
      UpdateRightOfUnion(Contents(t.left), Contents(t.right), n, t.value, name, w);
      assert IsBST(Node(t.left, n, t.value, r')) by {
        forall k | k in Contents(r')
          ensures Less(n, k)
        {
        }
      }
    }
  }

  /** `lookup`: the value of `name`; a missing name is inserted with value 0
      and reads as 0. An existing name leaves the tree exactly as it was. */
  function Lookup(t: Tree, name: string): (r: (int, Tree))
    requires IsBST(t)
    ensures IsBST(r.1)
    ensures name in Contents(t) ==> r.0 == Contents(t)[name] && r.1 == t
    ensures name !in Contents(t) ==> r.0 == 0 && Contents(r.1) == Contents(t)[name := 0]
  {
    var (t', x) := Access(t, name, None);
    (x, t')
  }

  /** `assign`: afterwards `name` holds `value`, whether or not it was there
      before, and every other name keeps its value. */
  function Assign(t: Tree, name: string, value: int): (r: Tree)
    requires IsBST(t)
    ensures IsBST(r)
    ensures Contents(r) == Contents(t)[name := value]
  {
    Access(t, name, Some(value)).0
  }

  /** A lookup after an assignment reads the assigned value. */
  lemma LookupAfterAssign(t: Tree, name: string, value: int)
    requires IsBST(t)
    ensures Lookup(Assign(t, name, value), name).0 == value
  {
  }

  /** Neither operation changes the value of any other name. */
  lemma OthersUntouched(t: Tree, name: string, other: string, value: int)
    requires IsBST(t) && other != name
    ensures other in Contents(Lookup(t, name).1) <==> other in Contents(t)
    ensures other in Contents(Assign(t, name, value)) <==> other in Contents(t)
    ensures other in Contents(t) ==>
      Contents(Lookup(t, name).1)[other] == Contents(t)[other] &&
      Contents(Assign(t, name, value))[other] == Contents(t)[other]
  {
  }

  // ----- Rendering -----

  /** The entries of the tree, left subtree first. */
  function InOrder(t: Tree): seq<(string, int)> {
    match t
    case Empty => []
    case Node(l, n, v, r) => InOrder(l) + [(n, v)] + InOrder(r)
  }

  /** `name=value ` as the node output operator writes one entry. */
  function Entry(e: (string, int)): string {
    e.0 + "=" + IntToString(e.1) + " "
  }

  function Entries(es: seq<(string, int)>): string {
    if es == [] then "" else Entry(es[0]) + Entries(es[1..])
  }

  /** `operator<<(ostream&, TreeNode&)`: left subtree, this entry, right
      subtree. A null subtree writes nothing. */
  function RenderNodes(t: Tree): string {
    match t
    case Empty => ""
    case Node(l, n, v, r) => RenderNodes(l) + Entry((n, v)) + RenderNodes(r)
  }

  /** `operator<<(ostream&, VarTree&)`: the entries between `{ ` and `}`. */
  function Render(t: Tree): string {
    "{ " + RenderNodes(t) + "}"
  }

  predicate StrictlySorted(es: seq<(string, int)>) {
    forall i, j :: 0 <= i < j < |es| ==> Less(es[i].0, es[j].0)
  }

  lemma {:induction false} EntriesAppend(a: seq<(string, int)>, b: seq<(string, int)>)
    ensures Entries(a + b) == Entries(a) + Entries(b)
    decreases |a|
  {
    if a != [] {
      assert (a + b)[1..] == a[1..] + b;
      EntriesAppend(a[1..], b);
    } else {
      assert a + b == b;
    }
  }

  /** The node output operator writes exactly the in-order entries. */
  lemma {:induction false} RenderNodesIsEntries(t: Tree)
    ensures RenderNodes(t) == Entries(InOrder(t))
  {
    match t
    case Empty =>
    case Node(l, n, v, r) =>
      RenderNodesIsEntries(l);
      RenderNodesIsEntries(r);
      EntriesAppend(InOrder(l) + [(n, v)], InOrder(r));
      EntriesAppend(InOrder(l), [(n, v)]);
      assert Entries([(n, v)]) == Entry((n, v));
  }

  /** The in-order entries are exactly the stored pairs. */
  lemma {:induction false} InOrderIsContents(t: Tree)
    requires IsBST(t)
    ensures forall e :: e in InOrder(t) <==> e.0 in Contents(t) && Contents(t)[e.0] == e.1
  {
    match t
    case Empty =>
    case Node(l, n, v, r) =>
      InOrderIsContents(l);
      InOrderIsContents(r);
      NodeNameNotBelow(t);
      forall e
        ensures e in InOrder(t) <==> e.0 in Contents(t) && Contents(t)[e.0] == e.1
      {
        if e.0 in Contents(l) {
          assert e.0 !in Contents(r) by {
            if e.0 in Contents(r) { LessTransitive(e.0, n, e.0); LessIrreflexive(e.0); }
          }
        }
      }
  }

  /** The in-order entries are strictly increasing by name, so every name
      occurs once and uppercase names (smaller codes) come before lowercase
      ones. */
  lemma {:induction false} InOrderSorted(t: Tree)
    requires IsBST(t)
    ensures StrictlySorted(InOrder(t))
  {
    match t
    case Empty =>
    case Node(l, n, v, r) =>
      InOrderSorted(l);
      InOrderSorted(r);
      InOrderIsContents(l);
      InOrderIsContents(r);
      var s := InOrder(t);
      var a := InOrder(l);
      var b := InOrder(r);
      assert s == a + [(n, v)] + b;
      forall i, j | 0 <= i < j < |s|
        ensures Less(s[i].0, s[j].0)
      {
        if j < |a| {
          assert s[i] == a[i] && s[j] == a[j];
        } else if i > |a| {
          assert s[i] == b[i - |a| - 1] && s[j] == b[j - |a| - 1];
        } else if i == |a| {
          assert s[j] in b;
        } else if j == |a| {
          assert s[i] in a;
        } else {
          assert s[i] in a && s[j] in b;
          LessTransitive(s[i].0, n, s[j].0);
        }
      }
  }

  /** Two strictly sorted entry lists holding the same entries are equal. */
  lemma {:induction false} SortedUnique(a: seq<(string, int)>, b: seq<(string, int)>)
    requires StrictlySorted(a) && StrictlySorted(b)
    requires forall e :: e in a <==> e in b
    ensures a == b
    decreases |a|
  {
    SortedSize(a);
    SortedSize(b);
    assert (set e | e in a) == (set e | e in b);
    if |a| > 0 {
      assert a[0] in b && b[0] in a;
      if a[0] != b[0] {
        var i :| 0 <= i < |b| && b[i] == a[0];
        var j :| 0 <= j < |a| && a[j] == b[0];
        assert Less(b[0].0, b[i].0) && Less(a[0].0, a[j].0);
        LessAsymmetric(a[0].0, b[0].0);
      }
      forall e
        ensures e in a[1..] <==> e in b[1..]
      {
        TailMembers(a, e);
        TailMembers(b, e);
      }
      SortedUnique(a[1..], b[1..]);
      assert a == [a[0]] + a[1..] && b == [b[0]] + b[1..];
    }
  }

  /** A strictly sorted list has no repeated entry. */
  lemma {:induction false} SortedSize(s: seq<(string, int)>)
    requires StrictlySorted(s)
    ensures |(set e | e in s)| == |s|
    decreases |s|
  {
    if |s| > 0 {
      SortedSize(s[1..]);
      var all := set e | e in s;
      var rest := set e | e in s[1..];
      forall e
        ensures e in all <==> e in rest || e == s[0]
      {
        TailMembers(s, e);
      }
      assert s[0] !in rest by { TailMembers(s, s[0]); }
      assert all == rest + {s[0]};
    }
  }

  /** In a strictly sorted list the head is not repeated in the tail. */
  lemma TailMembers(s: seq<(string, int)>, e: (string, int))
    requires StrictlySorted(s) && |s| > 0
    ensures e in s[1..] <==> e in s && e != s[0]
  {
    if e in s[1..] {
      var k :| 0 <= k < |s[1..]| && s[1..][k] == e;
      assert Less(s[0].0, s[k + 1].0);
      if e == s[0] { LessIrreflexive(e.0); }
    }
    if e in s && e != s[0] {
      var k :| 0 <= k < |s| && s[k] == e;
      assert k > 0 && s[1..][k - 1] == e;
    }
  }

  /** The rendering depends only on what is stored, not on the shape of the
      tree (and so not on the order the names were inserted in). */
  lemma RenderDependsOnContentsOnly(t1: Tree, t2: Tree)
    requires IsBST(t1) && IsBST(t2) && Contents(t1) == Contents(t2)
    ensures Render(t1) == Render(t2)
  {
    InOrderSorted(t1);
    InOrderSorted(t2);
    InOrderIsContents(t1);
    InOrderIsContents(t2);
    SortedUnique(InOrder(t1), InOrder(t2));
    RenderNodesIsEntries(t1);
    RenderNodesIsEntries(t2);
  }

  /** The rendering is `{ `, then `name=value ` for each stored name in
      increasing order, then `}`. */
  lemma RenderIsSortedEntries(t: Tree)
    requires IsBST(t)
    ensures Render(t) == "{ " + Entries(InOrder(t)) + "}"
    ensures StrictlySorted(InOrder(t))
    ensures forall e :: e in InOrder(t) <==> e.0 in Contents(t) && Contents(t)[e.0] == e.1
  {
    RenderNodesIsEntries(t);
    InOrderSorted(t);
    InOrderIsContents(t);
  }

  /** An empty tree renders as `{ }`. */
  lemma RenderEmpty()
    ensures Render(Empty) == "{ }"
  {
  }
}
