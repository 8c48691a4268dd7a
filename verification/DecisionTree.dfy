/** Versioned decision trees (utils/tree/tree.go): the two explicit-stack traversals that turn a leaf path into a
    leaf index and back, against one recursive enumeration of the leaves. */
module DecisionTree {
  import opened Text

  /** A YAML value; `Other` stands for whatever is neither a bool, a string, a map nor a list (and for a missing key).
      The entries of a map are listed in the order sort.Strings gives their keys. */
  datatype Node =
    | Bool(b: bool)
    | Str(s: string)
    | Map(entries: seq<Entry>)
    | List(items: seq<Node>)
    | Other

  datatype Entry = Entry(key: string, node: Node)

  type Tree = seq<Entry>

  /** Map indexing; Other when the key is absent. */
  function Lookup(m: seq<Entry>, key: string): Node {
    if m == [] then Other else if m[0].key == key then m[0].node else Lookup(m[1..], key)
  }

  predicate HasKey(m: seq<Entry>, key: string) {
    exists i :: 0 <= i < |m| && m[i].key == key
  }

  predicate KeysAscend(m: seq<Entry>) {
    forall i, j :: 0 <= i < j < |m| ==> Less(m[i].key, m[j].key)
  }

  /** A map has one sorted listing, whatever the order its entries are visited in. */
  lemma {:induction false} ListingUnique(m: seq<Entry>, m': seq<Entry>)
    requires KeysAscend(m) && KeysAscend(m')
    requires |m| == |m'| && forall e :: e in m <==> e in m'
    ensures m == m'
  {
    if m != [] {
      assert m[0] in m';
      HeadIsLeast(m, m'[0]);
      HeadIsLeast(m', m[0]);
      assert m'[0] in m';
      OrderAntisymmetric(m[0].key, m'[0].key);
      SameKey(m, m'[0]);
      TailElements(m);
      TailElements(m');
      ListingUnique(m[1..], m'[1..]);
      assert m == [m[0]] + m[1..] && m' == [m'[0]] + m'[1..];
    }
  }

  lemma HeadIsLeast(m: seq<Entry>, e: Entry)
    requires KeysAscend(m) && e in m
    ensures LessEq(m[0].key, e.key)
  {
    OrderTotal(e.key, e.key);
  }

  lemma SameKey(m: seq<Entry>, e: Entry)
    requires KeysAscend(m) && e in m && e.key == m[0].key
    ensures e == m[0]
  {
  }

  lemma TailElements(m: seq<Entry>)
    requires KeysAscend(m) && m != []
    ensures KeysAscend(m[1..])
    ensures forall e :: e in m[1..] <==> e in m && e != m[0]
  {
    forall e | e in m && e != m[0] ensures e in m[1..] {
      var i :| 0 <= i < |m| && m[i] == e;
      assert m[1..][i - 1] == e;
    }
  }

  predicate IsLeaf(n: Node) { n.Bool? || n.Str? }

  /** isLeafNode: the rendering of a scalar. */
  function Render(n: Node): string
    requires IsLeaf(n)
  {
    match n
    case Bool(b) => if b then "true" else "false"
    case Str(s) => s
  }

  // ----- recursive enumeration -----

  datatype Child = Child(path: string, node: Node)

  function Arity(n: Node): nat {
    match n
    case Map(entries) => |entries|
    case List(items) => |items|
    case _ => 0
  }

  /** The i-th child of an inner node in traversal order; a list does not extend the path. */
  function ChildAt(path: string, n: Node, i: nat): (c: Child)
    requires i < Arity(n)
    ensures c.node < n
  {
    match n
    case Map(entries) => Child(path + "." + entries[i].key, entries[i].node)
    case List(items) => Child(path, items[i])
  }

  /** All leaf paths below a node, in traversal order. */
  function Leaves(path: string, n: Node): seq<string>
    decreases n
  {
    if IsLeaf(n) then [path + "." + Render(n)] else LeavesFrom(path, n, 0)
  }

  /** The leaf paths below the children from position i on. */
  function LeavesFrom(path: string, n: Node, i: nat): seq<string>
    requires i <= Arity(n)
    decreases n, Arity(n) - i
  {
    if i == Arity(n) then []
    else
      var c := ChildAt(path, n, i);
      Leaves(c.path, c.node) + LeavesFrom(path, n, i + 1)
  }

  function VersionLeaves(tree: Tree, version: string): seq<string> {
    Leaves(version, Lookup(tree, version))
  }

  // ----- the traversal stack -----

  /** AnnotatedTreeNode: the children up to and including `index` have been pushed already. */
  datatype Frame = Frame(path: string, node: Node, index: int)

  function NewFrame(path: string, n: Node): Frame { Frame(path, n, -1) }

  predicate FrameOk(f: Frame) { -1 <= f.index && (f.index == -1 || f.index < Arity(f.node)) }

  predicate StackOk(stack: seq<Frame>) {
    forall i :: 0 <= i < |stack| ==> FrameOk(stack[i])
  }

  /** The leaves a frame still has to deliver. */
  ghost function FrameLeaves(f: Frame): seq<string> {
    if IsLeaf(f.node) then [f.path + "." + Render(f.node)]
    else if -1 <= f.index < Arity(f.node) then LeavesFrom(f.path, f.node, f.index + 1)
    else []
  }

  /** The leaves the whole stack still has to deliver, top of the stack first. */
  ghost function Pending(stack: seq<Frame>): seq<string> {
    if stack == [] then []
    else FrameLeaves(stack[|stack| - 1]) + Pending(stack[..|stack| - 1])
  }

  // Work left, for termination: every loop turn pops a leaf, finishes a frame or pushes one child.
  ghost function Weight(n: Node): nat
    decreases n
  {
    1 + WeightFrom(n, 0)
  }

  ghost function WeightFrom(n: Node, i: nat): nat
    requires i <= Arity(n)
    decreases n, Arity(n) - i
  {
    if i == Arity(n) then 0 else 1 + Weight(ChildAt("", n, i).node) + WeightFrom(n, i + 1)
  }

  ghost function FrameWork(f: Frame): nat {
    1 + if -1 <= f.index < Arity(f.node) then WeightFrom(f.node, f.index + 1) else 0
  }

  ghost function Work(stack: seq<Frame>): nat {
    if stack == [] then 0
    else FrameWork(stack[|stack| - 1]) + Work(stack[..|stack| - 1])
  }

  lemma PushFacts(rest: seq<Frame>, f: Frame)
    ensures Pending(rest + [f]) == FrameLeaves(f) + Pending(rest)
    ensures Work(rest + [f]) == FrameWork(f) + Work(rest)
  {
    var stack := rest + [f];
    assert stack[..|stack| - 1] == rest;
  }

  lemma NewFrameFacts(path: string, n: Node)
    ensures FrameLeaves(NewFrame(path, n)) == Leaves(path, n)
    ensures FrameWork(NewFrame(path, n)) == Weight(n)
  {
  }

  lemma ChildFacts(f: Frame)
    requires FrameOk(f) && f.index + 1 < Arity(f.node)
    ensures var child := ChildAt(f.path, f.node, f.index + 1);
            var advanced := f.(index := f.index + 1);
            && FrameLeaves(f) == Leaves(child.path, child.node) + FrameLeaves(advanced)
            && FrameWork(f) == 1 + Weight(child.node) + FrameWork(advanced)
  {
    assert ChildAt("", f.node, f.index + 1).node == ChildAt(f.path, f.node, f.index + 1).node;
  }

  /** Popping a frame and pushing it back advanced, with its next child on top, loses and repeats no leaf. */
  lemma DescendFacts(rest: seq<Frame>, top: Frame, advanced: Frame, child: Child)
    requires FrameOk(top) && top.index + 1 < Arity(top.node)
    requires advanced == top.(index := top.index + 1) && child == ChildAt(top.path, top.node, top.index + 1)
    ensures StackOk(rest) ==> StackOk(rest + [advanced] + [NewFrame(child.path, child.node)])
    ensures Pending(rest + [advanced] + [NewFrame(child.path, child.node)]) == FrameLeaves(top) + Pending(rest)
    ensures Work(rest + [advanced] + [NewFrame(child.path, child.node)]) < FrameWork(top) + Work(rest)
  {
    var pushed := NewFrame(child.path, child.node);
    ChildFacts(top);
    NewFrameFacts(child.path, child.node);
    PushTwice(rest, advanced, pushed);
  }

  lemma PushTwice(rest: seq<Frame>, f: Frame, g: Frame)
    ensures StackOk(rest) && FrameOk(f) && FrameOk(g) ==> StackOk(rest + [f] + [g])
    ensures Pending(rest + [f] + [g]) == (FrameLeaves(g) + FrameLeaves(f)) + Pending(rest)
    ensures Work(rest + [f] + [g]) == FrameWork(g) + FrameWork(f) + Work(rest)
  {
    StackOkTwice(rest, f, g);
    PushFacts(rest, f);
    PushFacts(rest + [f], g);
    SameConcat(FrameLeaves(g), FrameLeaves(f), Pending(rest));
  }

  lemma StackOkTwice(rest: seq<Frame>, f: Frame, g: Frame)
    ensures StackOk(rest) && FrameOk(f) && FrameOk(g) ==> StackOk(rest + [f] + [g])
  {
  }

  lemma SameConcat(a: seq<string>, b: seq<string>, c: seq<string>)
    ensures a + (b + c) == (a + b) + c
  {
  }

  /** The loop invariant of both traversals: `count` + 1 leaves of `all` have been seen. */
  ghost predicate Traversal(stack: seq<Frame>, all: seq<string>, count: int) {
    && -1 <= count < |all|
    && StackOk(stack)
    && Pending(stack) == all[count + 1..]
  }

  lemma LeafTurn(stack: seq<Frame>, rest: seq<Frame>, top: Frame, all: seq<string>, count: int)
    requires stack != [] && rest == stack[..|stack| - 1] && top == stack[|stack| - 1]
    requires Traversal(stack, all, count) && IsLeaf(top.node)
    ensures Traversal(rest, all, count + 1) && all[count + 1] == top.path + "." + Render(top.node)
    ensures Work(rest) < Work(stack)
  {
    assert all[count + 1..][0] == all[count + 1] && all[count + 1..][1..] == all[count + 2..];
  }

  /** The branch both loops take for a popped node that is no leaf: when it has a child left, push the node back
      with its index advanced, then the child. */
  function Expand(rest: seq<Frame>, top: Frame): seq<Frame>
    requires FrameOk(top) && !IsLeaf(top.node)
  {
    match top.node
    case Map(entries) =>
      if top.index < |entries| - 1 then
        var entry := entries[top.index + 1];
        rest + [top.(index := top.index + 1)] + [NewFrame(top.path + "." + entry.key, entry.node)]
      else rest
    case List(items) =>
      if top.index < |items| - 1 then
        rest + [top.(index := top.index + 1)] + [NewFrame(top.path, items[top.index + 1])]
      else rest
    case Other => rest
  }

  lemma ExpandShape(rest: seq<Frame>, top: Frame)
    requires FrameOk(top) && !IsLeaf(top.node)
    ensures top.index + 1 >= Arity(top.node) ==> Expand(rest, top) == rest && FrameLeaves(top) == []
    ensures top.index + 1 < Arity(top.node) ==>
              var child := ChildAt(top.path, top.node, top.index + 1);
              Expand(rest, top) == rest + [top.(index := top.index + 1)] + [NewFrame(child.path, child.node)]
  {
  }

  lemma PopFacts(stack: seq<Frame>, rest: seq<Frame>, top: Frame)
    requires stack != [] && rest == stack[..|stack| - 1] && top == stack[|stack| - 1]
    ensures StackOk(stack) ==> StackOk(rest) && FrameOk(top)
    ensures Pending(stack) == FrameLeaves(top) + Pending(rest)
    ensures Work(stack) == FrameWork(top) + Work(rest)
  {
  }

  lemma ExpandTurn(stack: seq<Frame>, rest: seq<Frame>, top: Frame, all: seq<string>, count: int)
    requires stack != [] && rest == stack[..|stack| - 1] && top == stack[|stack| - 1]
    requires Traversal(stack, all, count) && FrameOk(top) && !IsLeaf(top.node)
    ensures Traversal(Expand(rest, top), all, count)
    ensures Work(Expand(rest, top)) < Work(stack)
  {
    PopFacts(stack, rest, top);
    ExpandShape(rest, top);
    if top.index + 1 < Arity(top.node) {
      DescendFacts(rest, top, top.(index := top.index + 1), ChildAt(top.path, top.node, top.index + 1));
    }
  }

  lemma StartFacts(path: string, n: Node)
    ensures Traversal([NewFrame(path, n)], Leaves(path, n), -1)
  {
    PushFacts([], NewFrame(path, n));
    NewFrameFacts(path, n);
    assert [] + [NewFrame(path, n)] == [NewFrame(path, n)];
  }

  lemma {:induction false} AbsentKey(m: seq<Entry>, key: string)
    ensures !HasKey(m, key) ==> Lookup(m, key) == Other
  {
    if m != [] {
      AbsentKey(m[1..], key);
      assert HasKey(m[1..], key) ==> HasKey(m, key) by {
        if HasKey(m[1..], key) {
          var i :| 0 <= i < |m[1..]| && m[1..][i].key == key;
          assert m[i + 1].key == key;
        }
      }
    }
  }

  // ----- GetPathFromLeafIndex -----

  /** The specification: the path at a position of the enumeration, None for the error result. */
  function PathAt(tree: Tree, version: string, index: int): Option<string> {
    var leaves := VersionLeaves(tree, version);
    if 0 <= index < |leaves| then Some(leaves[index]) else None
  }

  lemma PathAtIs(tree: Tree, version: string, index: int, all: seq<string>)
    requires all == Leaves(version, Lookup(tree, version))
    ensures PathAt(tree, version, index) == if 0 <= index < |all| then Some(all[index]) else None
  {
  }

  method GetPathFromLeafIndex(tree: Tree, version: string, index: int) returns (r: Option<string>)
    ensures r == PathAt(tree, version, index)
  {
    if index < 0 { return None; }
    var root := Lookup(tree, version);
    ghost var all := Leaves(version, root);
    PathAtIs(tree, version, index, all);
    var stack := [NewFrame(version, root)];
    StartFacts(version, root);
    var leafCount := -1;
    while |stack| > 0
      invariant Traversal(stack, all, leafCount)
      invariant leafCount < index
      decreases Work(stack)
    {
      ghost var before := stack;
      var top := stack[|stack| - 1];
      stack := stack[..|stack| - 1];
      if IsLeaf(top.node) {
        LeafTurn(before, stack, top, all, leafCount);
        leafCount := leafCount + 1;
        if leafCount == index {
          return Some(top.path + "." + Render(top.node));
        }
      } else {
        ExpandTurn(before, stack, top, all, leafCount);
        stack := Expand(stack, top);
      }
    }
    assert all[leafCount + 1..] == [];
    r := None;
  }

  // ----- GetLeafIndex -----

  /** First position of an element, or -1. */
  function FirstIndex(s: seq<string>, x: string): (i: int)
    ensures -1 <= i < |s|
    ensures i == -1 <==> x !in s
    ensures i >= 0 ==> s[i] == x && x !in s[..i]
  {
    if s == [] then -1
    else if s[0] == x then 0
    else
      var i := FirstIndex(s[1..], x);
      assert i >= 0 ==> s[..i + 1] == [s[0]] + s[1..][..i];
      if i == -1 then -1 else i + 1
  }

  /** The specification: the position of a dotted path among its version's leaves. A path without a dot is looked up
      as a version of the tree. */
  function LeafIndex(tree: Tree, path: string): int {
    if path == "" then -1
    else if '.' !in path then (if HasKey(tree, path) then 0 else -1)
    else FirstIndex(VersionLeaves(tree, Split(path, '.')[0]), path)
  }

  method GetLeafIndex(tree: Tree, path: string) returns (r: int)
    ensures r == LeafIndex(tree, path)
  {
    if |path| == 0 { return -1; }
    if '.' !in path { return if HasKey(tree, path) then 0 else -1; }
    var firstKey := Split(path, '.')[0];
    if !HasKey(tree, firstKey) {
      AbsentKey(tree, firstKey);
      return -1;
    }
    var root := Lookup(tree, firstKey);
    ghost var all := Leaves(firstKey, root);
    var stack := [NewFrame(firstKey, root)];
    StartFacts(firstKey, root);
    var leafCount := -1;
    while |stack| > 0
      invariant Traversal(stack, all, leafCount)
      invariant path !in all[..leafCount + 1]
      decreases Work(stack)
    {
      ghost var before := stack;
      var top := stack[|stack| - 1];
      stack := stack[..|stack| - 1];
      if IsLeaf(top.node) {
        LeafTurn(before, stack, top, all, leafCount);
        leafCount := leafCount + 1;
        if top.path + "." + Render(top.node) == path {
          FirstIndexUnique(all, path, leafCount);
          return leafCount;
        }
        assert all[..leafCount + 1] == all[..leafCount] + [all[leafCount]];
      } else {
        ExpandTurn(before, stack, top, all, leafCount);
        stack := Expand(stack, top);
      }
    }
    assert all[..leafCount + 1] == all;
    r := -1;
  }

  lemma {:induction false} FirstIndexUnique(s: seq<string>, x: string, i: nat)
    requires i < |s| && s[i] == x && x !in s[..i]
    ensures FirstIndex(s, x) == i
  {
    if i > 0 {
      assert s[0] == s[..i][0] && s[1..][..i - 1] == s[..i][1..];
      FirstIndexUnique(s[1..], x, i - 1);
    }
  }
}
