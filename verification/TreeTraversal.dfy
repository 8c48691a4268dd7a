/** Path validation (CanTraverseTree in utils/tree/tree.go) and its agreement with the leaf enumeration. */
module TreeTraversal {
  import opened Text
  import opened DecisionTree
  import opened LeafPaths

  /** Invalid stands for every error result; the partial path returned next to an error is not modelled. */
  datatype Traversed = Valid(path: string) | Invalid

  // ----- the last element is a list -----

  /** What getCastedListElement looks for: "true" and "false" match booleans only, anything else strings only. */
  predicate ListHolds(items: seq<Node>, element: string) {
    if element == "" then false
    else if element == "true" then Bool(true) in items
    else if element == "false" then Bool(false) in items
    else Str(element) in items
  }

  function ListElement(items: seq<Node>, path: string, element: string): Traversed {
    if ListHolds(items, element) then Valid(path + "." + element) else Invalid
  }

  method GetCastedListElement(castedList: seq<Node>, currPathString: string, element: string) returns (r: Traversed)
    ensures r == ListElement(castedList, currPathString, element)
  {
    if element == "" { return Invalid; }
    var hasBooleanTrue, hasBooleanFalse, hasStringEquals := false, false, false;
    for i := 0 to |castedList|
      invariant hasBooleanTrue == (Bool(true) in castedList[..i])
      invariant hasBooleanFalse == (Bool(false) in castedList[..i])
      invariant hasStringEquals == (Str(element) in castedList[..i])
    {
      assert castedList[..i + 1] == castedList[..i] + [castedList[i]];
      match castedList[i] {
        case Bool(b) => if b { hasBooleanTrue := true; } else { hasBooleanFalse := true; }
        case Str(s) => if s == element { hasStringEquals := true; }
        case _ =>
      }
    }
    assert castedList[..|castedList|] == castedList;
    if element == "true" {
      return if hasBooleanTrue then Valid(currPathString + "." + "true") else Invalid;
    }
    if element == "false" {
      return if hasBooleanFalse then Valid(currPathString + "." + "false") else Invalid;
    }
    r := if hasStringEquals then Valid(currPathString + "." + element) else Invalid;
  }

  // ----- the walk down the maps -----

  /** The check at the last key of the path. */
  function LastElement(m: seq<Entry>, key: string, value: string, prefix: string): Traversed {
    if !HasKey(m, key) then Invalid
    else
      match Lookup(m, key)
      case Bool(b) => if value == Render(Bool(b)) then Valid(prefix + key + "." + value) else Invalid
      case Str(s) => if value == s then Valid(prefix + key + "." + s) else Invalid
      case List(items) => ListElement(items, prefix + key, value)
      case _ => Invalid
  }

  /** An early end at something that is not a map, accepted only when sub-paths are allowed. A scalar found here is
      not compared with the rest of the path. */
  function SubPath(n: Node, path: string, next: string): Traversed {
    match n
    case List(items) => ListElement(items, path, next)
    case Bool(_) | Str(_) => Valid(path + "." + Render(n))
    case _ => Invalid
  }

  function Walk(m: seq<Entry>, keys: seq<string>, value: string, prefix: string, allowSubPaths: bool): Traversed
    requires keys != []
    decreases |keys|
  {
    if |keys| == 1 then LastElement(m, keys[0], value, prefix)
    else if !HasKey(m, keys[0]) then Invalid
    else
      var next := Lookup(m, keys[0]);
      if next.Map? then Walk(next.entries, keys[1..], value, prefix + keys[0] + ".", allowSubPaths)
      else if allowSubPaths then SubPath(next, prefix + keys[0], keys[1])
      else Invalid
  }

  function Traverse(tree: Tree, path: string, allowSubPaths: bool): Traversed {
    var dotLoc := LastIndex(path, '.');
    if path == "" then Valid("")
    else if dotLoc < 0 || dotLoc + 1 >= |path| then Invalid
    else
      var pathKey, pathValue := path[..dotLoc], path[dotLoc + 1..];
      if '.' !in pathKey then (if HasKey(tree, pathKey) then Valid("") else Invalid)
      else Walk(tree, Split(pathKey, '.'), pathValue, "", allowSubPaths)
  }

  method CanTraverseTree(tree: Tree, path: string, allowSubPaths: bool) returns (r: Traversed)
    ensures r == Traverse(tree, path, allowSubPaths)
  {
    var n := |path|;
    if n == 0 { return Valid(path); }
    var dotLoc := LastIndex(path, '.');
    if dotLoc < 0 || dotLoc + 1 >= n { return Invalid; }
    var pathKey, pathValue := path[..dotLoc], path[dotLoc + 1..];
    if '.' !in pathKey {
      return if HasKey(tree, pathKey) then Valid("") else Invalid;
    }
    var paths := Split(pathKey, '.');
    SplitCount(pathKey, '.');
    ghost var goal := Walk(tree, paths, pathValue, "", allowSubPaths);
    assert paths[0..] == paths;
    var i, j := 0, |paths|;
    var currMap, currPathString := tree, "";
    while i < j - 1
      invariant 0 <= i <= j - 1
      invariant goal == Walk(currMap, paths[i..], pathValue, currPathString, allowSubPaths)
    {
      assert paths[i..][1..] == paths[i + 1..];
      if !HasKey(currMap, paths[i]) { return Invalid; }
      var nextMap := Lookup(currMap, paths[i]);
      var here := currPathString + paths[i];
      currPathString := here + ".";
      if nextMap.Map? {
        currMap := nextMap.entries;
      } else {
        if !allowSubPaths { return Invalid; }
        match nextMap {
          case Bool(_) | Str(_) =>
            assert currPathString + Render(nextMap) == here + "." + Render(nextMap);
            return Valid(currPathString + Render(nextMap));
          case List(items) =>
            assert currPathString[..|currPathString| - 1] == here;
            r := GetCastedListElement(items, currPathString[..|currPathString| - 1], paths[i + 1]);
            return;
          case _ =>
            return Invalid;
        }
      }
      i := i + 1;
    }
    if !HasKey(currMap, paths[i]) { return Invalid; }
    var mapLastElement := Lookup(currMap, paths[i]);
    currPathString := currPathString + paths[i];
    match mapLastElement {
      case Bool(b) =>
        r := if (pathValue == "true" && b) || (pathValue == "false" && !b)
             then Valid(currPathString + "." + Render(mapLastElement)) else Invalid;
      case Str(s) =>
        r := if s == pathValue then Valid(currPathString + "." + s) else Invalid;
      case List(items) =>
        r := GetCastedListElement(items, currPathString, pathValue);
      case _ =>
        r := Invalid;
    }
  }

  // ----- a validated path is a leaf path -----

  lemma {:induction false} LookupFinds(m: seq<Entry>, key: string) returns (i: nat)
    requires HasKey(m, key)
    ensures i < |m| && m[i].key == key && Lookup(m, key) == m[i].node
  {
    if m[0].key == key {
      i := 0;
    } else {
      var k :| 0 <= k < |m| && m[k].key == key;
      assert m[1..][k - 1].key == key;
      i := LookupFinds(m[1..], key);
      i := i + 1;
    }
  }

  lemma ListElementIsLeaf(items: seq<Node>, path: string, element: string)
    requires ListHolds(items, element)
    ensures path + "." + element in Leaves(path, List(items))
  {
    var x := if element == "true" then Bool(true) else if element == "false" then Bool(false) else Str(element);
    var j :| 0 <= j < |items| && items[j] == x;
    assert Leaves(path, x) == [path + "." + element];
    ChildLeafBelow(path, List(items), 0, j, path + "." + element);
  }

  lemma {:induction false} WalkFindsLeaf(m: seq<Entry>, keys: seq<string>, value: string, prefix: string, sub: bool)
    requires keys != [] && Walk(m, keys, value, prefix, sub).Valid?
    ensures HasKey(m, keys[0])
    ensures Walk(m, keys, value, prefix, sub).path in Leaves(prefix + keys[0], Lookup(m, keys[0]))
    decreases |keys|
  {
    var node, here := Lookup(m, keys[0]), prefix + keys[0];
    if |keys| == 1 {
      if node.List? { ListElementIsLeaf(node.items, here, value); }
    } else if node.Map? {
      var found := Walk(node.entries, keys[1..], value, here + ".", sub).path;
      WalkFindsLeaf(node.entries, keys[1..], value, here + ".", sub);
      var i := LookupFinds(node.entries, keys[1]);
      ChildLeafBelow(here, node, 0, i, found);
    } else if node.List? {
      ListElementIsLeaf(node.items, here, keys[1]);
    }
  }

  /** Every non-empty path that validation returns, sub-paths allowed or not, has a leaf index. */
  lemma ValidatedPathHasIndex(tree: Tree, path: string, allowSubPaths: bool)
    requires Traverse(tree, path, allowSubPaths).Valid? && Traverse(tree, path, allowSubPaths).path != ""
    ensures LeafIndex(tree, Traverse(tree, path, allowSubPaths).path) >= 0
  {
    var dotLoc := LastIndex(path, '.');
    var keys := Split(path[..dotLoc], '.');
    var found := Traverse(tree, path, allowSubPaths).path;
    SplitFree(path[..dotLoc], '.');
    WalkFindsLeaf(tree, keys, path[dotLoc + 1..], "", allowSubPaths);
    assert "" + keys[0] == keys[0];
    LeavesUnder(keys[0], Lookup(tree, keys[0]), found);
    FirstSegment(found, keys[0]);
  }

  // ----- on clean trees strict validation accepts exactly the leaf paths -----

  predicate CleanScalar(n: Node) {
    n.Bool? || (n.Str? && n.s != "" && '.' !in n.s)
  }

  predicate CleanItem(n: Node) {
    CleanScalar(n) && n != Str("true") && n != Str("false")
  }

  /** Keys are dot-free, leaves are dot-free and not empty, lists hold scalars only, and no list holds the strings
      "true" or "false". */
  predicate Clean(n: Node) {
    match n
    case Map(entries) => KeysAscend(entries) && forall e :: e in entries ==> '.' !in e.key && Clean(e.node)
    case List(items) => forall x :: x in items ==> CleanItem(x)
    case Other => true
    case _ => CleanScalar(n)
  }

  lemma {:induction false} LookupAt(m: seq<Entry>, i: nat)
    requires KeysAscend(m) && i < |m|
    ensures HasKey(m, m[i].key) && Lookup(m, m[i].key) == m[i].node
  {
    if i > 0 {
      assert Less(m[0].key, m[i].key);
      LookupAt(m[1..], i - 1);
    }
  }

  /** The tail of a path below `here`: the remaining keys and the value, joined by dots. */
  function Tail(keys: seq<string>, value: string): string {
    if keys == [] then value else keys[0] + "." + Tail(keys[1..], value)
  }

  lemma {:induction false} TailIsJoin(keys: seq<string>, value: string)
    ensures Tail(keys, value) == Join(keys + [value], '.')
  {
    if keys != [] {
      assert (keys + [value])[1..] == keys[1..] + [value];
      TailIsJoin(keys[1..], value);
    } else {
      assert keys + [value] == [value];
    }
  }

  /** A leaf path that ends right after a dot-free value. */
  lemma LastElementAccepts(m: seq<Entry>, key: string, value: string, prefix: string)
    requires HasKey(m, key) && Clean(Lookup(m, key)) && '.' !in value
    requires prefix + key + "." + value in Leaves(prefix + key, Lookup(m, key))
    ensures LastElement(m, key, value, prefix) == Valid(prefix + key + "." + value)
  {
    var node, here := Lookup(m, key), prefix + key;
    var s := here + "." + value;
    if IsLeaf(node) {
      TailAfter(s, here, value);
      TailAfter(s, here, Render(node));
    } else {
      var j := LeafBelowChild(here, node, 0, s);
      match node
      case List(items) =>
        assert items[j] in items;
        TailAfter(s, here, value);
        TailAfter(s, here, Render(items[j]));
      case Map(entries) =>
        NoDeeper(s, here, entries[j], value);
    }
  }

  lemma NoDeeper(s: string, here: string, e: Entry, value: string)
    requires s == here + "." + value && '.' !in value
    ensures s !in Leaves(here + "." + e.key, e.node)
  {
    assert forall i :: |here| < i < |s| ==> s[i] == value[i - |here| - 1];
    if s in Leaves(here + "." + e.key, e.node) {
      LeavesUnder(here + "." + e.key, e.node, s);
    }
  }

  lemma KeyOfLeaf(s: string, here: string, entries: seq<Entry>, j: nat, key: string, rest: string)
    requires j < |entries| && '.' !in entries[j].key && '.' !in key
    requires s == here + "." + key + "." + rest
    requires s in Leaves(here + "." + entries[j].key, entries[j].node)
    ensures entries[j].key == key
  {
    LeavesUnder(here + "." + entries[j].key, entries[j].node, s);
    assert s[..|here + "." + key|] == here + "." + key;
    UnderOneKey(s, here, entries[j].key, key);
  }

  lemma {:induction false} WalkAccepts(m: seq<Entry>, keys: seq<string>, value: string, prefix: string)
    requires keys != [] && AllFree(keys, '.') && '.' !in value
    requires HasKey(m, keys[0]) && Clean(Lookup(m, keys[0]))
    requires prefix + Tail(keys, value) in Leaves(prefix + keys[0], Lookup(m, keys[0]))
    ensures Walk(m, keys, value, prefix, false) == Valid(prefix + Tail(keys, value))
    decreases |keys|
  {
    var node, here := Lookup(m, keys[0]), prefix + keys[0];
    var s := prefix + Tail(keys, value);
    assert s == here + "." + Tail(keys[1..], value);
    if |keys| == 1 {
      LastElementAccepts(m, keys[0], value, prefix);
    } else {
      var rest := Tail(keys[2..], value);
      assert keys[1..][1..] == keys[2..];
      assert s == here + "." + keys[1] + "." + rest;
      if IsLeaf(node) || node.List? {
        ScalarsAreShort(node, here, s, keys[1], rest);
      } else {
        var j := LeafBelowChild(here, node, 0, s);
        assert node.Map? && node.entries[j] in node.entries;
        KeyOfLeaf(s, here, node.entries, j, keys[1], rest);
        LookupAt(node.entries, j);
        assert here + "." + Tail(keys[1..], value) == (here + ".") + Tail(keys[1..], value);
        assert here + "." + node.entries[j].key == (here + ".") + keys[1];
        WalkAccepts(node.entries, keys[1..], value, here + ".");
      }
    }
  }

  lemma ScalarsAreShort(node: Node, here: string, s: string, key: string, rest: string)
    requires Clean(node) && (IsLeaf(node) || node.List?) && s == here + "." + key + "." + rest
    ensures s !in Leaves(here, node)
  {
    TailAfter(s, here, key + "." + rest);
    var tail := s[|here| + 1..];
    assert tail[|key|] == '.';
    if s in Leaves(here, node) {
      if IsLeaf(node) {
        TailAfter(s, here, Render(node));
      } else {
        var j := LeafBelowChild(here, node, 0, s);
        assert node.items[j] in node.items;
        TailAfter(s, here, Render(node.items[j]));
      }
    }
  }

  /** On a clean tree no leaf path ends in a dot. */
  lemma {:induction false} LeafEndsNonEmpty(s: string, here: string, n: Node)
    requires Clean(n) && s in Leaves(here, n)
    ensures s != "" && s[|s| - 1] != '.'
    decreases n
  {
    if !IsLeaf(n) {
      var j := LeafBelowChild(here, n, 0, s);
      var c := ChildAt(here, n, j);
      if n.Map? { assert n.entries[j] in n.entries; } else { assert n.items[j] in n.items; }
      LeafEndsNonEmpty(s, c.path, c.node);
    }
  }

  /** A version with a leaf is a key of the tree, and its node is clean. */
  lemma CleanVersion(tree: Tree, key: string, path: string)
    requires (forall e :: e in tree ==> Clean(e.node)) && path in Leaves(key, Lookup(tree, key))
    ensures HasKey(tree, key) && Clean(Lookup(tree, key))
  {
    AbsentKey(tree, key);
    assert Leaves(key, Other) == [];
    var i := LookupFinds(tree, key);
    assert tree[i] in tree;
  }

  lemma CleanLeafValue(path: string, n: Node, keys: seq<string>, value: string)
    requires keys != [] && path == Tail(keys, value) && Clean(n) && path in Leaves(keys[0], n)
    ensures value != ""
  {
    LeafEndsNonEmpty(path, keys[0], n);
    if value == "" { TailEnds(keys); }
  }

  lemma LeafPathAccepted(tree: Tree, path: string, keys: seq<string>, value: string)
    requires forall e :: e in tree ==> Clean(e.node)
    requires AllFree(keys, '.') && |keys| >= 2 && '.' !in value && path == Tail(keys, value)
    requires path in Leaves(keys[0], Lookup(tree, keys[0]))
    ensures value != "" && Walk(tree, keys, value, "", false) == Valid(path)
  {
    CleanVersion(tree, keys[0], path);
    CleanLeafValue(path, Lookup(tree, keys[0]), keys, value);
    AddNothing(path);
    AddNothing(keys[0]);
    WalkAccepts(tree, keys, value, "");
  }

  lemma AddNothing(s: string)
    ensures "" + s == s
  {
  }

  lemma {:induction false} TailEnds(keys: seq<string>)
    requires keys != []
    ensures Tail(keys, "") != "" && Tail(keys, "")[|Tail(keys, "")| - 1] == '.'
  {
    if |keys| > 1 { TailEnds(keys[1..]); }
  }

  lemma TailOfSplit(pathKey: string, value: string)
    requires '.' !in value
    ensures Tail(Split(pathKey, '.'), value) == pathKey + "." + value
  {
    TailIsJoin(Split(pathKey, '.'), value);
    JoinConcat(Split(pathKey, '.'), [value], '.');
    JoinSplit(pathKey, '.');
  }

  /** The keys and the value of a label, when it has three segments or more. */
  predicate IsLong(labelString: string) { var i := LastIndex(labelString, '.'); i >= 0 && '.' in labelString[..i] }

  function KeysOf(labelString: string): (keys: seq<string>)
    requires IsLong(labelString)
    ensures keys != []
  { Split(labelString[..LastIndex(labelString, '.')], '.') }

  function ValueOf(labelString: string): string
    requires IsLong(labelString)
  { labelString[LastIndex(labelString, '.') + 1..] }

  lemma LongLabel(labelString: string)
    requires IsLong(labelString)
    ensures Tail(KeysOf(labelString), ValueOf(labelString)) == labelString
  {
    var i := LastIndex(labelString, '.');
    TailOfSplit(labelString[..i], labelString[i + 1..]);
    assert labelString == labelString[..i] + "." + labelString[i + 1..];
  }

  /** A path of three segments or more: its parts, and its first segment. */
  lemma LongPath(path: string)
    requires |Split(path, '.')| >= 3
    ensures IsLong(path) && '.' in path && |KeysOf(path)| >= 2 && AllFree(KeysOf(path), '.') && '.' !in ValueOf(path)
    ensures Split(path, '.')[0] == KeysOf(path)[0]
  {
    SplitCount(path, '.');
    SplitAtLast(path);
    SplitCount(path[..LastIndex(path, '.')], '.');
    SplitFree(path[..LastIndex(path, '.')], '.');
  }

  lemma SplitAtLast(path: string)
    requires '.' in path
    ensures var i := LastIndex(path, '.'); Split(path, '.') == Split(path[..i], '.') + [path[i + 1..]]
  {
    var i := LastIndex(path, '.');
    assert path == path[..i] + ['.'] + path[i + 1..];
    SplitConcat(path[..i], '.', path[i + 1..]);
    SplitSingle(path[i + 1..], '.');
  }

  lemma LongStrict(tree: Tree, path: string)
    requires IsLong(path) && ValueOf(path) != ""
    ensures Traverse(tree, path, false) == Walk(tree, KeysOf(path), ValueOf(path), "", false)
  {
  }

  /** A leaf path of three or more segments is accepted and returned whole. */
  lemma LongLeafPathAccepted(tree: Tree, path: string)
    requires forall e :: e in tree ==> Clean(e.node)
    requires |Split(path, '.')| >= 3 && LeafIndex(tree, path) >= 0
    ensures Traverse(tree, path, false) == Valid(path)
  {
    LongPath(path);
    LongLabel(path);
    LeafPathAccepted(tree, path, KeysOf(path), ValueOf(path));
    LongStrict(tree, path);
  }

  /** Strict validation maps a path of three or more segments to itself exactly when it is a leaf path. */
  lemma StrictAcceptsExactlyLeaves(tree: Tree, path: string)
    requires forall e :: e in tree ==> Clean(e.node)
    requires |Split(path, '.')| >= 3
    ensures Traverse(tree, path, false) == Valid(path) <==> LeafIndex(tree, path) >= 0
  {
    SplitCount(path, '.');
    if Traverse(tree, path, false) == Valid(path) { ValidatedPathHasIndex(tree, path, false); }
    if LeafIndex(tree, path) >= 0 { LongLeafPathAccepted(tree, path); }
  }

  // ----- the validated path is not always part of the label -----

  /** Whenever the walk stops early at a scalar, the label goes on with that scalar. */
  predicate ScalarsFollowLabel(m: seq<Entry>, keys: seq<string>, value: string)
    requires keys != []
    decreases |keys|
  {
    if |keys| == 1 then true
    else
      var next := Lookup(m, keys[0]);
      if next.Map? then ScalarsFollowLabel(next.entries, keys[1..], value)
      else IsLeaf(next) ==> Render(next) <= Tail(keys[1..], value)
  }

  lemma {:induction false} WalkIsPrefixExactly(m: seq<Entry>, keys: seq<string>, value: string, prefix: string)
    requires keys != [] && Walk(m, keys, value, prefix, true).Valid?
    ensures Walk(m, keys, value, prefix, true).path <= prefix + Tail(keys, value) <==> ScalarsFollowLabel(m, keys, value)
    decreases |keys|
  {
    var next, here := Lookup(m, keys[0]), prefix + keys[0];
    var full := prefix + Tail(keys, value);
    var tail := Tail(keys[1..], value);
    assert full == here + "." + tail;
    if |keys| == 1 {
      assert tail == value;
    } else if next.Map? {
      WalkIsPrefixExactly(next.entries, keys[1..], value, here + ".");
      assert here + "." + tail == (here + ".") + tail;
    } else if next.List? {
      assert full == here + "." + keys[1] + ("." + Tail(keys[1..][1..], value));
    } else {
      PrefixAfter(here + ".", Render(next), tail);
      assert here + "." + Render(next) == (here + ".") + Render(next);
    }
  }

  lemma PrefixAfter(a: string, x: string, y: string)
    ensures a + x <= a + y <==> x <= y
  {
    if x <= y { assert (a + y)[..|a + x|] == a + x; }
    if a + x <= a + y {
      assert forall i :: 0 <= i < |x| ==> x[i] == (a + x)[|a| + i] && y[i] == (a + y)[|a| + i];
    }
  }

  /** Whenever the walk stops early at a scalar, the scalar is no longer than the rest of the label. */
  predicate ScalarsFitLabel(m: seq<Entry>, keys: seq<string>, value: string)
    requires keys != []
    decreases |keys|
  {
    if |keys| == 1 then true
    else
      var next := Lookup(m, keys[0]);
      if next.Map? then ScalarsFitLabel(next.entries, keys[1..], value)
      else IsLeaf(next) ==> |Render(next)| <= |Tail(keys[1..], value)|
  }

  lemma {:induction false} WalkLengthExactly(m: seq<Entry>, keys: seq<string>, value: string, prefix: string)
    requires keys != [] && Walk(m, keys, value, prefix, true).Valid?
    ensures |Walk(m, keys, value, prefix, true).path| <= |prefix + Tail(keys, value)| <==> ScalarsFitLabel(m, keys, value)
    decreases |keys|
  {
    var next, here := Lookup(m, keys[0]), prefix + keys[0];
    if |keys| > 1 && next.Map? { WalkLengthExactly(next.entries, keys[1..], value, here + "."); }
  }

  lemma {:induction false} WalkStartsAtKey(m: seq<Entry>, keys: seq<string>, value: string, prefix: string, sub: bool)
    requires keys != [] && Walk(m, keys, value, prefix, sub).Valid?
    ensures prefix + keys[0] <= Walk(m, keys, value, prefix, sub).path
    decreases |keys|
  {
    var next, here := Lookup(m, keys[0]), prefix + keys[0];
    if |keys| > 1 && next.Map? { WalkStartsAtKey(next.entries, keys[1..], value, here + ".", sub); }
  }

  lemma LongTraverse(tree: Tree, labelString: string)
    requires Traverse(tree, labelString, true).Valid?
    ensures IsLong(labelString) ==> Traverse(tree, labelString, true) == Walk(tree, KeysOf(labelString), ValueOf(labelString), "", true)
    ensures !IsLong(labelString) ==> Traverse(tree, labelString, true) == Valid("")
  {
  }

  predicate FollowsLabel(tree: Tree, labelString: string) {
    IsLong(labelString) ==> ScalarsFollowLabel(tree, KeysOf(labelString), ValueOf(labelString))
  }

  predicate FitsLabel(tree: Tree, labelString: string) {
    IsLong(labelString) ==> ScalarsFitLabel(tree, KeysOf(labelString), ValueOf(labelString))
  }

  /** The validated sub-path is a prefix of the label exactly when no scalar on the way deviates from the label. */
  lemma SubPathIsPrefixExactly(tree: Tree, labelString: string)
    requires Traverse(tree, labelString, true).Valid?
    ensures Traverse(tree, labelString, true).path <= labelString <==> FollowsLabel(tree, labelString)
  {
    LongTraverse(tree, labelString);
    if IsLong(labelString) {
      LongLabel(labelString);
      WalkIsPrefixExactly(tree, KeysOf(labelString), ValueOf(labelString), "");
      assert "" + labelString == labelString;
    }
  }

  /** It is no longer than the label exactly when no scalar on the way is longer than the rest of the label. */
  lemma SubPathLengthExactly(tree: Tree, labelString: string)
    requires Traverse(tree, labelString, true).Valid?
    ensures |Traverse(tree, labelString, true).path| <= |labelString| <==> FitsLabel(tree, labelString)
  {
    LongTraverse(tree, labelString);
    if IsLong(labelString) {
      LongLabel(labelString);
      WalkLengthExactly(tree, KeysOf(labelString), ValueOf(labelString), "");
      assert "" + labelString == labelString;
    }
  }

  /** Text that begins with something found only at the start of s is part of s exactly when it is a prefix. */
  lemma PartIsPrefix(s: string, sub: string, head: string)
    requires head <= sub && forall i :: 0 < i <= |s| ==> !OccursAt(s, head, i)
    ensures Contains(s, sub) <==> sub <= s
  {
    if sub <= s { assert OccursAt(s, sub, 0); }
    forall i | 0 <= i <= |s| && OccursAt(s, sub, i) ensures OccursAt(s, head, i) {
      assert s[i..i + |head|] == s[i..i + |sub|][..|head|];
    }
  }

  /** Where the version that begins the label does not occur again in it, being a part of the label is being a prefix. */
  lemma SubPathIsPartExactly(tree: Tree, labelString: string)
    requires Traverse(tree, labelString, true).Valid? && IsLong(labelString)
    requires forall i :: 0 < i <= |labelString| ==> !OccursAt(labelString, KeysOf(labelString)[0], i)
    ensures Contains(labelString, Traverse(tree, labelString, true).path) <==> FollowsLabel(tree, labelString)
  {
    var found, version := Traverse(tree, labelString, true).path, KeysOf(labelString)[0];
    SubPathIsPrefixExactly(tree, labelString);
    LongTraverse(tree, labelString);
    WalkStartsAtKey(tree, KeysOf(labelString), ValueOf(labelString), "", true);
    assert "" + version == version;
    PartIsPrefix(labelString, found, version);
  }

  lemma OneKeyLabel(x: string, y: string, z: string)
    requires '.' !in y && '.' !in z && z != ""
    ensures var labelString := "v." + y + "." + z;
            && IsLong(labelString) && KeysOf(labelString) == ["v", y] && ValueOf(labelString) == z
            && Traverse([Entry("v", Str(x))], labelString, true) == Valid("v." + x)
  {
    var tree, labelString := [Entry("v", Str(x))], "v." + y + "." + z;
    var key := "v." + y;
    LastDotOf(key, z);
    assert key == "v" + ['.'] + y;
    SplitHead("v", '.', y);
    SplitSingle(y, '.');
    assert tree[0].key == "v";
    assert "" + "v" + "." + x == "v." + x;
  }

  lemma LastDotOf(key: string, value: string)
    requires '.' !in value
    ensures var s := key + "." + value; var i := LastIndex(s, '.'); i == |key| && s[..i] == key && s[i + 1..] == value
  {
    var s := key + "." + value;
    assert s[|key|] == '.';
    assert forall k :: |key| < k < |s| ==> s[k] == value[k - |key| - 1];
    assert s[|key| + 1..] == value;
  }

  lemma NotInside()
    ensures !Contains("v.y.z", "v.x")
  {
    forall i | 0 <= i <= 5 ensures !OccursAt("v.y.z", "v.x", i) {
      if i == 0 { assert "v.y.z"[0..3][2] != "v.x"[2]; }
      else if i <= 2 { assert "v.y.z"[i..i + 3][0] != "v.x"[0]; }
    }
  }

  /** The label "v.y.z" can be validated to a path that is no part of it. */
  lemma SubPathLeavesLabel()
    ensures Traverse([Entry("v", Str("x"))], "v.y.z", true) == Valid("v.x") && !Contains("v.y.z", "v.x")
  {
    NotInside();
    OneKeyLabel("x", "y", "z");
    assert "v." + "y" + "." + "z" == "v.y.z" && "v." + "x" == "v.x";
  }

  /** And to one that is longer. */
  lemma SubPathCanBeLonger()
    ensures Traverse([Entry("v", Str("long"))], "v.y.z", true) == Valid("v.long") && |"v.long"| > |"v.y.z"|
  {
    OneKeyLabel("long", "y", "z");
    assert "v." + "y" + "." + "z" == "v.y.z" && "v." + "long" == "v.long";
  }

  // ----- elements of lists -----

  /** A list has an element exactly when some item renders as it: a boolean for "true" and "false", a string otherwise. */
  lemma ListHoldsExactly(items: seq<Node>, element: string)
    ensures ListHolds(items, element) <==>
            element != "" && exists i :: 0 <= i < |items| && IsLeaf(items[i]) && Render(items[i]) == element
                                         && (items[i].Bool? <==> element == "true" || element == "false")
  {
    if ListHolds(items, element) {
      var x := if element == "true" then Bool(true) else if element == "false" then Bool(false) else Str(element);
      var i :| 0 <= i < |items| && items[i] == x;
      assert IsLeaf(items[i]) && Render(items[i]) == element;
    }
  }
}
