/** Which labels path validation accepts when sub-paths are allowed, and what it makes of them, told by the leaves of the
    tree alone (CanTraverseTree in utils/tree/tree.go, as reconcileLTPAMetadata calls it). */
module SubPaths {
  import opened Text
  import opened DecisionTree
  import opened LeafPaths
  import opened TreeTraversal

  /** The node a sequence of keys leads to from map to map; Other where there is none. */
  function NodeAt(m: seq<Entry>, keys: seq<string>): Node
    requires keys != []
    decreases |keys|
  {
    var next := Lookup(m, keys[0]);
    if |keys| == 1 then next else if next.Map? then NodeAt(next.entries, keys[1..]) else Other
  }

  /** The path is a leaf path below the first key. */
  predicate IsLeafBelow(m: seq<Entry>, key: string, prefix: string, path: string) {
    path in Leaves(prefix + key, Lookup(m, key))
  }

  /** The first k keys lead to a list that holds the next key. */
  predicate ListStop(m: seq<Entry>, keys: seq<string>, prefix: string, k: nat, r: string) {
    && 1 <= k < |keys| && NodeAt(m, keys[..k]).List?
    && r == prefix + Tail(keys[..k], keys[k]) && IsLeafBelow(m, keys[0], prefix, r)
  }

  /** The first k keys lead to a scalar. */
  predicate ScalarStop(m: seq<Entry>, keys: seq<string>, prefix: string, k: nat, r: string) {
    && 1 <= k < |keys| && IsLeaf(NodeAt(m, keys[..k]))
    && r == prefix + Tail(keys[..k], Render(NodeAt(m, keys[..k])))
  }

  ghost predicate Stops(m: seq<Entry>, keys: seq<string>, value: string, prefix: string, r: string)
    requires keys != []
  {
    || (r == prefix + Tail(keys, value) && IsLeafBelow(m, keys[0], prefix, r))
    || (exists k :: ListStop(m, keys, prefix, k, r))
    || (exists k :: ScalarStop(m, keys, prefix, k, r))
  }

  // ----- one step of the walk -----

  lemma NodeBelow(m: seq<Entry>, keys: seq<string>, k: nat)
    requires 2 <= k <= |keys|
    ensures var next := Lookup(m, keys[0]);
            NodeAt(m, keys[..k]) == if next.Map? then NodeAt(next.entries, keys[1..][..k - 1]) else Other
  {
    assert keys[..k][1..] == keys[1..][..k - 1];
  }

  lemma TailBelow(keys: seq<string>, k: nat, x: string, prefix: string)
    requires 2 <= k <= |keys|
    ensures prefix + Tail(keys[..k], x) == (prefix + keys[0] + ".") + Tail(keys[1..][..k - 1], x)
  {
    assert keys[..k][1..] == keys[1..][..k - 1];
  }

  /** Below a clean map, a leaf path that goes on with a key is a leaf path below that key. */
  lemma LeafBelowKey(m: seq<Entry>, keys: seq<string>, prefix: string, r: string, rest: string)
    requires |keys| >= 2 && AllFree(keys, '.') && Lookup(m, keys[0]).Map? && Clean(Lookup(m, keys[0]))
    requires r == prefix + keys[0] + "." + keys[1] + "." + rest
    ensures IsLeafBelow(m, keys[0], prefix, r) <==> IsLeafBelow(Lookup(m, keys[0]).entries, keys[1], prefix + keys[0] + ".", r)
  {
    var node, here := Lookup(m, keys[0]), prefix + keys[0];
    assert here + "." + keys[1] == (here + ".") + keys[1];
    if IsLeafBelow(m, keys[0], prefix, r) {
      var j := LeafBelowChild(here, node, 0, r);
      KeyOfLeaf(r, here, node.entries, j, keys[1], rest);
      LookupAt(node.entries, j);
    }
    if IsLeafBelow(node.entries, keys[1], here + ".", r) {
      AbsentKey(node.entries, keys[1]);
      assert Leaves(here + "." + keys[1], Other) == [];
      var i := LookupFinds(node.entries, keys[1]);
      ChildLeafBelow(here, node, 0, i, r);
    }
  }

  lemma ListStopBelow(m: seq<Entry>, keys: seq<string>, prefix: string, k: nat, r: string)
    requires |keys| >= 2 && AllFree(keys, '.') && Lookup(m, keys[0]).Map? && Clean(Lookup(m, keys[0])) && k >= 1
    ensures ListStop(m, keys, prefix, k + 1, r) <==> ListStop(Lookup(m, keys[0]).entries, keys[1..], prefix + keys[0] + ".", k, r)
    ensures !ListStop(m, keys, prefix, 1, r)
  {
    if k + 1 < |keys| {
      NodeBelow(m, keys, k + 1);
      TailBelow(keys, k + 1, keys[k + 1], prefix);
      var rest := Tail(keys[1..][..k][1..], keys[k + 1]);
      if r == prefix + Tail(keys[..k + 1], keys[k + 1]) {
        assert r == prefix + keys[0] + "." + keys[1] + "." + rest;
        LeafBelowKey(m, keys, prefix, r, rest);
      }
    }
  }

  lemma ScalarStopBelow(m: seq<Entry>, keys: seq<string>, prefix: string, k: nat, r: string)
    requires |keys| >= 2 && Lookup(m, keys[0]).Map? && k >= 1
    ensures ScalarStop(m, keys, prefix, k + 1, r) <==> ScalarStop(Lookup(m, keys[0]).entries, keys[1..], prefix + keys[0] + ".", k, r)
    ensures !ScalarStop(m, keys, prefix, 1, r)
  {
    if k + 1 < |keys| {
      NodeBelow(m, keys, k + 1);
      if IsLeaf(NodeAt(m, keys[..k + 1])) { TailBelow(keys, k + 1, Render(NodeAt(m, keys[..k + 1])), prefix); }
    }
  }

  lemma StopsBelow(m: seq<Entry>, keys: seq<string>, value: string, prefix: string, r: string)
    requires |keys| >= 2 && AllFree(keys, '.') && Lookup(m, keys[0]).Map? && Clean(Lookup(m, keys[0]))
    ensures Stops(m, keys, value, prefix, r) <==> Stops(Lookup(m, keys[0]).entries, keys[1..], value, prefix + keys[0] + ".", r)
  {
    var below, here := Lookup(m, keys[0]).entries, prefix + keys[0] + ".";
    assert prefix + Tail(keys, value) == here + Tail(keys[1..], value);
    if r == prefix + Tail(keys, value) {
      assert r == prefix + keys[0] + "." + keys[1] + "." + Tail(keys[1..][1..], value);
      LeafBelowKey(m, keys, prefix, r, Tail(keys[1..][1..], value));
    }
    forall k: nat | k >= 1
      ensures ListStop(m, keys, prefix, k + 1, r) <==> ListStop(below, keys[1..], here, k, r)
      ensures ScalarStop(m, keys, prefix, k + 1, r) <==> ScalarStop(below, keys[1..], here, k, r)
      ensures !ListStop(m, keys, prefix, 1, r) && !ScalarStop(m, keys, prefix, 1, r)
    {
      ListStopBelow(m, keys, prefix, k, r);
      ScalarStopBelow(m, keys, prefix, k, r);
    }
    assert forall k: nat :: ListStop(m, keys, prefix, k, r) ==> k >= 2 && ListStop(below, keys[1..], here, k - 1, r);
    assert forall k: nat :: ScalarStop(m, keys, prefix, k, r) ==> k >= 2 && ScalarStop(below, keys[1..], here, k - 1, r);
  }

  /** Below something that is not a map no keys lead anywhere. */
  lemma NothingBelow(m: seq<Entry>, keys: seq<string>, prefix: string, r: string)
    requires |keys| >= 2 && !Lookup(m, keys[0]).Map?
    ensures forall k :: k >= 2 ==> !ListStop(m, keys, prefix, k, r) && !ScalarStop(m, keys, prefix, k, r)
  {
    forall k: nat | 2 <= k < |keys| ensures NodeAt(m, keys[..k]) == Other { NodeBelow(m, keys, k); }
  }

  lemma LastIsLeaf(m: seq<Entry>, key: string, value: string, prefix: string, r: string)
    requires Clean(Lookup(m, key)) && '.' !in value
    ensures LastElement(m, key, value, prefix) == Valid(r)
            <==> r == prefix + key + "." + value && IsLeafBelow(m, key, prefix, r)
  {
    AbsentKey(m, key);
    assert Leaves(prefix + key, Other) == [];
    if LastElement(m, key, value, prefix) == Valid(r) {
      assert [key][0] == key && Walk(m, [key], value, prefix, true) == LastElement(m, key, value, prefix);
      WalkFindsLeaf(m, [key], value, prefix, true);
    } else if r == prefix + key + "." + value && IsLeafBelow(m, key, prefix, r) {
      LastElementAccepts(m, key, value, prefix);
    }
  }

  lemma FirstStop(m: seq<Entry>, keys: seq<string>, prefix: string, r: string)
    requires |keys| >= 2
    ensures ListStop(m, keys, prefix, 1, r) <==>
            Lookup(m, keys[0]).List? && r == prefix + keys[0] + "." + keys[1] && IsLeafBelow(m, keys[0], prefix, r)
    ensures ScalarStop(m, keys, prefix, 1, r) <==>
            IsLeaf(Lookup(m, keys[0])) && r == prefix + keys[0] + "." + Render(Lookup(m, keys[0]))
  {
    assert keys[..1] == [keys[0]];
    assert NodeAt(m, keys[..1]) == Lookup(m, keys[0]);
    assert Tail([keys[0]], keys[1]) == keys[0] + "." + keys[1];
    assert prefix + (keys[0] + "." + keys[1]) == prefix + keys[0] + "." + keys[1];
    if IsLeaf(Lookup(m, keys[0])) {
      var x := Render(Lookup(m, keys[0]));
      assert Tail([keys[0]], x) == keys[0] + "." + x;
      assert prefix + (keys[0] + "." + x) == prefix + keys[0] + "." + x;
    }
  }

  /** The walk stops at something that is not a map. */
  lemma StopsHere(m: seq<Entry>, keys: seq<string>, value: string, prefix: string, r: string)
    requires |keys| >= 2 && AllFree(keys, '.') && !Lookup(m, keys[0]).Map? && Clean(Lookup(m, keys[0]))
    ensures SubPath(Lookup(m, keys[0]), prefix + keys[0], keys[1]) == Valid(r) <==> Stops(m, keys, value, prefix, r)
  {
    var node, here := Lookup(m, keys[0]), prefix + keys[0];
    NothingBelow(m, keys, prefix, r);
    FirstStop(m, keys, prefix, r);
    WholeIsDeeper(m, keys, value, prefix);
    if node.List? { LastIsLeaf(m, keys[0], keys[1], prefix, r); }
  }

  lemma WholeIsDeeper(m: seq<Entry>, keys: seq<string>, value: string, prefix: string)
    requires |keys| >= 2 && !Lookup(m, keys[0]).Map? && Clean(Lookup(m, keys[0]))
    ensures !IsLeafBelow(m, keys[0], prefix, prefix + Tail(keys, value))
  {
    var node, here := Lookup(m, keys[0]), prefix + keys[0];
    var rest := Tail(keys[1..][1..], value);
    assert prefix + Tail(keys, value) == here + "." + keys[1] + "." + rest;
    if IsLeaf(node) || node.List? {
      ScalarsAreShort(node, here, prefix + Tail(keys, value), keys[1], rest);
    }
  }

  lemma {:induction false} WalkStops(m: seq<Entry>, keys: seq<string>, value: string, prefix: string, r: string)
    requires keys != [] && AllFree(keys, '.') && '.' !in value && Clean(Lookup(m, keys[0]))
    ensures Walk(m, keys, value, prefix, true) == Valid(r) <==> Stops(m, keys, value, prefix, r)
    decreases |keys|
  {
    var next := Lookup(m, keys[0]);
    if |keys| == 1 {
      LastIsLeaf(m, keys[0], value, prefix, r);
      assert prefix + Tail(keys, value) == prefix + keys[0] + "." + value;
    } else {
      AbsentKey(m, keys[0]);
      if next.Map? {
        StopsBelow(m, keys, value, prefix, r);
        NextIsClean(next.entries, keys[1]);
        WalkStops(next.entries, keys[1..], value, prefix + keys[0] + ".", r);
      } else {
        StopsHere(m, keys, value, prefix, r);
      }
    }
  }

  lemma NextIsClean(m: seq<Entry>, key: string)
    requires Clean(Map(m))
    ensures Clean(Lookup(m, key))
  {
    AbsentKey(m, key);
    if HasKey(m, key) {
      var i := LookupFinds(m, key);
      assert m[i] in m;
    }
  }

  // ----- the labels of three segments or more -----

  /** Some keys of the label lead to a list, and with the next key make a leaf path: the validated path. */
  predicate EndsInList(tree: Tree, keys: seq<string>, k: nat, r: string) {
    1 <= k < |keys| && NodeAt(tree, keys[..k]).List? && r == Join(keys[..k + 1], '.') && LeafIndex(tree, r) >= 0
  }

  /** Some keys of the label lead to a scalar: with that scalar, whatever the label goes on with, the validated path. */
  predicate EndsInScalar(tree: Tree, keys: seq<string>, k: nat, r: string) {
    1 <= k < |keys| && IsLeaf(NodeAt(tree, keys[..k])) && r == Join(keys[..k], '.') + "." + Render(NodeAt(tree, keys[..k]))
  }

  lemma LeafBelowIndex(tree: Tree, key: string, r: string, rest: string)
    requires '.' !in key && r == key + "." + rest
    ensures IsLeafBelow(tree, key, "", r) <==> LeafIndex(tree, r) >= 0
  {
    assert "" + key == key;
    assert r == key + ['.'] + rest;
    SplitHead(key, '.', rest);
  }

  lemma EndsAreStops(tree: Tree, keys: seq<string>, k: nat, r: string)
    requires keys != [] && AllFree(keys, '.')
    ensures EndsInList(tree, keys, k, r) <==> ListStop(tree, keys, "", k, r)
    ensures EndsInScalar(tree, keys, k, r) <==> ScalarStop(tree, keys, "", k, r)
  {
    if 1 <= k < |keys| {
      TailIsJoin(keys[..k], keys[k]);
      assert keys[..k] + [keys[k]] == keys[..k + 1];
      assert "" + Tail(keys[..k], keys[k]) == Tail(keys[..k], keys[k]);
      LeafBelowIndex(tree, keys[0], Tail(keys[..k], keys[k]), Tail(keys[..k][1..], keys[k]));
      if IsLeaf(NodeAt(tree, keys[..k])) { ScalarTail(keys[..k], Render(NodeAt(tree, keys[..k]))); }
    }
  }

  lemma ScalarTail(keys: seq<string>, x: string)
    requires keys != []
    ensures "" + Tail(keys, x) == Join(keys, '.') + "." + x
  {
    TailIsJoin(keys, x);
    JoinConcat(keys, [x], '.');
  }

  /** With sub-paths allowed, a label is validated to r exactly when it does not end in a dot and r is the label, a leaf
      path; or r is its beginning up to an element of a list; or r is its beginning up to a scalar, and that scalar. */
  lemma SubPathsExactly(tree: Tree, labelString: string, r: string)
    requires forall e :: e in tree ==> Clean(e.node)
    requires |Split(labelString, '.')| >= 3 && IsLong(labelString)
    ensures var keys := KeysOf(labelString);
            Traverse(tree, labelString, true) == Valid(r)
            <==> ValueOf(labelString) != ""
                 && ((r == labelString && LeafIndex(tree, labelString) >= 0)
                     || (exists k :: EndsInList(tree, keys, k, r)) || (exists k :: EndsInScalar(tree, keys, k, r)))
  {
    LongPath(labelString);
    LongLabel(labelString);
    var keys, value := KeysOf(labelString), ValueOf(labelString);
    if value != "" {
      KeyIsClean(tree, keys[0]);
      WalkStops(tree, keys, value, "", r);
      AddNothing(labelString);
      LeafBelowIndex(tree, keys[0], labelString, Tail(keys[1..], value));
      forall k: nat
        ensures EndsInList(tree, keys, k, r) <==> ListStop(tree, keys, "", k, r)
        ensures EndsInScalar(tree, keys, k, r) <==> ScalarStop(tree, keys, "", k, r)
      {
        EndsAreStops(tree, keys, k, r);
      }
      LongSub(tree, labelString);
    }
  }

  lemma LongSub(tree: Tree, labelString: string)
    requires IsLong(labelString) && ValueOf(labelString) != ""
    ensures Traverse(tree, labelString, true) == Walk(tree, KeysOf(labelString), ValueOf(labelString), "", true)
  {
  }

  lemma KeyIsClean(tree: Tree, key: string)
    requires forall e :: e in tree ==> Clean(e.node)
    ensures Clean(Lookup(tree, key))
  {
    AbsentKey(tree, key);
    if HasKey(tree, key) {
      var i := LookupFinds(tree, key);
      assert tree[i] in tree;
    }
  }

  /** So a label that is a leaf path is validated to itself. */
  lemma LeafLabelIsValid(tree: Tree, labelString: string)
    requires (forall e :: e in tree ==> Clean(e.node)) && |Split(labelString, '.')| >= 3 && LeafIndex(tree, labelString) >= 0
    ensures Traverse(tree, labelString, true) == Valid(labelString)
  {
    LongPath(labelString);
    LongLeafPathAccepted(tree, labelString);
    SubPathsExactly(tree, labelString, labelString);
  }

  /** Shorter paths, sub-paths allowed or not: only the empty one and a version with a value pass, and nothing of them is
      validated. */
  lemma ShortPathsExactly(tree: Tree, path: string, allowSubPaths: bool)
    requires |Split(path, '.')| <= 2
    ensures var parts := Split(path, '.');
            Traverse(tree, path, allowSubPaths)
            == if path == "" || (|parts| == 2 && parts[1] != "" && HasKey(tree, parts[0])) then Valid("") else Invalid
  {
    SplitCount(path, '.');
    if '.' in path {
      var i := LastIndex(path, '.');
      SplitAtLast(path);
      SplitCount(path[..i], '.');
      SplitSingle(path[..i], '.');
    }
  }
}
