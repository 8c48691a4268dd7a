/** Validation of a decision tree together with its replace maps (ValidateMaps in utils/tree/tree.go), and how much of
    what the migration needs it guarantees. */
module MapValidation {
  import opened Text
  import opened OperandVersion
  import opened DecisionTree
  import opened LeafPaths
  import opened TreeTraversal
  import opened Migration
  import opened MigrationLaws

  predicate Traversable(tree: Tree, path: string) { Traverse(tree, path, false).Valid? }

  predicate LabelsOk(tree: Tree, labels: map<string, string>) {
    forall p :: p in labels ==> Traversable(tree, p) && Traversable(tree, labels[p])
  }

  predicate Accepted(tree: Tree, replace: ReplaceMap) {
    && (forall i :: 0 <= i < |tree| ==> PathAt(tree, tree[i].key, 0).Some?)
    && (forall v :: v in replace ==> HasKey(tree, v))
    && (forall v :: v in replace ==> LabelsOk(tree, replace[v]))
  }

  method ValidateLabels(tree: Tree, labels: map<string, string>) returns (ok: bool)
    ensures ok == LabelsOk(tree, labels)
  {
    var keys := labels.Keys;
    while keys != {}
      invariant keys <= labels.Keys
      invariant forall p :: p in labels && p !in keys ==> Traversable(tree, p) && Traversable(tree, labels[p])
    {
      var k :| k in keys;
      var left := CanTraverseTree(tree, k, false);
      if left.Invalid? { return false; }
      var right := CanTraverseTree(tree, labels[k], false);
      if right.Invalid? { return false; }
      keys := keys - {k};
    }
    ok := true;
  }

  /** Go visits the versions and labels in any order; the answer does not depend on it. */
  method ValidateMaps(tree: Tree, replace: ReplaceMap) returns (ok: bool)
    ensures ok == Accepted(tree, replace)
  {
    for i := 0 to |tree|
      invariant forall j :: 0 <= j < i ==> PathAt(tree, tree[j].key, 0).Some?
    {
      var leaf := GetPathFromLeafIndex(tree, tree[i].key, 0);
      if leaf.None? { return false; }
    }
    var versions := replace.Keys;
    while versions != {}
      invariant versions <= replace.Keys
      invariant forall v :: v in replace && v !in versions ==> HasKey(tree, v)
    {
      var v :| v in versions;
      if !HasKey(tree, v) { return false; }
      versions := versions - {v};
    }
    var keys := replace.Keys;
    while keys != {}
      invariant keys <= replace.Keys
      invariant forall v :: v in replace && v !in keys ==> LabelsOk(tree, replace[v])
    {
      var v :| v in keys;
      var fine := ValidateLabels(tree, replace[v]);
      if !fine { return false; }
      keys := keys - {v};
    }
    ok := true;
  }

  // ----- what strict traversal says about a path -----

  lemma {:induction false} StrictWalkReturnsPath(m: seq<Entry>, keys: seq<string>, value: string, prefix: string)
    requires keys != [] && Walk(m, keys, value, prefix, false).Valid?
    ensures Walk(m, keys, value, prefix, false).path == prefix + Tail(keys, value) && HasKey(m, keys[0])
    decreases |keys|
  {
    if |keys| > 1 {
      StrictWalkReturnsPath(Lookup(m, keys[0]).entries, keys[1..], value, prefix + keys[0] + ".");
    }
  }

  /** A strictly traversable path is empty, or its first segment is a version of the tree; with three segments or more it
      is returned whole, and has a leaf index. */
  lemma TraversableMeans(tree: Tree, path: string)
    requires Traversable(tree, path) && path != ""
    ensures HasKey(tree, VersionOf(path))
    ensures |Split(path, '.')| >= 3 ==> Traverse(tree, path, false) == Valid(path) && LeafIndex(tree, path) >= 0
  {
    var dotLoc := LastIndex(path, '.');
    var pathKey, value := path[..dotLoc], path[dotLoc + 1..];
    assert path == pathKey + "." + value;
    SplitConcat(pathKey, '.', value);
    SplitSingle(value, '.');
    SplitCount(pathKey, '.');
    if '.' !in pathKey {
      SplitSingle(pathKey, '.');
    } else {
      StrictWalkReturnsPath(tree, Split(pathKey, '.'), value, "");
      TailOfSplit(pathKey, value);
      ValidatedPathHasIndex(tree, path, false);
    }
  }

  // ----- what validation gives the migration -----

  /** Both ends of every entry satisfy f. */
  ghost predicate Entries(replace: ReplaceMap, f: string -> bool) {
    forall v, p {:trigger Filed(replace, v, p)} :: Filed(replace, v, p) ==> f(p) && f(replace[v][p])
  }

  lemma EndsTraversable(tree: Tree, replace: ReplaceMap, v: string, p: string)
    requires Accepted(tree, replace) && Filed(replace, v, p)
    ensures Traversable(tree, p) && Traversable(tree, replace[v][p])
  {
    assert LabelsOk(tree, replace[v]);
  }

  lemma TraversableShape(tree: Tree, path: string)
    requires forall i :: 0 <= i < |tree| ==> IsOperandVersionString(tree[i].key)
    requires Traversable(tree, path)
    ensures ThreeParts(VersionOf(path)) <==> path != ""
  {
    if path == "" {
      assert VersionOf(path) == "";
    } else {
      TraversableMeans(tree, path);
      var i :| 0 <= i < |tree| && tree[i].key == VersionOf(path);
      OperandVersionStringHasThreeParts(tree[i].key);
    }
  }

  /** For a tree of version keys, accepted replace maps let every version comparison of the migration go through exactly
      when no entry starts or ends at the empty path, which validation lets pass. */
  lemma AcceptedIsShapedExactly(tree: Tree, replace: ReplaceMap)
    requires forall i :: 0 <= i < |tree| ==> IsOperandVersionString(tree[i].key)
    requires Accepted(tree, replace)
    ensures Shaped(replace) <==> Entries(replace, p => p != "")
  {
    forall v | v in replace ensures ThreeParts(v) {
      var i :| 0 <= i < |tree| && tree[i].key == v;
      OperandVersionStringHasThreeParts(v);
    }
    forall v, p | Filed(replace, v, p)
      ensures ThreeParts(VersionOf(p)) && ThreeParts(VersionOf(replace[v][p])) <==> p != "" && replace[v][p] != ""
    {
      EndsTraversable(tree, replace, v, p);
      TraversableShape(tree, p);
      TraversableShape(tree, replace[v][p]);
    }
  }

  // ----- which ends are leaf paths -----

  /** The value of a version without keys: a scalar that renders it, or a list that holds such a scalar. */
  predicate HoldsValue(n: Node, value: string) {
    match n
    case List(items) => exists x :: x in items && HoldsValue(x, value)
    case Bool(_) | Str(_) => Render(n) == value
    case _ => false
  }

  lemma {:induction false} OneValueLeaf(path: string, n: Node, value: string)
    requires '.' !in value
    ensures path + "." + value in Leaves(path, n) <==> HoldsValue(n, value)
    decreases n
  {
    var s := path + "." + value;
    match n
    case List(items) =>
      if s in Leaves(path, n) {
        var j := LeafBelowChild(path, n, 0, s);
        OneValueLeaf(path, items[j], value);
      }
      if HoldsValue(n, value) {
        var x :| x in items && HoldsValue(x, value);
        var j :| 0 <= j < |items| && items[j] == x;
        OneValueLeaf(path, items[j], value);
        ChildLeafBelow(path, n, 0, j, s);
      }
    case Map(entries) =>
      if s in Leaves(path, n) {
        var j := LeafBelowChild(path, n, 0, s);
        NoKeyAbove(path, entries[j].key, entries[j].node, value);
      }
    case Bool(_) => SameEnd(path, Render(n), value);
    case Str(_) => SameEnd(path, Render(n), value);
    case Other =>
  }

  lemma SameEnd(path: string, a: string, b: string)
    ensures path + "." + a == path + "." + b <==> a == b
  {
    assert (path + "." + a)[|path| + 1..] == a && (path + "." + b)[|path| + 1..] == b;
  }

  /** Below a key the path is longer than one dot-free value. */
  lemma NoKeyAbove(path: string, key: string, n: Node, value: string)
    requires '.' !in value
    ensures path + "." + value !in Leaves(path + "." + key, n)
  {
    var s, here := path + "." + value, path + "." + key;
    assert forall k :: |path| < k < |s| ==> s[k] == value[k - |path| - 1];
    if s in Leaves(here, n) { LeavesUnder(here, n, s); }
  }

  /** The end of an entry has three segments or more, or is a value of its version. */
  predicate EndsAtLeaf(tree: Tree, p: string) {
    '.' in p && (|Split(p, '.')| >= 3 || HoldsValue(Lookup(tree, VersionOf(p)), p[LastIndex(p, '.') + 1..]))
  }

  lemma TraversableLeaf(tree: Tree, p: string)
    requires Traversable(tree, p)
    ensures '.' in p && LeafIndex(tree, p) >= 0 <==> EndsAtLeaf(tree, p)
  {
    if '.' in p {
      TraversableMeans(tree, p);
      if |Split(p, '.')| < 3 { TwoSegments(tree, p); }
    }
  }

  lemma TwoSegments(tree: Tree, p: string)
    requires '.' in p && |Split(p, '.')| < 3
    ensures VersionOf(p) == p[..LastIndex(p, '.')]
    ensures LeafIndex(tree, p) >= 0 <==> HoldsValue(Lookup(tree, VersionOf(p)), p[LastIndex(p, '.') + 1..])
  {
    var i := LastIndex(p, '.');
    var version, value := p[..i], p[i + 1..];
    assert p == version + "." + value && p == version + ['.'] + value;
    SplitConcat(version, '.', value);
    SplitSingle(value, '.');
    SplitCount(version, '.');
    SplitSingle(version, '.');
    OneValueLeaf(version, Lookup(tree, version), value);
  }

  /** The ends of accepted entries are leaf paths exactly when each has three segments or more or is a value of its
      version, such as the one that the keys of old operators are filed under. */
  lemma AcceptedEntriesAreLeaves(tree: Tree, replace: ReplaceMap)
    requires Accepted(tree, replace)
    ensures Entries(replace, p => '.' in p && LeafIndex(tree, p) >= 0) <==> Entries(replace, p => EndsAtLeaf(tree, p))
  {
    forall v, p | Filed(replace, v, p)
      ensures '.' in p && LeafIndex(tree, p) >= 0 <==> EndsAtLeaf(tree, p)
      ensures '.' in replace[v][p] && LeafIndex(tree, replace[v][p]) >= 0 <==> EndsAtLeaf(tree, replace[v][p])
    {
      EndsTraversable(tree, replace, v, p);
      TraversableLeaf(tree, p);
      TraversableLeaf(tree, replace[v][p]);
    }
  }

  /** With two segments they need not be: any value after a version is accepted, a value of that version or not. */
  lemma TwoSegmentsAlwaysPass(tree: Tree, version: string, value: string)
    requires HasKey(tree, version) && '.' !in version && '.' !in value && value != ""
    ensures Traversable(tree, version + "." + value)
    ensures LeafIndex(tree, version + "." + value) >= 0 <==> HoldsValue(Lookup(tree, version), value)
  {
    LastDotOf(version, value);
    var path := version + "." + value;
    assert path == version + ['.'] + value;
    SplitHead(version, '.', value);
    SplitSingle(value, '.');
    TwoSegments(tree, path);
  }

  // ----- accepted maps and panics -----

  lemma AcceptedIsLoose(tree: Tree, replace: ReplaceMap)
    requires forall i :: 0 <= i < |tree| ==> IsOperandVersionString(tree[i].key)
    requires Accepted(tree, replace)
    ensures Loose(replace)
  {
    forall v | v in replace ensures ThreeParts(v) {
      var i :| 0 <= i < |tree| && tree[i].key == v;
      OperandVersionStringHasThreeParts(v);
    }
    forall v, p | Filed(replace, v, p) ensures LooseVersion(VersionOf(p)) && (VersionOf(p) == "" <==> p == "") {
      EndsTraversable(tree, replace, v, p);
      TraversableShape(tree, p);
    }
  }

  /** On accepted maps over a tree of version keys, a downgrade can panic exactly when entries lead back from the path to
      one with an empty start, or when no tree version is at or below the target and an older entry leads to the path. */
  lemma AcceptedPanicsExactly(tree: Tree, replace: ReplaceMap, path: string, target: string, keys: set<string>, order: seq<string>)
    requires (forall i :: 0 <= i < |tree| ==> IsOperandVersionString(tree[i].key)) && Accepted(tree, replace)
    requires Keyed(replace) && SortedKeys(replace, order)
    requires IsValidOperandVersion(VersionOf(path)) && IsValidOperandVersion(target) && Older(target, VersionOf(path))
    ensures Migrates(path, target, keys, replace, order, Panicked)
            <==> exists latest :: IsLatest(keys, target, latest) && ReachesPanic(replace, latest, path)
  {
    AcceptedIsLoose(tree, replace);
    DowngradePanicsExactly(path, target, keys, replace, order);
  }

  /** A replace map with one more entry, from the empty path to p. */
  function WithEmptyStart(replace: ReplaceMap, p: string): ReplaceMap {
    var v := VersionOf(p);
    replace[v := (if v in replace then replace[v] else map[])["" := p]]
  }

  /** Such an entry can be added to any accepted map without being noticed, and then every downgrade of the path panics,
      whether or not there is a tree version at or below the target. */
  lemma EmptyStartIsAccepted(tree: Tree, replace: ReplaceMap, p: string, target: string, keys: set<string>, order: seq<string>, r: Outcome)
    requires (forall i :: 0 <= i < |tree| ==> IsOperandVersionString(tree[i].key)) && Accepted(tree, replace)
    requires Traversable(tree, p) && p != "" && forall q :: !Matches(replace, p, q)
    requires IsValidOperandVersion(VersionOf(p)) && IsValidOperandVersion(target) && Older(target, VersionOf(p))
    ensures Accepted(tree, WithEmptyStart(replace, p)) && Loose(WithEmptyStart(replace, p))
    ensures SortedKeys(WithEmptyStart(replace, p), order) && Migrates(p, target, keys, WithEmptyStart(replace, p), order, r) ==> r == Panicked
  {
    var more := WithEmptyStart(replace, p);
    EmptyStartPasses(tree, replace, p);
    OnlyEmptyMatches(replace, p);
    if SortedKeys(more, order) && Migrates(p, target, keys, more, order, r) { EmptyStartPanics(p, target, keys, more, order, r); }
  }

  lemma OnlyEmptyMatches(replace: ReplaceMap, p: string)
    requires forall q :: !Matches(replace, p, q)
    ensures Matches(WithEmptyStart(replace, p), p, "") && VersionOf("") == ""
    ensures forall q :: Matches(WithEmptyStart(replace, p), p, q) ==> VersionOf(q) == ""
  {
    var more := WithEmptyStart(replace, p);
    forall q | Matches(more, p, q) ensures VersionOf(q) == "" {
      assert q != "" ==> (Matches(more, p, q) <==> Matches(replace, p, q));
    }
  }

  lemma EmptyStartPasses(tree: Tree, replace: ReplaceMap, p: string)
    requires (forall i :: 0 <= i < |tree| ==> IsOperandVersionString(tree[i].key)) && Accepted(tree, replace)
    requires Traversable(tree, p) && p != ""
    ensures Accepted(tree, WithEmptyStart(replace, p)) && Loose(WithEmptyStart(replace, p))
  {
    var more := WithEmptyStart(replace, p);
    TraversableMeans(tree, p);
    forall v | v in more ensures HasKey(tree, v) && LabelsOk(tree, more[v]) {
      if v in replace { assert LabelsOk(tree, replace[v]); }
    }
    AcceptedIsLoose(tree, more);
  }

  // ----- what is accepted -----

  /** A tree and its replace maps are accepted exactly when every version of the tree has a leaf, every replace version is one
      of the tree, and both ends of every entry traverse the tree. */
  lemma AcceptedExactly(tree: Tree, replace: ReplaceMap)
    ensures Accepted(tree, replace) <==>
            && (forall i :: 0 <= i < |tree| ==> VersionLeaves(tree, tree[i].key) != [])
            && (forall v :: v in replace ==> HasKey(tree, v))
            && Entries(replace, p => Traverse(tree, p, false).Valid?)
  {
    if Accepted(tree, replace) {
      forall v, p {:trigger Filed(replace, v, p)} | Filed(replace, v, p)
        ensures Traversable(tree, p) && Traversable(tree, replace[v][p])
      {
        EndsTraversable(tree, replace, v, p);
      }
    }
    if Entries(replace, p => Traverse(tree, p, false).Valid?) {
      forall v | v in replace ensures LabelsOk(tree, replace[v]) {
        forall p | p in replace[v] ensures Traversable(tree, p) && Traversable(tree, replace[v][p]) { assert Filed(replace, v, p); }
      }
    }
  }
}
