/** Leaf paths and leaf indices are inverse to each other (GetLeafIndex and GetPathFromLeafIndex). */
module LeafPaths {
  import opened Text
  import opened DecisionTree

  // ----- where leaf paths start -----

  /** The string extends `path` by a dot and more. */
  predicate Under(s: string, path: string) {
    |s| > |path| && s[..|path|] == path && s[|path|] == '.'
  }

  lemma UnderSplit(s: string, path: string)
    requires Under(s, path)
    ensures s == path + ['.'] + s[|path| + 1..]
  {
  }

  lemma UnderShorter(s: string, path: string, key: string)
    requires Under(s, path + "." + key)
    ensures Under(s, path)
  {
    var longer := path + "." + key;
    assert s[..|path|] == longer[..|path|] == path;
    assert s[|path|] == longer[|path|];
  }

  lemma UnderOneKey(s: string, path: string, k: string, l: string)
    requires '.' !in k && '.' !in l
    requires Under(s, path + "." + k) && Under(s, path + "." + l)
    ensures k == l
  {
    UnderSplit(s, path + "." + k);
    UnderSplit(s, path + "." + l);
    var tail := s[|path| + 1..];
    assert tail == k + ['.'] + s[|path + "." + k| + 1..];
    assert tail == l + ['.'] + s[|path + "." + l| + 1..];
    HeadsAgree(k, s[|path + "." + k| + 1..], l, s[|path + "." + l| + 1..], '.');
  }

  lemma {:induction false} LeavesUnder(path: string, n: Node, s: string)
    requires s in Leaves(path, n)
    ensures Under(s, path)
    decreases n
  {
    if !IsLeaf(n) { LeavesFromUnder(path, n, 0, s); }
  }

  lemma {:induction false} LeavesFromUnder(path: string, n: Node, i: nat, s: string)
    requires i <= Arity(n) && s in LeavesFrom(path, n, i)
    ensures Under(s, path)
    decreases n, Arity(n) - i
  {
    var c := ChildAt(path, n, i);
    if s in Leaves(c.path, c.node) {
      LeavesUnder(c.path, c.node, s);
      if n.Map? { UnderShorter(s, path, n.entries[i].key); }
    } else {
      LeavesFromUnder(path, n, i + 1, s);
    }
  }

  /** A leaf below an inner node is a leaf below one of its children. */
  lemma {:induction false} LeafBelowChild(path: string, n: Node, i: nat, s: string) returns (j: nat)
    requires i <= Arity(n) && s in LeavesFrom(path, n, i)
    ensures i <= j < Arity(n) && s in Leaves(ChildAt(path, n, j).path, ChildAt(path, n, j).node)
    decreases Arity(n) - i
  {
    var c := ChildAt(path, n, i);
    if s in Leaves(c.path, c.node) {
      j := i;
    } else {
      j := LeafBelowChild(path, n, i + 1, s);
    }
  }

  lemma {:induction false} ChildLeafBelow(path: string, n: Node, i: nat, j: nat, s: string)
    requires i <= j < Arity(n) && s in Leaves(ChildAt(path, n, j).path, ChildAt(path, n, j).node)
    ensures s in LeavesFrom(path, n, i)
    decreases j - i
  {
    if i < j { ChildLeafBelow(path, n, i + 1, j, s); }
  }

  // ----- trees whose leaf paths are all different -----

  predicate NoDuplicates(s: seq<string>) {
    forall i, j :: 0 <= i < j < |s| ==> s[i] != s[j]
  }

  /** Keys are dot-free and listed once, and a list holds scalars that render differently. */
  predicate Unambiguous(n: Node) {
    match n
    case Map(entries) =>
      KeysAscend(entries) && forall e :: e in entries ==> '.' !in e.key && Unambiguous(e.node)
    case List(items) =>
      && (forall i :: 0 <= i < |items| ==> IsLeaf(items[i]))
      && (forall i, j :: 0 <= i < j < |items| ==> Render(items[i]) != Render(items[j]))
    case _ => true
  }

  lemma {:induction false} LeavesDistinct(path: string, n: Node)
    requires Unambiguous(n)
    ensures NoDuplicates(Leaves(path, n))
    decreases n
  {
    if !IsLeaf(n) { LeavesFromDistinct(path, n, 0); }
  }

  lemma {:induction false} LeavesFromDistinct(path: string, n: Node, i: nat)
    requires Unambiguous(n) && !IsLeaf(n) && i <= Arity(n)
    ensures NoDuplicates(LeavesFrom(path, n, i))
    decreases n, Arity(n) - i
  {
    if i < Arity(n) {
      var c := ChildAt(path, n, i);
      var first, rest := Leaves(c.path, c.node), LeavesFrom(path, n, i + 1);
      if n.Map? { assert n.entries[i] in n.entries; } else { assert n.List?; }
      LeavesDistinct(c.path, c.node);
      LeavesFromDistinct(path, n, i + 1);
      forall s | s in first ensures s !in rest {
        SiblingsDisjoint(path, n, i, s);
      }
      DistinctConcat(first, rest);
    }
  }

  lemma SiblingsDisjoint(path: string, n: Node, i: nat, s: string)
    requires Unambiguous(n) && i < Arity(n)
    requires s in Leaves(ChildAt(path, n, i).path, ChildAt(path, n, i).node)
    ensures s !in LeavesFrom(path, n, i + 1)
  {
    if s in LeavesFrom(path, n, i + 1) {
      var j := LeafBelowChild(path, n, i + 1, s);
      ChildrenDiffer(path, n, i, j, s);
    }
  }

  lemma ChildrenDiffer(path: string, n: Node, i: nat, j: nat, s: string)
    requires Unambiguous(n) && i < j < Arity(n)
    requires s in Leaves(ChildAt(path, n, i).path, ChildAt(path, n, i).node)
    ensures s !in Leaves(ChildAt(path, n, j).path, ChildAt(path, n, j).node)
  {
    var c, d := ChildAt(path, n, i), ChildAt(path, n, j);
    LeavesUnder(c.path, c.node, s);
    if s in Leaves(d.path, d.node) {
      match n
      case Map(entries) =>
        assert entries[i] in entries && entries[j] in entries;
        LeavesUnder(d.path, d.node, s);
        UnderOneKey(s, path, entries[i].key, entries[j].key);
      case List(items) =>
        var x, y := Render(items[i]), Render(items[j]);
        TailAfter(s, path, x);
        TailAfter(s, path, y);
    }
  }

  lemma TailAfter(s: string, path: string, x: string)
    requires s == path + "." + x
    ensures s[|path| + 1..] == x
  {
  }

  lemma DistinctConcat(a: seq<string>, b: seq<string>)
    requires NoDuplicates(a) && NoDuplicates(b)
    requires forall s :: s in a ==> s !in b
    ensures NoDuplicates(a + b)
  {
    forall i, j | 0 <= i < j < |a + b| ensures (a + b)[i] != (a + b)[j] {
      if i < |a| <= j { assert a[i] in a && b[j - |a|] in b; }
    }
  }

  // ----- the two laws -----

  lemma FirstSegment(s: string, version: string)
    requires '.' !in version && Under(s, version)
    ensures Split(s, '.')[0] == version && '.' in s
  {
    UnderSplit(s, version);
    SplitHead(version, '.', s[|version| + 1..]);
  }

  /** An index found for a dotted path leads back to the path. */
  lemma IndexThenPath(tree: Tree, path: string)
    requires '.' in path && LeafIndex(tree, path) >= 0
    ensures PathAt(tree, Split(path, '.')[0], LeafIndex(tree, path)) == Some(path)
  {
  }

  /** A path found for an index leads back to the first index with that path. */
  lemma PathThenFirstIndex(tree: Tree, version: string, i: nat)
    requires '.' !in version && PathAt(tree, version, i).Some?
    ensures var path := PathAt(tree, version, i).value;
            && 0 <= LeafIndex(tree, path) <= i
            && PathAt(tree, version, LeafIndex(tree, path)) == Some(path)
  {
    var leaves := VersionLeaves(tree, version);
    LeavesUnder(version, Lookup(tree, version), leaves[i]);
    FirstSegment(leaves[i], version);
    FirstIndexAtMost(leaves, i);
  }

  lemma {:induction false} FirstIndexAtMost(s: seq<string>, i: nat)
    requires i < |s|
    ensures FirstIndex(s, s[i]) <= i
  {
    if i > 0 { FirstIndexAtMost(s[1..], i - 1); }
  }

  /** On an unambiguous version tree every index survives the round trip. */
  lemma PathThenIndex(tree: Tree, version: string, i: nat)
    requires '.' !in version && Unambiguous(Lookup(tree, version)) && PathAt(tree, version, i).Some?
    ensures LeafIndex(tree, PathAt(tree, version, i).value) == i
  {
    var leaves := VersionLeaves(tree, version);
    LeavesDistinct(version, Lookup(tree, version));
    LeavesUnder(version, Lookup(tree, version), leaves[i]);
    FirstSegment(leaves[i], version);
    FirstIndexOfDistinct(leaves, i);
  }

  lemma FirstIndexOfDistinct(s: seq<string>, i: nat)
    requires NoDuplicates(s) && i < |s|
    ensures FirstIndex(s, s[i]) == i
  {
    FirstIndexUnique(s, s[i], i);
  }

  /** For any version tree: all indices survive the round trip exactly when no two leaves share a path. */
  lemma RoundTripExactly(tree: Tree, version: string)
    requires '.' !in version
    ensures NoDuplicates(VersionLeaves(tree, version)) <==>
            forall i: nat :: PathAt(tree, version, i).Some? ==> LeafIndex(tree, PathAt(tree, version, i).value) == i
  {
    var leaves := VersionLeaves(tree, version);
    forall i: nat | i < |leaves|
      ensures PathAt(tree, version, i) == Some(leaves[i]) && LeafIndex(tree, leaves[i]) == FirstIndex(leaves, leaves[i])
    {
      LeavesUnder(version, Lookup(tree, version), leaves[i]);
      FirstSegment(leaves[i], version);
    }
    if NoDuplicates(leaves) {
      forall i: nat | i < |leaves| ensures FirstIndex(leaves, leaves[i]) == i { FirstIndexOfDistinct(leaves, i); }
    }
    if forall i: nat :: PathAt(tree, version, i).Some? ==> LeafIndex(tree, PathAt(tree, version, i).value) == i {
      forall i, j | 0 <= i < j < |leaves| ensures leaves[i] != leaves[j] {
        assert PathAt(tree, version, i).Some? && PathAt(tree, version, j).Some?;
      }
    }
  }

  /** A dotted key can give two leaves one path, so index 1 does not survive. */
  lemma DottedKeyCollides()
    ensures var tree := [Entry("v", Map([Entry("a", Str("b.c")), Entry("a.b", Str("c"))]))];
            PathAt(tree, "v", 1) == Some("v.a.b.c") && LeafIndex(tree, "v.a.b.c") == 0
  {
    var root := Map([Entry("a", Str("b.c")), Entry("a.b", Str("c"))]);
    TwoLeaves("v", "a", "b.c", "a.b", "c");
    assert "v" + "." + "a.b" + "." + "c" == "v.a.b.c";
    assert "v" + "." + "a" + "." + "b.c" == "v.a.b.c";
    assert Lookup([Entry("v", root)], "v") == root;
    FirstSegment("v.a.b.c", "v");
  }

  lemma TwoLeaves(path: string, k: string, x: string, l: string, y: string)
    ensures Leaves(path, Map([Entry(k, Str(x)), Entry(l, Str(y))])) == [path + "." + k + "." + x, path + "." + l + "." + y]
  {
    var root := Map([Entry(k, Str(x)), Entry(l, Str(y))]);
    assert LeavesFrom(path, root, 1) == [path + "." + l + "." + y] + LeavesFrom(path, root, 2);
    assert LeavesFrom(path, root, 0) == [path + "." + k + "." + x] + LeavesFrom(path, root, 1);
  }

  // ----- the order of the indices -----

  lemma BelowFirst(first: seq<string>, rest: seq<string>, a: nat)
    requires NoDuplicates(first + rest) && a < |first + rest|
    ensures (first + rest)[a] in first ==> a < |first|
    ensures (first + rest)[a] in rest ==> a >= |first| && (first + rest)[a] == rest[a - |first|]
  {
    var all := first + rest;
    if all[a] in first {
      var k :| 0 <= k < |first| && first[k] == all[a];
      assert all[k] == all[a];
    }
    if all[a] in rest {
      var k :| 0 <= k < |rest| && rest[k] == all[a];
      assert all[|first| + k] == all[a];
    }
  }

  lemma RestNoDuplicates(first: seq<string>, rest: seq<string>)
    requires NoDuplicates(first + rest)
    ensures NoDuplicates(rest)
  {
    forall x, y | 0 <= x < y < |rest| ensures rest[x] != rest[y] {
      assert (first + rest)[|first| + x] == rest[x] && (first + rest)[|first| + y] == rest[y];
    }
  }

  /** A listing made of blocks, from each position on. */
  ghost predicate MadeOf(block: nat -> seq<string>, listing: nat -> seq<string>, n: nat) {
    forall k: nat {:trigger block(k)} :: k < n ==> listing(k) == block(k) + listing(k + 1)
  }

  lemma {:induction false} BlockIsListed(block: nat -> seq<string>, listing: nat -> seq<string>, n: nat, k: nat, j: nat, s: string)
    requires MadeOf(block, listing, n) && k <= j < n && s in block(j)
    ensures s in listing(k)
    decreases j - k
  {
    assert listing(k) == block(k) + listing(k + 1);
    if k < j { BlockIsListed(block, listing, n, k + 1, j, s); }
  }

  /** What an earlier block lists comes first. */
  lemma {:induction false} EarlierBlockFirst(block: nat -> seq<string>, listing: nat -> seq<string>, n: nat, k: nat,
                                             i: nat, j: nat, a: nat, b: nat)
    requires MadeOf(block, listing, n) && k <= i < j < n && NoDuplicates(listing(k))
    requires a < |listing(k)| && b < |listing(k)| && listing(k)[a] in block(i) && listing(k)[b] in block(j)
    ensures a < b
    decreases i - k
  {
    var first, rest := block(k), listing(k + 1);
    assert listing(k) == first + rest;
    BelowFirst(first, rest, a);
    BelowFirst(first, rest, b);
    BlockIsListed(block, listing, n, k + 1, j, listing(k)[b]);
    if k < i {
      BlockIsListed(block, listing, n, k + 1, i, listing(k)[a]);
      RestNoDuplicates(first, rest);
      EarlierBlockFirst(block, listing, n, k + 1, i, j, a - |first|, b - |first|);
    }
  }

  function ChildLeaves(path: string, n: Node, k: nat): seq<string> {
    if k < Arity(n) then Leaves(ChildAt(path, n, k).path, ChildAt(path, n, k).node) else []
  }

  /** The leaves of an earlier child have the smaller positions. */
  lemma EarlierChildFirst(path: string, n: Node, i: nat, j: nat, a: nat, b: nat)
    requires !IsLeaf(n) && i < j < Arity(n) && NoDuplicates(Leaves(path, n))
    requires a < |Leaves(path, n)| && b < |Leaves(path, n)|
    requires Leaves(path, n)[a] in ChildLeaves(path, n, i) && Leaves(path, n)[b] in ChildLeaves(path, n, j)
    ensures a < b
  {
    var block := (k: nat) => ChildLeaves(path, n, k);
    var listing := (k: nat) => if k <= Arity(n) then LeavesFrom(path, n, k) else [];
    assert MadeOf(block, listing, Arity(n)) by {
      forall k: nat | k < Arity(n) ensures listing(k) == block(k) + listing(k + 1) {}
    }
    EarlierBlockFirst(block, listing, Arity(n), 0, i, j, a, b);
  }

  /** On an unambiguous version tree the index of a leaf under a smaller key is smaller. */
  lemma SmallerKeyFirst(tree: Tree, version: string, i: nat, j: nat, p: string, q: string)
    requires '.' !in version && Lookup(tree, version).Map? && Unambiguous(Lookup(tree, version))
    requires var entries := Lookup(tree, version).entries;
             && i < |entries| && j < |entries| && Less(entries[i].key, entries[j].key)
             && p in Leaves(version + "." + entries[i].key, entries[i].node) && q in Leaves(version + "." + entries[j].key, entries[j].node)
    ensures 0 <= LeafIndex(tree, p) < LeafIndex(tree, q)
  {
    var n := Lookup(tree, version);
    var leaves := VersionLeaves(tree, version);
    SmallerIsEarlier(n.entries, i, j);
    LeavesDistinct(version, n);
    ChildLeafBelow(version, n, 0, i, p);
    ChildLeafBelow(version, n, 0, j, q);
    LeavesUnder(version, n, p);
    LeavesUnder(version, n, q);
    FirstSegment(p, version);
    FirstSegment(q, version);
    EarlierChildFirst(version, n, i, j, FirstIndex(leaves, p), FirstIndex(leaves, q));
  }

  lemma SmallerIsEarlier(entries: seq<Entry>, i: nat, j: nat)
    requires KeysAscend(entries) && i < |entries| && j < |entries| && Less(entries[i].key, entries[j].key)
    ensures i < j
  {
    if j < i {
      assert Less(entries[j].key, entries[i].key);
      OrderAntisymmetric(entries[i].key, entries[j].key);
    }
  }

  /** Which paths have an index: of those with a dot the leaf paths of their version, of the others the versions. */
  lemma HasIndexExactly(tree: Tree, path: string)
    ensures -1 <= LeafIndex(tree, path)
    ensures LeafIndex(tree, path) >= 0 <==>
            path != "" && if '.' in path then path in VersionLeaves(tree, Split(path, '.')[0]) else HasKey(tree, path)
    ensures LeafIndex(tree, path) > 0 ==> '.' in path
  {
  }
}
