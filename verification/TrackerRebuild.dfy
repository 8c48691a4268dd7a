/** Rebuilding the leader tracker from the cluster's resources: UpdateLeaderTrackersFromUnstructuredList in
    internal/controller/resource_sharing.go. */
module TrackerRebuild {
  import opened Text
  import opened OperandVersion
  import opened DecisionTree
  import opened LeafPaths
  import opened Migration
  import opened MigrationLaws
  import opened LeaderTrackers

  /** A shared resource: its name and its path-index label. */
  datatype Resource = Resource(name: string, pathIndexLabel: Option<string>)

  /** The decision tree, the replace maps with a sorted listing of their versions, and the version in force. */
  datatype Context = Context(tree: Tree, treeOrder: seq<string>, replace: ReplaceMap, order: seq<string>, latest: string)

  ghost predicate ContextOk(c: Context) {
    && Keyed(c.replace) && SortedKeys(c.replace, c.order)
    && (forall k :: k in c.treeOrder <==> HasKey(c.tree, k))
  }

  function Keys(c: Context): set<string> { set k | k in c.treeOrder }

  /** The path a label stands for: a version and an index separated by the only dot. The error of parsing the index
      is dropped, so that anything that is no number counts as index 0. */
  function Decoded(tree: Tree, pathIndex: string): Option<string> {
    var parts := Split(pathIndex, '.');
    if |parts| != 2 then None else PathAt(tree, parts[0], ParseInt(parts[1]))
  }

  predicate Tracked(tree: Tree, res: Resource) {
    res.pathIndexLabel.Some? && Decoded(tree, res.pathIndexLabel.value).Some?
  }

  /** strings.Split(path, ".")[0] + "." + the leaf index. */
  function PathIndexOf(tree: Tree, path: string): string {
    VersionOf(path) + "." + FormatInt(LeafIndex(tree, path))
  }

  /** The path, the path index and the new label after migrating to the version in force. A path that cannot be
      migrated is stored empty. */
  ghost predicate MovedEntry(c: Context, path: string, index: string, t: Tracker, newLabel: string, r: Outcome)
    requires ContextOk(c)
  {
    Migrates(path, c.latest, Keys(c), c.replace, c.order, r) &&
    match r
    case Migrated(q) => t.path == q && t.pathIndex == newLabel == PathIndexOf(c.tree, q)
    case NoUpgradePath => t.path == "" && t.pathIndex == newLabel == index
    case Panicked => false
  }

  /** The path, the path index and the new label of a tracked resource. */
  ghost predicate Located(c: Context, res: Resource, t: Tracker, newLabel: string)
    requires ContextOk(c)
  {
    Tracked(c.tree, res) &&
    var index := res.pathIndexLabel.value;
    var version, path := Split(index, '.')[0], Decoded(c.tree, index).value;
    if version == c.latest then t.path == path && t.pathIndex == newLabel == index
    else exists r :: MovedEntry(c, path, index, t, newLabel, r)
  }

  /** The tracker and the new label of a tracked resource. */
  ghost predicate EntryOf(c: Context, root: string, res: Resource, t: Tracker, newLabel: string)
    requires ContextOk(c)
  {
    Located(c, res, t, newLabel) && |res.name| >= |root| && t.name == res.name[|root|..] && t.owner == ""
  }

  /** A panic comes with the resource as it is then: the label is changed before the name is sliced. */
  datatype Rebuilt = Row(tracker: Tracker, newLabel: string) | Skipped | Crashed(left: Resource)

  /** The branch for a label of another version. */
  method MoveOne(c: Context, pathIndex: string, path: string) returns (r: Option<(Tracker, string)>)
    requires ContextOk(c)
    ensures r.Some? ==> r.value.0.name == r.value.0.owner == "" && exists m :: MovedEntry(c, path, pathIndex, r.value.0, r.value.1, m)
    ensures r.None? ==> Migrates(path, c.latest, Keys(c), c.replace, c.order, Panicked)
  {
    var moved := ReplacePath(path, c.latest, c.treeOrder, c.replace, c.order);
    match moved {
      case Migrated(q) =>
        var index := GetLeafIndex(c.tree, q);
        var newPathIndex := Split(q, '.')[0] + "." + FormatInt(index);
        r := Some((Tracker("", "", newPathIndex, q), newPathIndex));
        assert MovedEntry(c, path, pathIndex, r.value.0, r.value.1, moved);
      case NoUpgradePath =>
        r := Some((Tracker("", "", pathIndex, ""), pathIndex));
        assert MovedEntry(c, path, pathIndex, r.value.0, r.value.1, moved);
      case Panicked =>
        r := None;
    }
  }

  /** Migrating the path of the resource's label may panic. */
  ghost predicate Panics(c: Context, res: Resource)
    requires ContextOk(c)
  {
    Tracked(c.tree, res) && Migrates(Decoded(c.tree, res.pathIndexLabel.value).value, c.latest, Keys(c), c.replace, c.order, Panicked)
  }

  /** A panic of the migration leaves the resource as it was; a name shorter than the root name panics after the label was
      changed. */
  ghost predicate CrashesAs(c: Context, root: string, res: Resource, left: Resource)
    requires ContextOk(c)
  {
    || (Panics(c, res) && left == res)
    || (|res.name| < |root| && left.name == res.name && left.pathIndexLabel.Some?
        && exists t :: Located(c, res, t, left.pathIndexLabel.value))
  }

  method RebuildOne(c: Context, root: string, res: Resource) returns (r: Rebuilt)
    requires ContextOk(c)
    ensures r.Skipped? <==> !Tracked(c.tree, res)
    ensures r.Row? ==> EntryOf(c, root, res, r.tracker, r.newLabel)
    ensures r.Crashed? ==> CrashesAs(c, root, res, r.left)
  {
    if res.pathIndexLabel.None? { return Skipped; }
    var pathIndex := res.pathIndexLabel.value;
    var path := DecodeLabel(c.tree, pathIndex);
    if path.None? { return Skipped; }
    var version := Split(pathIndex, '.')[0];
    var leader, newLabel := Tracker("", "", pathIndex, path.value), pathIndex;
    if version != c.latest {
      var moved := MoveOne(c, pathIndex, path.value);
      if moved.None? { return Crashed(res); }
      leader, newLabel := moved.value.0, moved.value.1;
    }
    assert Located(c, res, leader, newLabel);
    if |res.name| < |root| { return Crashed(res.(pathIndexLabel := Some(newLabel))); }
    NameIsFree(c, res, leader, newLabel, res.name[|root|..]);
    r := Row(leader.(name := res.name[|root|..]), newLabel);
  }

  lemma NameIsFree(c: Context, res: Resource, t: Tracker, newLabel: string, name: string)
    requires ContextOk(c) && Located(c, res, t, newLabel)
    ensures Located(c, res, t.(name := name), newLabel)
  {
    var index := res.pathIndexLabel.value;
    if Split(index, '.')[0] != c.latest {
      var r :| MovedEntry(c, Decoded(c.tree, index).value, index, t, newLabel, r);
      assert MovedEntry(c, Decoded(c.tree, index).value, index, t.(name := name), newLabel, r);
    }
  }

  method DecodeLabel(tree: Tree, pathIndex: string) returns (path: Option<string>)
    ensures path == Decoded(tree, pathIndex)
  {
    SplitCount(pathIndex, '.');
    if '.' !in pathIndex { return None; }
    var labelVersionArray := Split(pathIndex, '.');
    if |labelVersionArray| != 2 { return None; }
    path := GetPathFromLeafIndex(tree, labelVersionArray[0], ParseInt(labelVersionArray[1]));
  }

  /** One entry for every tracked resource, in order, and none for the others; labels follow the entries. */
  ghost predicate Paired(tracked: Resource -> bool, row: (Resource, Tracker, string) -> bool,
                         before: seq<Resource>, after: seq<Resource>, entries: seq<Tracker>)
  {
    |before| == |after| &&
    if before == [] then entries == []
    else
      var n := |before| - 1;
      if tracked(before[n]) then
        && entries != [] && after[n].name == before[n].name && after[n].pathIndexLabel.Some?
        && row(before[n], entries[|entries| - 1], after[n].pathIndexLabel.value)
        && Paired(tracked, row, before[..n], after[..n], entries[..|entries| - 1])
      else after[n] == before[n] && Paired(tracked, row, before[..n], after[..n], entries)
  }

  ghost predicate Entries(c: Context, root: string, before: seq<Resource>, after: seq<Resource>, entries: seq<Tracker>)
    requires ContextOk(c)
  {
    Paired(x => Tracked(c.tree, x), (x, t, l) => ContextOk(c) && EntryOf(c, root, x, t, l), before, after, entries)
  }

  lemma PairedGrowsRow(tracked: Resource -> bool, row: (Resource, Tracker, string) -> bool, before: seq<Resource>,
                       after: seq<Resource>, entries: seq<Tracker>, x: Resource, t: Tracker, newLabel: string)
    requires Paired(tracked, row, before, after, entries) && tracked(x) && row(x, t, newLabel)
    ensures Paired(tracked, row, before + [x], after + [x.(pathIndexLabel := Some(newLabel))], entries + [t])
  {
    var y := x.(pathIndexLabel := Some(newLabel));
    PairedLast(tracked, row, before + [x], after + [y], entries + [t], before, after, entries);
  }

  lemma PairedGrowsSkip(tracked: Resource -> bool, row: (Resource, Tracker, string) -> bool, before: seq<Resource>,
                        after: seq<Resource>, entries: seq<Tracker>, x: Resource)
    requires Paired(tracked, row, before, after, entries) && !tracked(x)
    ensures Paired(tracked, row, before + [x], after + [x], entries)
  {
    assert (before + [x])[..|before|] == before && (after + [x])[..|before|] == after;
  }

  /** One unfolding for a tracked resource at the end. */
  lemma PairedLast(tracked: Resource -> bool, row: (Resource, Tracker, string) -> bool, before': seq<Resource>, after': seq<Resource>,
                   entries': seq<Tracker>, before: seq<Resource>, after: seq<Resource>, entries: seq<Tracker>)
    requires Paired(tracked, row, before, after, entries)
    requires |before'| == |after'| == |before| + 1 && |entries'| == |entries| + 1
    requires before'[..|before|] == before && after'[..|before|] == after && entries'[..|entries|] == entries
    requires tracked(before'[|before|]) && after'[|before|].name == before'[|before|].name && after'[|before|].pathIndexLabel.Some?
    requires row(before'[|before|], entries'[|entries|], after'[|before|].pathIndexLabel.value)
    ensures Paired(tracked, row, before', after', entries')
  {
  }

  lemma {:induction false} PairedAll(tracked: Resource -> bool, row: (Resource, Tracker, string) -> bool, good: Tracker -> bool,
                                     before: seq<Resource>, after: seq<Resource>, entries: seq<Tracker>)
    requires Paired(tracked, row, before, after, entries)
    requires forall x, t, l :: x in before && tracked(x) && row(x, t, l) ==> good(t)
    ensures |entries| <= |before|
    ensures forall k :: 0 <= k < |entries| ==> good(entries[k])
  {
    if before != [] {
      var n := |before| - 1;
      PairedAll(tracked, row, good, before[..n], after[..n], if tracked(before[n]) then entries[..|entries| - 1] else entries);
    }
  }

  /** The trackers inserted one after another. */
  function InsertedAll(ts: seq<Tracker>, entries: seq<Tracker>): seq<Tracker> {
    if entries == [] then ts
    else Inserted(InsertedAll(ts, entries[..|entries| - 1]), entries[|entries| - 1])
  }

  /** What the loop knows after some resources: their entries, and the list they were inserted into. */
  ghost predicate Rebuilding(c: Context, root: string, before: seq<Resource>, after: seq<Resource>, entries: seq<Tracker>,
                             start: seq<Tracker>, r: seq<Tracker>)
    requires ContextOk(c)
  {
    && Entries(c, root, before, after, entries)
    && r == InsertedAll(start, entries) && multiset(r) == multiset(start) + multiset(entries)
  }

  lemma RebuildingRow(c: Context, root: string, before: seq<Resource>, after: seq<Resource>, entries: seq<Tracker>,
                      start: seq<Tracker>, r: seq<Tracker>, x: Resource, t: Tracker, newLabel: string)
    requires ContextOk(c) && Rebuilding(c, root, before, after, entries, start, r) && EntryOf(c, root, x, t, newLabel)
    ensures Rebuilding(c, root, before + [x], after + [x.(pathIndexLabel := Some(newLabel))], entries + [t], start, Inserted(r, t))
  {
    PairedGrowsRow(x => Tracked(c.tree, x), (x, t, l) => ContextOk(c) && EntryOf(c, root, x, t, l), before, after, entries, x, t, newLabel);
    InsertionKeepsOrder(r, t);
    assert (entries + [t])[..|entries|] == entries;
  }

  lemma RebuildingSkip(c: Context, root: string, before: seq<Resource>, after: seq<Resource>, entries: seq<Tracker>,
                       start: seq<Tracker>, r: seq<Tracker>, x: Resource)
    requires ContextOk(c) && Rebuilding(c, root, before, after, entries, start, r) && !Tracked(c.tree, x)
    ensures Rebuilding(c, root, before + [x], after + [x], entries, start, r)
  {
    PairedGrowsSkip(x => Tracked(c.tree, x), (x, t, l) => ContextOk(c) && EntryOf(c, root, x, t, l), before, after, entries, x);
  }

  /** The list grows by exactly one entry per tracked resource. `crashed` is a panic: the resources before have been entered
      and relabelled, and the next one panics as `left`. */
  method UpdateLeaderTrackers(c: Context, root: string, resources: seq<Resource>, leaderTrackers: seq<Tracker>)
    returns (r: seq<Tracker>, relabelled: seq<Resource>, ghost entries: seq<Tracker>, crashed: bool, left: Option<Resource>)
    requires ContextOk(c)
    ensures |relabelled| <= |resources| && Entries(c, root, resources[..|relabelled|], relabelled, entries)
    ensures !crashed ==> |relabelled| == |resources|
    ensures crashed ==> |relabelled| < |resources| && left.Some? && CrashesAs(c, root, resources[|relabelled|], left.value)
    ensures r == InsertedAll(leaderTrackers, entries) && multiset(r) == multiset(leaderTrackers) + multiset(entries)
  {
    r, relabelled, entries, crashed, left := leaderTrackers, [], [], false, None;
    assert multiset(r) == multiset(leaderTrackers) + multiset(entries);
    for i := 0 to |resources|
      invariant |relabelled| == i
      invariant Rebuilding(c, root, resources[..i], relabelled, entries, leaderTrackers, r)
    {
      assert resources[..i + 1] == resources[..i] + [resources[i]];
      var one := RebuildOne(c, root, resources[i]);
      match one {
        case Row(t, newLabel) =>
          RebuildingRow(c, root, resources[..i], relabelled, entries, leaderTrackers, r, resources[i], t, newLabel);
          relabelled := relabelled + [resources[i].(pathIndexLabel := Some(newLabel))];
          entries := entries + [t];
          r := InsertIntoSortedLeaderTrackers(r, t);
        case Skipped =>
          RebuildingSkip(c, root, resources[..i], relabelled, entries, leaderTrackers, r, resources[i]);
          relabelled := relabelled + [resources[i]];
        case Crashed(panicked) =>
          crashed, left := true, Some(panicked);
          return;
      }
    }
    assert resources[..|resources|] == resources;
  }

  // ----- entries decode -----

  /** The replace maps speak of leaf paths only, and leaf counts fit into an int64. */
  ghost predicate LeafValued(c: Context) {
    && (forall v, p {:trigger Filed(c.replace, v, p)} :: Filed(c.replace, v, p) ==>
          IsLeafPath(c.tree, p) && IsLeafPath(c.tree, c.replace[v][p]))
    && (forall v :: |VersionLeaves(c.tree, v)| <= MAX_INT64)
  }

  predicate IsLeafPath(tree: Tree, path: string) { '.' in path && LeafIndex(tree, path) >= 0 }

  /** The context an operator runs in: the version in force is a version of the tree. */
  ghost predicate InForce(c: Context) {
    && ContextOk(c) && WellFiled(c.replace) && LeafValued(c)
    && TreeKeys(Keys(c)) && c.latest in Keys(c) && IsValidOperandVersion(c.latest)
  }

  lemma LeafPathDecodes(tree: Tree, path: string)
    requires IsLeafPath(tree, path) && |VersionLeaves(tree, VersionOf(path))| <= MAX_INT64
    ensures Decoded(tree, PathIndexOf(tree, path)) == Some(path)
  {
    var version, i := VersionOf(path), LeafIndex(tree, path);
    SplitFree(path, '.');
    DecimalHasNo(i, '.');
    SplitHead(version, '.', Decimal(i));
    SplitSingle(Decimal(i), '.');
    NumeralOfDecimal(i);
    IndexThenPath(tree, path);
  }

  lemma DecodedIsLeaf(tree: Tree, pathIndex: string)
    requires Decoded(tree, pathIndex).Some?
    ensures IsLeafPath(tree, Decoded(tree, pathIndex).value)
    ensures VersionOf(Decoded(tree, pathIndex).value) == Split(pathIndex, '.')[0]
  {
    var parts := Split(pathIndex, '.');
    SplitFree(pathIndex, '.');
    var leaves := VersionLeaves(tree, parts[0]);
    PathThenFirstIndex(tree, parts[0], ParseInt(parts[1]));
    LeavesUnder(parts[0], Lookup(tree, parts[0]), leaves[ParseInt(parts[1])]);
    FirstSegment(leaves[ParseInt(parts[1])], parts[0]);
  }

  /** Migrating a leaf path to the version in force never panics and ends at a leaf path. */
  lemma MigratedIsLeaf(c: Context, path: string, r: Outcome)
    requires InForce(c) && IsLeafPath(c.tree, path) && IsValidOperandVersion(VersionOf(path))
    requires Migrates(path, c.latest, Keys(c), c.replace, c.order, r)
    ensures r.Migrated? && IsLeafPath(c.tree, r.path)
  {
    VersionOrder(VersionOf(path), c.latest, VersionOf(path));
    if Older(c.latest, VersionOf(path)) {
      var chain := DowngradeChain(path, c.latest, Keys(c), c.replace, c.order, r);
      DownChainEnd(c, chain);
    } else if Older(VersionOf(path), c.latest) {
      var trail := AscentTrail(c.replace, c.order, path, c.latest, r);
      UpChainEnd(c, trail);
    }
  }

  lemma DownChainEnd(c: Context, chain: seq<string>)
    requires InForce(c) && DownChain(c.replace, c.latest, chain) && IsLeafPath(c.tree, chain[0])
    ensures IsLeafPath(c.tree, Last(chain))
  {
    if |chain| > 1 { assert DownEntry(c.replace, c.latest, chain[|chain| - 2], chain[|chain| - 1]); }
  }

  lemma UpChainEnd(c: Context, chain: seq<string>)
    requires InForce(c) && UpChain(c.replace, chain) && IsLeafPath(c.tree, chain[0])
    ensures IsLeafPath(c.tree, Last(chain))
  {
    if |chain| > 1 { assert UpEntry(c.replace, chain[|chain| - 2], chain[|chain| - 1]); }
  }

  /** The path index of the tracker decodes to its path, and nobody owns it. */
  predicate InOrder(tree: Tree, t: Tracker) {
    Decoded(tree, t.pathIndex) == Some(t.path) && t.owner == ""
  }

  lemma MovedEntryDecodes(c: Context, path: string, index: string, t: Tracker, newLabel: string, r: Outcome)
    requires InForce(c) && IsLeafPath(c.tree, path) && IsValidOperandVersion(VersionOf(path))
    requires MovedEntry(c, path, index, t, newLabel, r)
    ensures t.pathIndex == newLabel && Decoded(c.tree, t.pathIndex) == Some(t.path)
  {
    MigratedIsLeaf(c, path, r);
    LeafPathDecodes(c.tree, r.path);
  }

  /** After the rebuild the path index of an entry decodes to the path of the entry, in the label and in the tracker,
      provided the version of the label was a valid operand version. */
  lemma EntryDecodes(c: Context, root: string, res: Resource, t: Tracker, newLabel: string)
    requires InForce(c) && EntryOf(c, root, res, t, newLabel)
    requires IsValidOperandVersion(Split(res.pathIndexLabel.value, '.')[0])
    ensures InOrder(c.tree, t) && t.pathIndex == newLabel && t.name == res.name[|root|..]
  {
    var index := res.pathIndexLabel.value;
    if Split(index, '.')[0] != c.latest {
      var path := Decoded(c.tree, index).value;
      DecodedIsLeaf(c.tree, index);
      var r :| MovedEntry(c, path, index, t, newLabel, r);
      MovedEntryDecodes(c, path, index, t, newLabel, r);
    }
  }

  ghost predicate ValidLabels(c: Context, resources: seq<Resource>) {
    forall x :: x in resources && Tracked(c.tree, x) ==> IsValidOperandVersion(Split(x.pathIndexLabel.value, '.')[0])
  }

  /** In a rebuilt list, of at most one entry per resource, every path index decodes to the path next to it. */
  lemma AllEntriesDecode(c: Context, root: string, before: seq<Resource>, after: seq<Resource>, entries: seq<Tracker>)
    requires InForce(c) && Entries(c, root, before, after, entries) && ValidLabels(c, before)
    ensures |entries| <= |before|
    ensures forall k :: 0 <= k < |entries| ==> InOrder(c.tree, entries[k])
  {
    var tracked := x => Tracked(c.tree, x);
    var row := (x, t, l) => ContextOk(c) && EntryOf(c, root, x, t, l);
    var good := t => InOrder(c.tree, t);
    forall x, t, l | x in before && tracked(x) && row(x, t, l) ensures good(t) {
      EntryDecodes(c, root, x, t, l);
    }
    PairedAll(tracked, row, good, before, after, entries);
    assert forall k :: 0 <= k < |entries| ==> good(entries[k]);
  }

  /** Because the parse error is dropped, a label whose index is no number is tracked as index 0. */
  lemma NonNumericLabelIsIndexZero(tree: Tree, version: string, garbage: string)
    requires '.' !in version && '.' !in garbage && Numeral(garbage) == None
    ensures Decoded(tree, version + "." + garbage) == PathAt(tree, version, 0)
  {
    SplitHead(version, '.', garbage);
    SplitSingle(garbage, '.');
  }

  // ----- labels of versions that cannot be migrated -----

  /** A resource labelled for a version that is not a valid operand version, which may be any key of the tree, is listed
      without a path; its label stays. */
  lemma UnmigratableIsEmpty(c: Context, res: Resource, t: Tracker, newLabel: string)
    requires ContextOk(c) && Located(c, res, t, newLabel)
    requires var version := Split(res.pathIndexLabel.value, '.')[0]; version != c.latest && !IsValidOperandVersion(version)
    ensures t.path == "" && t.pathIndex == newLabel == res.pathIndexLabel.value
  {
    var index := res.pathIndexLabel.value;
    var r :| MovedEntry(c, Decoded(c.tree, index).value, index, t, newLabel, r);
    DecodedIsLeaf(c.tree, index);
  }

  // ----- which labels stand for a path -----

  /** A label stands for a path exactly when it is a version and an index with a dot between them, and the path is the leaf of
      that version at that index. */
  lemma DecodedExactly(tree: Tree, pathIndex: string, path: string)
    ensures Decoded(tree, pathIndex) == Some(path) <==>
            exists v, x {:trigger v + "." + x} :: '.' !in v && '.' !in x && pathIndex == v + "." + x && PathAt(tree, v, ParseInt(x)) == Some(path)
  {
    if Decoded(tree, pathIndex).Some? {
      var parts := Split(pathIndex, '.');
      SplitFree(pathIndex, '.');
      JoinSplit(pathIndex, '.');
      assert parts[1..] == [parts[1]] && Join([parts[1]], '.') == parts[1];
      assert pathIndex == parts[0] + "." + parts[1];
    }
    if v, x {:trigger v + "." + x} :|
      '.' !in v && '.' !in x && pathIndex == v + "." + x && PathAt(tree, v, ParseInt(x)) == Some(path)
    {
      assert v + "." + x == v + ['.'] + x;
      SplitHead(v, '.', x);
      SplitSingle(x, '.');
    }
  }
}
