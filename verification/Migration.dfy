/** Migration of tree paths between operator versions (ReplacePath in utils/tree/tree.go). */
module Migration {
  import opened Text
  import opened OperandVersion

  /** For every version, the entries filed under it: older path to newer path. */
  type ReplaceMap = map<string, map<string, string>>

  datatype Outcome = Migrated(path: string) | NoUpgradePath | Panicked

  function VersionOf(path: string): string { Split(path, '.')[0] }

  /** An entry that starts at p is filed under v. */
  predicate Filed(replace: ReplaceMap, v: string, p: string) { v in replace && p in replace[v] }

  /** The entries are filed under version strings. */
  ghost predicate Keyed(replace: ReplaceMap) { forall v :: v in replace ==> ThreeParts(v) }

  /** Every version string the comparisons meet has three components. */
  ghost predicate Shaped(replace: ReplaceMap) {
    && Keyed(replace)
    && (forall v, p {:trigger Filed(replace, v, p)} :: Filed(replace, v, p) ==>
          ThreeParts(VersionOf(p)) && ThreeParts(VersionOf(replace[v][p])))
  }

  /** getSortedKeysFromReplaceMap: the keys in some ascending order. */
  ghost predicate SortedKeys(replace: ReplaceMap, order: seq<string>)
    requires Keyed(replace)
  {
    && (forall v :: v in order <==> v in replace)
    && (forall i, j :: 0 <= i < j < |order| ==> order[i] in replace && order[j] in replace && AtMost(order[i], order[j]))
  }

  // ----- downgrade -----

  /** The latest tree version as the code holds it: the empty string when the search for it failed. */
  function Spelled(latest: Option<string>): string { if latest.Some? then latest.value else "" }

  /** The entry leads to the path p. */
  predicate Matches(replace: ReplaceMap, p: string, q: string) {
    Filed(replace, VersionOf(p), q) && replace[VersionOf(p)][q] == p
  }

  /** Whether one of the two comparisons for an entry that starts at version w slices or indexes out of range. */
  predicate Breaks(current: string, w: string, latest: string) {
    || !Comparable(current, w)
    || (Diff(Parts(current), Parts(w)) > 0 && !Comparable(w, latest))
  }

  /** Whether both hold: w is older than the current version, and not older than the latest. */
  predicate Leads(current: string, w: string, latest: string) {
    && Comparable(current, w) && Diff(Parts(current), Parts(w)) > 0
    && Comparable(w, latest) && Diff(Parts(w), Parts(latest)) >= 0
  }

  /** An entry the loop panics on. */
  predicate PanicEntry(replace: ReplaceMap, latest: Option<string>, p: string, q: string) {
    Matches(replace, p, q) && Breaks(VersionOf(p), VersionOf(q), Spelled(latest))
  }

  /** An entry the loop follows back from p to q. */
  predicate BackEntry(replace: ReplaceMap, latest: Option<string>, p: string, q: string) {
    Matches(replace, p, q) && Leads(VersionOf(p), VersionOf(q), Spelled(latest))
  }

  predicate BackChain(replace: ReplaceMap, latest: Option<string>, chain: seq<string>) {
    chain != [] && forall i :: 0 <= i < |chain| - 1 ==> BackEntry(replace, latest, chain[i], chain[i + 1])
  }

  /** The loop ends at p in a panic, or because no entry leads on. Which entry comes first is up to the map order, so at a
      path with several entries it may end in a panic although another order would lead on. */
  ghost predicate Ends(replace: ReplaceMap, latest: Option<string>, p: string, r: Outcome) {
    || (r == Panicked && exists q :: PanicEntry(replace, latest, p, q))
    || (r == Migrated(p) && forall q :: !PanicEntry(replace, latest, p, q) && !BackEntry(replace, latest, p, q))
  }

  /** The outcomes of the downgrade loop, over all iteration orders. */
  ghost predicate Descends(replace: ReplaceMap, latest: Option<string>, path: string, r: Outcome) {
    exists chain :: BackChain(replace, latest, chain) && chain[0] == path && Ends(replace, latest, Last(chain), r)
  }

  function Last(chain: seq<string>): string
    requires chain != []
  {
    chain[|chain| - 1]
  }

  lemma OlderDecreases(a: string, b: string)
    requires ThreeParts(a) && ThreeParts(b) && Older(a, b)
    ensures Parts(a)[0] <= Parts(b)[0]
    ensures Parts(a)[0] == Parts(b)[0] ==> Parts(a)[1] <= Parts(b)[1]
    ensures Parts(a)[0] == Parts(b)[0] && Parts(a)[1] == Parts(b)[1] ==> Parts(a)[2] < Parts(b)[2]
  {
    SmallerDecreases(Parts(a), Parts(b));
  }

  lemma SmallerDecreases(x: seq<nat>, y: seq<nat>)
    requires |x| == |y| == 3 && Diff(x, y) < 0
    ensures x[0] <= y[0]
    ensures x[0] == y[0] ==> x[1] <= y[1]
    ensures x[0] == y[0] && x[1] == y[1] ==> x[2] < y[2]
  {
    if x[0] == y[0] {
      assert x[..1] == y[..1];
      DiffFrom(x, y, 1);
      if x[1] == y[1] {
        assert x[..2] == y[..2];
        DiffFrom(x, y, 2);
      }
    }
  }

  ghost function Component(v: string, i: nat): nat { if v != "" && i < |Parts(v)| then Parts(v)[i] else 0 }

  datatype Verdict = Skip | Follow | Panic

  /** The loop body for one entry. */
  method Inspect(replace: ReplaceMap, latest: Option<string>, currPath: string, prevPath: string) returns (v: Verdict)
    requires VersionOf(currPath) in replace && prevPath in replace[VersionOf(currPath)]
    ensures v == Panic <==> PanicEntry(replace, latest, currPath, prevPath)
    ensures v == Follow <==> BackEntry(replace, latest, currPath, prevPath)
  {
    var currVersion, prevVersion := VersionOf(currPath), VersionOf(prevPath);
    if replace[currVersion][prevPath] != currPath { return Skip; }
    if !Comparable(currVersion, prevVersion) { return Panic; }
    var c := CompareOperandVersion(currVersion, prevVersion);
    if c <= 0 { return Skip; }
    if !Comparable(prevVersion, Spelled(latest)) { return Panic; }
    var d := CompareOperandVersion(prevVersion, Spelled(latest));
    v := if d >= 0 then Follow else Skip;
  }

  /** One pass over the entries of the current version, in any order, up to the first that is followed or panics. */
  method FindHit(replace: ReplaceMap, latest: Option<string>, currPath: string) returns (v: Verdict, next: string)
    requires VersionOf(currPath) in replace
    ensures v == Skip ==> Ends(replace, latest, currPath, Migrated(currPath))
    ensures v == Follow ==> BackEntry(replace, latest, currPath, next)
    ensures v == Panic ==> PanicEntry(replace, latest, currPath, next) && Ends(replace, latest, currPath, Panicked)
  {
    var entries := replace[VersionOf(currPath)];
    var todo := entries.Keys;
    v, next := Skip, "";
    while todo != {}
      invariant todo <= entries.Keys && v == Skip
      invariant forall q :: q in entries && q !in todo ==>
                  !PanicEntry(replace, latest, currPath, q) && !BackEntry(replace, latest, currPath, q)
      decreases todo
    {
      next :| next in todo;
      todo := todo - {next};
      v := Inspect(replace, latest, currPath, next);
      if v != Skip { return; }
    }
  }

  lemma UnfiledEnds(replace: ReplaceMap, latest: Option<string>, p: string)
    requires VersionOf(p) !in replace
    ensures Ends(replace, latest, p, Migrated(p))
  {
  }

  /** A followed entry leads to an older version, or out of the replace map. */
  lemma FollowDecreases(replace: ReplaceMap, latest: Option<string>, p: string, q: string)
    requires Keyed(replace) && BackEntry(replace, latest, p, q) && VersionOf(q) in replace
    ensures var a, b := VersionOf(q), VersionOf(p);
            && Component(a, 0) <= Component(b, 0)
            && (Component(a, 0) == Component(b, 0) ==> Component(a, 1) <= Component(b, 1))
            && (Component(a, 0) == Component(b, 0) && Component(a, 1) == Component(b, 1) ==> Component(a, 2) < Component(b, 2))
  {
    VersionOrder(VersionOf(q), VersionOf(p), VersionOf(q));
    DiffFlips(VersionOf(p), VersionOf(q));
    OlderDecreases(VersionOf(q), VersionOf(p));
  }

  lemma DiffFlips(a: string, b: string)
    requires ThreeParts(a) && ThreeParts(b) && Diff(Parts(a), Parts(b)) > 0
    ensures Older(b, a)
  {
    DiffIsLex(Parts(a), Parts(b));
    DiffIsLex(Parts(b), Parts(a));
  }

  /** The paths visited so far. */
  ghost predicate Visited(replace: ReplaceMap, latest: Option<string>, path: string, chain: seq<string>, p: string) {
    BackChain(replace, latest, chain) && chain[0] == path && Last(chain) == p
  }

  lemma VisitOne(replace: ReplaceMap, latest: Option<string>, path: string, chain: seq<string>, p: string, q: string)
    requires Visited(replace, latest, path, chain, p) && BackEntry(replace, latest, p, q)
    ensures Visited(replace, latest, path, chain + [q], q)
  {
  }

  lemma VisitEnds(replace: ReplaceMap, latest: Option<string>, path: string, chain: seq<string>, p: string, r: Outcome)
    requires Visited(replace, latest, path, chain, p) && Ends(replace, latest, p, r)
    ensures Descends(replace, latest, path, r)
  {
  }

  method Downgrade(replace: ReplaceMap, latest: Option<string>, path: string) returns (r: Outcome)
    requires Keyed(replace)
    ensures Descends(replace, latest, path, r)
  {
    var currPath, currVersion := path, VersionOf(path);
    var lastVersion := "";
    var found := currVersion in replace;
    ghost var chain := [path];
    while found && lastVersion != currVersion
      invariant currVersion == VersionOf(currPath) && found == (currVersion in replace)
      invariant Visited(replace, latest, path, chain, currPath)
      invariant found && lastVersion == currVersion ==> Ends(replace, latest, currPath, Migrated(currPath))
      decreases found, Component(currVersion, 0), Component(currVersion, 1), Component(currVersion, 2), lastVersion != currVersion
    {
      lastVersion := currVersion;
      var v, next := FindHit(replace, latest, currPath);
      if v == Panic {
        VisitEnds(replace, latest, path, chain, currPath, Panicked);
        return Panicked;
      }
      if v == Follow {
        if VersionOf(next) in replace { FollowDecreases(replace, latest, currPath, next); }
        VisitOne(replace, latest, path, chain, currPath, next);
        chain := chain + [next];
        currPath := next;
        currVersion := VersionOf(currPath);
      }
      found := currVersion in replace;
    }
    if !found { UnfiledEnds(replace, latest, currPath); }
    VisitEnds(replace, latest, path, chain, currPath, Migrated(currPath));
    r := Migrated(currPath);
  }

  // ----- upgrade -----

  predicate StartsAt(order: seq<string>, version: string, i: int)
    requires ThreeParts(version) && forall k :: 0 <= k < |order| ==> ThreeParts(order[k])
  {
    && -1 <= i < |order| && (i == -1 <==> order == [])
    && (forall k :: 0 <= k < i ==> !Older(version, order[k]))
    && (i >= 0 ==> Older(version, order[i]) || i == |order| - 1)
  }

  /** The position of the first key newer than the version, or of the last key when there is none. */
  method FirstNewer(order: seq<string>, version: string) returns (i: int)
    requires ThreeParts(version) && forall k :: 0 <= k < |order| ==> ThreeParts(order[k])
    ensures StartsAt(order, version, i)
  {
    i := -1;
    for k := 0 to |order|
      invariant i == k - 1
      invariant forall j :: 0 <= j < k ==> !Older(version, order[j])
    {
      i := i + 1;
      VersionOrder(order[k], version, order[k]);
      VersionOrder(version, order[k], version);
      var c := CompareOperandVersion(order[k], version);
      if c > 0 { break; }
    }
  }

  /** One key: the entry that starts at the path, if there is one. */
  function UpStep(replace: ReplaceMap, v: string, path: string): string
    requires v in replace
  {
    if path in replace[v] then replace[v][path] else path
  }

  /** The upgrade loop from position i on. */
  function Climb(replace: ReplaceMap, order: seq<string>, i: nat, path: string, target: string): string
    requires forall v :: v in order ==> v in replace
    decreases |order| - i
  {
    if VersionOf(path) == target || i >= |order| then path
    else Climb(replace, order, i + 1, UpStep(replace, order[i], path), target)
  }

  lemma ClimbTurn(replace: ReplaceMap, order: seq<string>, i: nat, path: string, target: string)
    requires forall v :: v in order ==> v in replace
    requires i < |order| && VersionOf(path) != target
    ensures order[i] in replace
    ensures Climb(replace, order, i, path, target) == Climb(replace, order, i + 1, UpStep(replace, order[i], path), target)
  {
  }

  method ClimbFrom(replace: ReplaceMap, order: seq<string>, start: nat, path: string, target: string) returns (r: string)
    requires forall v :: v in order ==> v in replace
    ensures r == Climb(replace, order, start, path, target)
  {
    var i: nat := start;
    var currPath, currVersion := path, VersionOf(path);
    while currVersion != target && i < |order|
      invariant currVersion == VersionOf(currPath)
      invariant Climb(replace, order, start, path, target) == Climb(replace, order, i, currPath, target)
    {
      ClimbTurn(replace, order, i, currPath, target);
      // at most one entry has the current path as its key
      if currPath in replace[order[i]] {
        currPath := replace[order[i]][currPath];
        currVersion := VersionOf(currPath);
      }
      i := i + 1;
    }
    r := currPath;
  }

  /** The result of an upgrade for some start the search for the first newer key may find. */
  ghost predicate Ascends(replace: ReplaceMap, order: seq<string>, path: string, target: string, r: Outcome)
    requires Keyed(replace) && SortedKeys(replace, order) && ThreeParts(VersionOf(path))
  {
    exists i :: StartsAt(order, VersionOf(path), i)
                && r == Migrated(if i < 0 then path else Climb(replace, order, i, path, target))
  }

  method Upgrade(replace: ReplaceMap, order: seq<string>, path: string, target: string) returns (r: string)
    requires Keyed(replace) && SortedKeys(replace, order) && ThreeParts(VersionOf(path))
    ensures Ascends(replace, order, path, target, Migrated(r))
  {
    var i := FirstNewer(order, VersionOf(path));
    r := path;
    if i >= 0 {
      r := ClimbFrom(replace, order, i, path, target);
    }
  }

  // ----- ReplacePath -----

  /** The outcomes of ReplacePath over all iteration orders of the tree map and of the replace maps. */
  ghost predicate Migrates(path: string, target: string, keys: set<string>, replace: ReplaceMap, order: seq<string>, r: Outcome)
    requires Keyed(replace) && SortedKeys(replace, order)
  {
    var version := VersionOf(path);
    if !IsValidOperandVersion(version) || !IsValidOperandVersion(target) then r == NoUpgradePath
    else if Older(target, version) then
      exists latest :: IsLatest(keys, target, latest) && Descends(replace, latest, path, r)
    else if Older(version, target) then Ascends(replace, order, path, target, r)
    else r == Migrated(path)
  }

  method ReplacePath(path: string, target: string, treeOrder: seq<string>, replace: ReplaceMap, order: seq<string>)
    returns (r: Outcome)
    requires Keyed(replace) && SortedKeys(replace, order)
    ensures Migrates(path, target, (set k | k in treeOrder), replace, order, r)
  {
    var currVersion := VersionOf(path);
    if !IsValidOperandVersion(currVersion) || !IsValidOperandVersion(target) {
      return NoUpgradePath;
    }
    VersionOrder(currVersion, target, currVersion);
    VersionOrder(target, currVersion, target);
    var cmp := CompareOperandVersion(currVersion, target);
    var latest := GetLatestTreeMapOperandVersion(treeOrder, target);
    if cmp > 0 {
      r := Downgrade(replace, latest, path);
      return;
    }
    if cmp < 0 {
      var p := Upgrade(replace, order, path, target);
      return Migrated(p);
    }
    r := Migrated(path);
  }
}
