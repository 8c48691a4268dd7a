/** What migrating a path guarantees over every iteration order: the path taken, its bounds, idempotence, and that
    upgrading and then downgrading is the identity. */
module MigrationLaws {
  import opened Text
  import opened OperandVersion
  import opened Migration

  // ----- well-formed trees and replace maps -----

  /** An entry filed under a version goes from an older path to a path of that version. */
  ghost predicate WellFiled(replace: ReplaceMap) {
    && Shaped(replace)
    && (forall v, p {:trigger Filed(replace, v, p)} :: Filed(replace, v, p) ==>
          IsValidOperandVersion(v) && VersionOf(replace[v][p]) == v && Older(VersionOf(p), v))
  }

  /** No two entries under one version share a destination. */
  ghost predicate UniqueDestinations(replace: ReplaceMap) {
    forall v, p, q {:trigger Filed(replace, v, p), Filed(replace, v, q)} ::
      Filed(replace, v, p) && Filed(replace, v, q) && replace[v][p] == replace[v][q] ==> p == q
  }

  /** The keys of a tree are version strings, and none spells v0_0_0 differently. */
  ghost predicate TreeKeys(keys: set<string>) {
    && (forall k :: k in keys ==> IsOperandVersionString(k))
    && (forall k :: k in keys && ThreeParts(k) && Parts(k) == [0, 0, 0] ==> k == BASE_VERSION)
  }

  /** No entry leads past the target, and no version but the target itself compares equal to it. */
  ghost predicate NoJump(replace: ReplaceMap, target: string)
    requires WellFiled(replace) && ThreeParts(target)
  {
    forall v, p {:trigger Filed(replace, v, p)} :: Filed(replace, v, p) ==>
      && (Parts(v) == Parts(target) ==> v == target)
      && (Older(VersionOf(p), target) ==> AtMost(v, target))
  }

  // ----- chains of entries -----

  /** An entry filed under the current version that ends in the current path and starts at an older one. */
  predicate OlderEntry(replace: ReplaceMap, p: string, q: string) {
    && Matches(replace, p, q)
    && ThreeParts(VersionOf(p)) && ThreeParts(VersionOf(q)) && Older(VersionOf(q), VersionOf(p))
  }

  /** An entry a downgrade may follow from p back to q: it must not lead below the latest tree version. */
  predicate DownEntry(replace: ReplaceMap, latest: string, p: string, q: string)
    requires ThreeParts(latest)
  {
    OlderEntry(replace, p, q) && AtMost(latest, VersionOf(q))
  }

  predicate DownChain(replace: ReplaceMap, latest: string, chain: seq<string>)
    requires ThreeParts(latest)
  {
    chain != [] && forall i :: 0 <= i < |chain| - 1 ==> DownEntry(replace, latest, chain[i], chain[i + 1])
  }

  ghost predicate Stuck(replace: ReplaceMap, latest: string, p: string)
    requires ThreeParts(latest)
  {
    forall q :: !DownEntry(replace, latest, p, q)
  }

  predicate UpEntry(replace: ReplaceMap, p: string, q: string) {
    Filed(replace, VersionOf(q), p) && replace[VersionOf(q)][p] == q
  }

  predicate UpChain(replace: ReplaceMap, chain: seq<string>) {
    chain != [] && forall i :: 0 <= i < |chain| - 1 ==> UpEntry(replace, chain[i], chain[i + 1])
  }

  /** The paths an upgrade visits. */
  ghost function Trail(replace: ReplaceMap, order: seq<string>, i: nat, path: string, target: string): seq<string>
    requires forall v :: v in order ==> v in replace
    decreases |order| - i
  {
    if VersionOf(path) == target || i >= |order| then [path]
    else if path in replace[order[i]] then [path] + Trail(replace, order, i + 1, replace[order[i]][path], target)
    else Trail(replace, order, i + 1, path, target)
  }

  lemma ConsChain(replace: ReplaceMap, p: string, chain: seq<string>)
    requires UpChain(replace, chain) && UpEntry(replace, p, chain[0])
    ensures UpChain(replace, [p] + chain)
  {
  }

  lemma {:induction false} TrailEnds(replace: ReplaceMap, order: seq<string>, i: nat, path: string, target: string)
    requires forall v :: v in order ==> v in replace
    ensures var t := Trail(replace, order, i, path, target);
            t != [] && t[0] == path && Last(t) == Climb(replace, order, i, path, target)
    decreases |order| - i
  {
    if VersionOf(path) != target && i < |order| {
      var next := UpStep(replace, order[i], path);
      var rest := Trail(replace, order, i + 1, next, target);
      TrailEnds(replace, order, i + 1, next, target);
      ClimbTurn(replace, order, i, path, target);
      TrailTurn(replace, order, i, path, target);
      if path in replace[order[i]] { LastOfCons(path, rest); }
    }
  }

  lemma LastOfCons(p: string, rest: seq<string>)
    requires rest != []
    ensures Last([p] + rest) == Last(rest)
  {
  }

  lemma TrailTurn(replace: ReplaceMap, order: seq<string>, i: nat, path: string, target: string)
    requires forall v :: v in order ==> v in replace
    requires i < |order| && VersionOf(path) != target
    ensures order[i] in replace
    ensures var rest := Trail(replace, order, i + 1, UpStep(replace, order[i], path), target);
            Trail(replace, order, i, path, target) == if path in replace[order[i]] then [path] + rest else rest
  {
  }

  lemma {:induction false} TrailIsChain(replace: ReplaceMap, order: seq<string>, i: nat, path: string, target: string)
    requires WellFiled(replace) && forall v :: v in order ==> v in replace
    ensures UpChain(replace, Trail(replace, order, i, path, target))
    decreases |order| - i
  {
    if VersionOf(path) != target && i < |order| {
      var next := UpStep(replace, order[i], path);
      TrailIsChain(replace, order, i + 1, next, target);
      if Filed(replace, order[i], path) {
        TrailEnds(replace, order, i + 1, next, target);
        ConsChain(replace, path, Trail(replace, order, i + 1, next, target));
      }
    }
  }

  /** Versions rise along a chain. */
  lemma {:induction false} ChainRises(replace: ReplaceMap, chain: seq<string>, i: nat)
    requires WellFiled(replace) && UpChain(replace, chain) && ThreeParts(VersionOf(chain[0])) && i < |chain|
    ensures ThreeParts(VersionOf(chain[i]))
    ensures AtMost(VersionOf(chain[0]), VersionOf(chain[i]))
    ensures i > 0 ==> Older(VersionOf(chain[0]), VersionOf(chain[i])) && IsValidOperandVersion(VersionOf(chain[i]))
  {
    VersionOrder(VersionOf(chain[0]), VersionOf(chain[0]), VersionOf(chain[0]));
    if i > 0 {
      ChainRises(replace, chain, i - 1);
      assert UpEntry(replace, chain[i - 1], chain[i]);
      VersionOrder(VersionOf(chain[0]), VersionOf(chain[i - 1]), VersionOf(chain[i]));
    }
  }

  lemma {:induction false} DownChainFalls(replace: ReplaceMap, latest: string, chain: seq<string>, i: nat)
    requires ThreeParts(latest) && DownChain(replace, latest, chain) && ThreeParts(VersionOf(chain[0])) && i < |chain|
    ensures ThreeParts(VersionOf(chain[i]))
    ensures AtMost(VersionOf(chain[i]), VersionOf(chain[0]))
    ensures i > 0 ==> Older(VersionOf(chain[i]), VersionOf(chain[0])) && AtMost(latest, VersionOf(chain[i]))
  {
    VersionOrder(VersionOf(chain[0]), VersionOf(chain[0]), VersionOf(chain[0]));
    if i > 0 {
      DownChainFalls(replace, latest, chain, i - 1);
      assert DownEntry(replace, latest, chain[i - 1], chain[i]);
      VersionOrder(VersionOf(chain[i]), VersionOf(chain[i - 1]), VersionOf(chain[0]));
    }
  }

  // ----- downgrade to a tree version -----

  lemma SameParts(replace: ReplaceMap, a: string, b: string, p: string, q: string)
    requires ThreeParts(a) && ThreeParts(b) && Parts(a) == Parts(b)
    ensures DownEntry(replace, a, p, q) == DownEntry(replace, b, p, q)
  {
  }

  /** Versions of three components always compare. */
  lemma ThreePartsCompare(a: string, w: string, latest: string)
    requires ThreeParts(a) && ThreeParts(w) && ThreeParts(latest)
    ensures !Breaks(a, w, latest) && (Leads(a, w, latest) <==> Older(w, a) && AtMost(latest, w))
    ensures (Breaks(a, w, "") <==> Older(w, a)) && !Leads(a, w, "")
  {
    DiffIsLex(Parts(a), Parts(w));
    DiffIsLex(Parts(w), Parts(a));
    DiffIsLex(Parts(w), Parts(latest));
    DiffIsLex(Parts(latest), Parts(w));
  }

  /** In a shaped map the entries followed are those that lead back within the bounds, and nothing panics. */
  lemma ShapedEntries(replace: ReplaceMap, latest: string, p: string, q: string)
    requires Shaped(replace) && ThreeParts(latest)
    ensures BackEntry(replace, Some(latest), p, q) <==> DownEntry(replace, latest, p, q)
    ensures !PanicEntry(replace, Some(latest), p, q)
  {
    if Filed(replace, VersionOf(p), q) { ThreePartsCompare(VersionOf(p), VersionOf(q), latest); }
  }

  /** Without a latest version nothing is followed, and every older entry panics. */
  lemma ShapedWithoutLatest(replace: ReplaceMap, p: string, q: string)
    requires Shaped(replace)
    ensures !BackEntry(replace, None, p, q)
    ensures PanicEntry(replace, None, p, q) <==> OlderEntry(replace, p, q)
  {
    if Filed(replace, VersionOf(p), q) { ThreePartsCompare(VersionOf(p), VersionOf(q), VersionOf(p)); }
  }

  lemma ShapedEnds(replace: ReplaceMap, latest: string, p: string, r: Outcome)
    requires Shaped(replace) && ThreeParts(latest) && Ends(replace, Some(latest), p, r)
    ensures r == Migrated(p) && Stuck(replace, latest, p)
  {
    forall q ensures !PanicEntry(replace, Some(latest), p, q) && (BackEntry(replace, Some(latest), p, q) <==> DownEntry(replace, latest, p, q)) {
      ShapedEntries(replace, latest, p, q);
    }
  }

  lemma DescendsToTarget(replace: ReplaceMap, latest: string, target: string, path: string, r: Outcome) returns (chain: seq<string>)
    requires Shaped(replace) && ThreeParts(latest) && ThreeParts(target) && Parts(latest) == Parts(target)
    requires Descends(replace, Some(latest), path, r)
    ensures DownChain(replace, target, chain) && chain[0] == path && Stuck(replace, target, Last(chain))
    ensures r == Migrated(Last(chain))
  {
    chain :| BackChain(replace, Some(latest), chain) && chain[0] == path && Ends(replace, Some(latest), Last(chain), r);
    forall i | 0 <= i < |chain| - 1 ensures DownEntry(replace, target, chain[i], chain[i + 1]) {
      assert BackEntry(replace, Some(latest), chain[i], chain[i + 1]);
      ShapedEntries(replace, latest, chain[i], chain[i + 1]);
      SameParts(replace, latest, target, chain[i], chain[i + 1]);
    }
    ShapedEnds(replace, latest, Last(chain), r);
    forall q ensures !DownEntry(replace, target, Last(chain), q) {
      SameParts(replace, latest, target, Last(chain), q);
    }
  }

  /** The chain a downgrade to a tree version follows; it ends where no entry leads on. */
  lemma DowngradeChain(path: string, target: string, keys: set<string>, replace: ReplaceMap, order: seq<string>, r: Outcome)
    returns (chain: seq<string>)
    requires Shaped(replace) && SortedKeys(replace, order) && TreeKeys(keys) && target in keys
    requires IsValidOperandVersion(VersionOf(path)) && IsValidOperandVersion(target) && Older(target, VersionOf(path))
    requires Migrates(path, target, keys, replace, order, r)
    ensures DownChain(replace, target, chain) && chain[0] == path && Stuck(replace, target, Last(chain))
    ensures r == Migrated(Last(chain))
  {
    var latest :| IsLatest(keys, target, latest) && Descends(replace, latest, path, r);
    LatestOfMember(keys, target, latest);
    chain := DescendsToTarget(replace, latest.value, target, path, r);
  }

  /** A downgrade to a tree version follows a chain of reversed entries and ends at or above the target. */
  lemma DowngradeBounds(path: string, target: string, keys: set<string>, replace: ReplaceMap, order: seq<string>, r: Outcome)
    requires Shaped(replace) && SortedKeys(replace, order) && TreeKeys(keys) && target in keys
    requires IsValidOperandVersion(VersionOf(path)) && IsValidOperandVersion(target) && Older(target, VersionOf(path))
    requires Migrates(path, target, keys, replace, order, r)
    ensures r.Migrated?
    ensures exists chain :: DownChain(replace, target, chain) && chain[0] == path && Last(chain) == r.path
    ensures Stuck(replace, target, r.path)
    ensures ThreeParts(VersionOf(r.path)) && AtMost(target, VersionOf(r.path)) && AtMost(VersionOf(r.path), VersionOf(path))
  {
    var chain := DowngradeChain(path, target, keys, replace, order, r);
    DownChainFalls(replace, target, chain, |chain| - 1);
    VersionOrder(target, VersionOf(path), target);
  }

  // ----- upgrade, then downgrade -----

  /** A downgrade to the version a rising chain starts from walks the chain back to its start. */
  lemma {:induction false} Unwind(replace: ReplaceMap, latest: string, up: seq<string>, down: seq<string>)
    requires WellFiled(replace) && UniqueDestinations(replace) && ThreeParts(latest)
    requires UpChain(replace, up) && ThreeParts(VersionOf(up[0])) && Parts(latest) == Parts(VersionOf(up[0]))
    requires DownChain(replace, latest, down) && down[0] == Last(up) && Stuck(replace, latest, Last(down))
    ensures Last(down) == up[0]
    decreases |up|
  {
    if |up| == 1 {
      if |down| > 1 { BelowStartIsClosed(replace, latest, up[0], down[1]); }
    } else {
      var prev := up[|up| - 2];
      assert UpEntry(replace, prev, Last(up));
      ChainRises(replace, up, |up| - 2);
      StepBack(replace, latest, up[0], prev, Last(up));
      DropFirst(replace, latest, down);
      OnlyWayBack(replace, latest, prev, Last(up), down[1]);
      Unwind(replace, latest, up[..|up| - 1], down[1..]);
    }
  }

  /** The entry that led up can be followed back. */
  lemma StepBack(replace: ReplaceMap, latest: string, start: string, p: string, q: string)
    requires WellFiled(replace) && UpEntry(replace, p, q) && ThreeParts(latest) && ThreeParts(VersionOf(start))
    requires ThreeParts(VersionOf(p)) && AtMost(VersionOf(start), VersionOf(p)) && Parts(latest) == Parts(VersionOf(start))
    ensures DownEntry(replace, latest, q, p)
  {
  }

  lemma OnlyWayBack(replace: ReplaceMap, latest: string, p: string, q: string, p': string)
    requires UniqueDestinations(replace) && UpEntry(replace, p, q) && ThreeParts(latest) && DownEntry(replace, latest, q, p')
    ensures p == p'
  {
  }

  lemma DropFirst(replace: ReplaceMap, latest: string, down: seq<string>)
    requires ThreeParts(latest) && DownChain(replace, latest, down) && Stuck(replace, latest, Last(down))
    requires !Stuck(replace, latest, down[0])
    ensures |down| > 1 && DownEntry(replace, latest, down[0], down[1])
    ensures DownChain(replace, latest, down[1..]) && Last(down[1..]) == Last(down)
  {
    var rest := down[1..];
    forall i | 0 <= i < |rest| - 1 ensures DownEntry(replace, latest, rest[i], rest[i + 1]) {
      assert DownEntry(replace, latest, down[i + 1], down[i + 2]);
    }
  }

  lemma BelowStartIsClosed(replace: ReplaceMap, latest: string, p: string, q: string)
    requires ThreeParts(latest) && ThreeParts(VersionOf(p)) && Parts(latest) == Parts(VersionOf(p))
    ensures !DownEntry(replace, latest, p, q)
  {
    if DownEntry(replace, latest, p, q) {
      VersionOrder(latest, VersionOf(q), latest);
    }
  }

  /** Migrating up to any newer version and back to the version of the path returns the path. Nothing is asked of the
      newer version beyond being well formed; in particular it may be missing from the tree. */
  lemma UpgradeThenDowngrade(path: string, newer: string, keys: set<string>, replace: ReplaceMap,
                             order: seq<string>, order': seq<string>, up: Outcome, back: Outcome)
    requires WellFiled(replace) && UniqueDestinations(replace) && TreeKeys(keys)
    requires SortedKeys(replace, order) && SortedKeys(replace, order')
    requires IsValidOperandVersion(VersionOf(path)) && VersionOf(path) in keys
    requires IsValidOperandVersion(newer) && Older(VersionOf(path), newer)
    requires Migrates(path, newer, keys, replace, order, up)
    ensures up.Migrated?
    ensures Migrates(up.path, VersionOf(path), keys, replace, order', back) ==> back == Migrated(path)
  {
    VersionOrder(VersionOf(path), newer, VersionOf(path));
    VersionOrder(VersionOf(path), VersionOf(path), VersionOf(path));
    assert Ascends(replace, order, path, newer, up);
    if up.path != path && Migrates(up.path, VersionOf(path), keys, replace, order', back) {
      var trail := AscentTrail(replace, order, path, newer, up);
      BackIsStart(path, trail, keys, replace, order', back);
    }
  }

  lemma AscentTrail(replace: ReplaceMap, order: seq<string>, path: string, target: string, r: Outcome) returns (trail: seq<string>)
    requires WellFiled(replace) && SortedKeys(replace, order) && ThreeParts(VersionOf(path))
    requires Ascends(replace, order, path, target, r)
    ensures UpChain(replace, trail) && trail[0] == path && r == Migrated(Last(trail))
  {
    var i :| StartsAt(order, VersionOf(path), i)
             && r == Migrated(if i < 0 then path else Climb(replace, order, i, path, target));
    if i < 0 {
      trail := [path];
    } else {
      trail := Trail(replace, order, i, path, target);
      TrailIsChain(replace, order, i, path, target);
      TrailEnds(replace, order, i, path, target);
    }
  }

  lemma BackIsStart(path: string, trail: seq<string>, keys: set<string>, replace: ReplaceMap, order: seq<string>, back: Outcome)
    requires WellFiled(replace) && UniqueDestinations(replace) && TreeKeys(keys) && SortedKeys(replace, order)
    requires IsValidOperandVersion(VersionOf(path)) && VersionOf(path) in keys
    requires UpChain(replace, trail) && trail[0] == path && Last(trail) != path
    requires Migrates(Last(trail), VersionOf(path), keys, replace, order, back)
    ensures back == Migrated(path)
  {
    ChainRises(replace, trail, |trail| - 1);
    var down := DowngradeChain(Last(trail), VersionOf(path), keys, replace, order, back);
    Unwind(replace, VersionOf(path), trail, down);
  }

  // ----- the result lies between source and target -----

  lemma {:induction false} ClimbStaysBelow(replace: ReplaceMap, order: seq<string>, i: nat, path: string, target: string)
    requires WellFiled(replace) && ThreeParts(target) && NoJump(replace, target) && forall v :: v in order ==> v in replace
    requires ThreeParts(VersionOf(path)) && AtMost(VersionOf(path), target)
    requires Parts(VersionOf(path)) == Parts(target) ==> VersionOf(path) == target
    ensures var q := Climb(replace, order, i, path, target);
            && ThreeParts(VersionOf(q)) && AtMost(VersionOf(q), target)
            && (Parts(VersionOf(q)) == Parts(target) ==> VersionOf(q) == target)
    decreases |order| - i
  {
    if VersionOf(path) != target && i < |order| {
      var v := order[i];
      assert v in replace;
      VersionOrder(VersionOf(path), target, VersionOf(path));
      VersionOrder(target, VersionOf(path), target);
      if Filed(replace, v, path) { VersionOrder(v, target, v); }
      ClimbStaysBelow(replace, order, i + 1, UpStep(replace, v, path), target);
    }
  }

  /** An upgrade follows a chain of entries with rising versions and, when no entry jumps over the target, ends at
      or below the target. */
  lemma UpgradeBounds(path: string, target: string, keys: set<string>, replace: ReplaceMap, order: seq<string>, r: Outcome)
    requires WellFiled(replace) && SortedKeys(replace, order)
    requires IsValidOperandVersion(VersionOf(path)) && IsValidOperandVersion(target) && Older(VersionOf(path), target)
    requires Migrates(path, target, keys, replace, order, r)
    ensures r.Migrated?
    ensures exists chain :: UpChain(replace, chain) && chain[0] == path && Last(chain) == r.path
    ensures ThreeParts(VersionOf(r.path)) && AtMost(VersionOf(path), VersionOf(r.path))
    ensures NoJump(replace, target) ==> AtMost(VersionOf(r.path), target)
  {
    UpgradeAscends(path, target, keys, replace, order, r);
    var trail := AscentTrail(replace, order, path, target, r);
    ChainRises(replace, trail, |trail| - 1);
    if NoJump(replace, target) { AscentStaysBelow(replace, order, path, target, r); }
  }

  lemma UpgradeAscends(path: string, target: string, keys: set<string>, replace: ReplaceMap, order: seq<string>, r: Outcome)
    requires Keyed(replace) && SortedKeys(replace, order)
    requires IsValidOperandVersion(VersionOf(path)) && IsValidOperandVersion(target) && Older(VersionOf(path), target)
    ensures Migrates(path, target, keys, replace, order, r) <==> Ascends(replace, order, path, target, r)
  {
    VersionOrder(VersionOf(path), target, VersionOf(path));
  }

  lemma AscentStaysBelow(replace: ReplaceMap, order: seq<string>, path: string, target: string, r: Outcome)
    requires WellFiled(replace) && SortedKeys(replace, order) && ThreeParts(target) && NoJump(replace, target)
    requires ThreeParts(VersionOf(path)) && Older(VersionOf(path), target) && Ascends(replace, order, path, target, r)
    ensures r.Migrated? && ThreeParts(VersionOf(r.path)) && AtMost(VersionOf(r.path), target)
    ensures Parts(VersionOf(r.path)) == Parts(target) ==> VersionOf(r.path) == target
  {
    VersionOrder(VersionOf(path), target, VersionOf(path));
    var i :| StartsAt(order, VersionOf(path), i)
             && r == Migrated(if i < 0 then path else Climb(replace, order, i, path, target));
    if i >= 0 { ClimbStaysBelow(replace, order, i, path, target); }
  }

  // ----- migrating again changes nothing -----

  lemma LongChainMoves(replace: ReplaceMap, latest: string, chain: seq<string>)
    requires ThreeParts(latest) && DownChain(replace, latest, chain) && |chain| > 1
    ensures !Stuck(replace, latest, chain[0])
  {
    assert DownEntry(replace, latest, chain[0], chain[1]);
  }

  /** Downgrading again to the same target changes nothing exactly when the version of the result is a valid operand version;
      otherwise the second migration is refused. */
  lemma DowngradeIdempotent(path: string, target: string, keys: set<string>, replace: ReplaceMap,
                            order: seq<string>, order': seq<string>, r: Outcome, again: Outcome)
    requires Shaped(replace) && SortedKeys(replace, order) && SortedKeys(replace, order')
    requires TreeKeys(keys) && target in keys
    requires IsValidOperandVersion(VersionOf(path)) && IsValidOperandVersion(target) && Older(target, VersionOf(path))
    requires Migrates(path, target, keys, replace, order, r)
    ensures r.Migrated?
    ensures Migrates(r.path, target, keys, replace, order', again) ==>
              again == if IsValidOperandVersion(VersionOf(r.path)) then r else NoUpgradePath
  {
    DowngradeBounds(path, target, keys, replace, order, r);
    if IsValidOperandVersion(VersionOf(r.path)) && Migrates(r.path, target, keys, replace, order', again) {
      StuckStays(r.path, target, keys, replace, order', again);
    }
  }

  lemma StuckStays(p: string, target: string, keys: set<string>, replace: ReplaceMap, order: seq<string>, again: Outcome)
    requires Shaped(replace) && SortedKeys(replace, order) && TreeKeys(keys) && target in keys
    requires IsValidOperandVersion(VersionOf(p)) && IsValidOperandVersion(target) && AtMost(target, VersionOf(p))
    requires Stuck(replace, target, p) && Migrates(p, target, keys, replace, order, again)
    ensures again == Migrated(p)
  {
    VersionOrder(target, VersionOf(p), target);
    if Older(target, VersionOf(p)) {
      var chain := DowngradeChain(p, target, keys, replace, order, again);
      if |chain| > 1 { LongChainMoves(replace, target, chain); }
    }
  }

  /** No key newer than the path, among the first n, holds an entry that starts at the path. */
  ghost predicate Exhausted(replace: ReplaceMap, order: seq<string>, n: nat, path: string)
    requires ThreeParts(VersionOf(path))
  {
    forall j :: 0 <= j < n && j < |order| && ThreeParts(order[j]) && Older(VersionOf(path), order[j]) ==>
      !Filed(replace, order[j], path)
  }

  lemma MovedIsExhausted(replace: ReplaceMap, order: seq<string>, i: nat, path: string)
    requires Shaped(replace) && SortedKeys(replace, order) && i < |order| && VersionOf(path) == order[i] && ThreeParts(order[i])
    ensures Exhausted(replace, order, i + 1, path)
  {
    forall j | 0 <= j <= i && ThreeParts(order[j]) ensures !Older(order[i], order[j]) {
      VersionOrder(order[j], order[i], order[j]);
      VersionOrder(order[i], order[i], order[i]);
    }
  }

  lemma {:induction false} ClimbExhausts(replace: ReplaceMap, order: seq<string>, i: nat, path: string, target: string)
    requires WellFiled(replace) && SortedKeys(replace, order) && ThreeParts(VersionOf(path)) && i <= |order|
    requires Exhausted(replace, order, i, path)
    ensures var q := Climb(replace, order, i, path, target);
            ThreeParts(VersionOf(q)) && (VersionOf(q) != target ==> Exhausted(replace, order, |order|, q))
    decreases |order| - i
  {
    if VersionOf(path) != target && i < |order| {
      var v := order[i];
      assert v in replace;
      var next := UpStep(replace, v, path);
      if Filed(replace, v, path) { MovedIsExhausted(replace, order, i, next); }
      ClimbExhausts(replace, order, i + 1, next, target);
    }
  }

  lemma {:induction false} ClimbStays(replace: ReplaceMap, order: seq<string>, i: nat, path: string, target: string)
    requires WellFiled(replace) && SortedKeys(replace, order) && ThreeParts(VersionOf(path))
    requires Exhausted(replace, order, |order|, path)
    ensures Climb(replace, order, i, path, target) == path
    decreases |order| - i
  {
    if VersionOf(path) != target && i < |order| {
      assert order[i] in replace;
      assert !Filed(replace, order[i], path);
      ClimbStays(replace, order, i + 1, path, target);
    }
  }

  lemma UpgradeIdempotent(path: string, target: string, keys: set<string>, replace: ReplaceMap,
                          order: seq<string>, order': seq<string>, r: Outcome, again: Outcome)
    requires WellFiled(replace) && SortedKeys(replace, order) && SortedKeys(replace, order')
    requires IsValidOperandVersion(VersionOf(path)) && IsValidOperandVersion(target) && Older(VersionOf(path), target)
    requires NoJump(replace, target)
    requires Migrates(path, target, keys, replace, order, r) && r.Migrated?
    requires Migrates(r.path, target, keys, replace, order', again)
    ensures again == r
  {
    VersionOrder(VersionOf(path), target, VersionOf(path));
    assert Ascends(replace, order, path, target, r);
    AscentStaysBelow(replace, order, path, target, r);
    AscentIsValid(replace, order, path, target, r);
    VersionOrder(VersionOf(r.path), target, VersionOf(r.path));
    VersionOrder(target, VersionOf(r.path), target);
    if Older(VersionOf(r.path), target) {
      VersionOrder(target, target, target);
      AscentExhausts(replace, order, path, target, r);
      SameExhausted(replace, order, order', r.path);
      AscentStays(replace, order', r.path, target, again);
    }
  }

  lemma AscentIsValid(replace: ReplaceMap, order: seq<string>, path: string, target: string, r: Outcome)
    requires WellFiled(replace) && SortedKeys(replace, order) && IsValidOperandVersion(VersionOf(path))
    requires Ascends(replace, order, path, target, r)
    ensures r.Migrated? && IsValidOperandVersion(VersionOf(r.path))
  {
    var trail := AscentTrail(replace, order, path, target, r);
    ChainEnd(replace, trail, IsValidOperandVersion);
  }

  /** The end of a chain has a version that entries are filed under, unless it is the start. */
  lemma ChainEnd(replace: ReplaceMap, chain: seq<string>, good: string -> bool)
    requires UpChain(replace, chain) && good(VersionOf(chain[0]))
    requires forall v, p {:trigger Filed(replace, v, p)} :: Filed(replace, v, p) ==> good(v)
    ensures good(VersionOf(Last(chain)))
  {
    var n := |chain| - 1;
    if n > 0 { assert UpEntry(replace, chain[n - 1], chain[n]); }
  }

  lemma AscentExhausts(replace: ReplaceMap, order: seq<string>, path: string, target: string, r: Outcome)
    requires WellFiled(replace) && SortedKeys(replace, order) && ThreeParts(VersionOf(path))
    requires Ascends(replace, order, path, target, r) && VersionOf(r.path) != target
    ensures ThreeParts(VersionOf(r.path)) && Exhausted(replace, order, |order|, r.path)
  {
    var i :| StartsAt(order, VersionOf(path), i)
             && r == Migrated(if i < 0 then path else Climb(replace, order, i, path, target));
    if i >= 0 {
      assert Exhausted(replace, order, i, path);
      ClimbExhausts(replace, order, i, path, target);
    }
  }

  lemma AscentStays(replace: ReplaceMap, order: seq<string>, path: string, target: string, r: Outcome)
    requires WellFiled(replace) && SortedKeys(replace, order) && ThreeParts(VersionOf(path))
    requires Exhausted(replace, order, |order|, path) && Ascends(replace, order, path, target, r)
    ensures r == Migrated(path)
  {
    var i :| StartsAt(order, VersionOf(path), i)
             && r == Migrated(if i < 0 then path else Climb(replace, order, i, path, target));
    if i >= 0 { ClimbStays(replace, order, i, path, target); }
  }

  lemma SameExhausted(replace: ReplaceMap, order: seq<string>, order': seq<string>, path: string)
    requires Shaped(replace) && SortedKeys(replace, order) && SortedKeys(replace, order') && ThreeParts(VersionOf(path))
    requires Exhausted(replace, order, |order|, path)
    ensures Exhausted(replace, order', |order'|, path)
  {
    forall j | 0 <= j < |order'| && ThreeParts(order'[j]) && Older(VersionOf(path), order'[j])
      ensures !Filed(replace, order'[j], path)
    {
      var v := order'[j];
      assert v in replace && v in order;
    }
  }

  // ----- panics -----

  /** Every entry starts at a version of three components, or at the empty one. */
  ghost predicate Loose(replace: ReplaceMap) {
    && Keyed(replace)
    && (forall v, p {:trigger Filed(replace, v, p)} :: Filed(replace, v, p) ==> LooseVersion(VersionOf(p)))
  }

  predicate LooseVersion(v: string) { v == "" || ThreeParts(v) }

  /** An entry with an empty start leads to the path. */
  ghost predicate EmptyStart(replace: ReplaceMap, p: string) { exists q :: Matches(replace, p, q) && VersionOf(q) == "" }

  /** The downgrade panics at p: on an empty start, or, with no tree version at or below the target, on any older entry. */
  ghost predicate PanicsAt(replace: ReplaceMap, latest: Option<string>, p: string) {
    EmptyStart(replace, p) || (latest.None? && exists q :: OlderEntry(replace, p, q))
  }

  /** Entries lead back from the path to one where the downgrade panics. */
  ghost predicate ReachesPanic(replace: ReplaceMap, latest: Option<string>, path: string) {
    exists chain :: BackChain(replace, latest, chain) && chain[0] == path && PanicsAt(replace, latest, Last(chain))
  }

  lemma PanicEntryExactly(replace: ReplaceMap, latest: Option<string>, p: string, q: string)
    requires Loose(replace) && (latest.Some? ==> ThreeParts(latest.value))
    ensures PanicEntry(replace, latest, p, q)
            <==> Matches(replace, p, q) && (VersionOf(q) == "" || (latest.None? && OlderEntry(replace, p, q)))
  {
    if Filed(replace, VersionOf(p), q) && VersionOf(q) != "" {
      ThreePartsCompare(VersionOf(p), VersionOf(q), if latest.Some? then latest.value else VersionOf(p));
    }
  }

  lemma PanicsAtExactly(replace: ReplaceMap, latest: Option<string>, p: string)
    requires Loose(replace) && (latest.Some? ==> ThreeParts(latest.value))
    ensures Ends(replace, latest, p, Panicked) <==> PanicsAt(replace, latest, p)
  {
    forall q ensures PanicEntry(replace, latest, p, q)
                     <==> Matches(replace, p, q) && (VersionOf(q) == "" || (latest.None? && OlderEntry(replace, p, q))) {
      PanicEntryExactly(replace, latest, p, q);
    }
  }

  lemma DescentPanicsExactly(replace: ReplaceMap, latest: Option<string>, path: string)
    requires Loose(replace) && (latest.Some? ==> ThreeParts(latest.value))
    ensures Descends(replace, latest, path, Panicked) <==> ReachesPanic(replace, latest, path)
  {
    forall p ensures Ends(replace, latest, p, Panicked) <==> PanicsAt(replace, latest, p) { PanicsAtExactly(replace, latest, p); }
  }

  /** Some iteration order makes a downgrade panic exactly when entries lead back from the path to one with an empty start,
      or when there is no tree version at or below the target and some older entry leads to the path. */
  lemma DowngradePanicsExactly(path: string, target: string, keys: set<string>, replace: ReplaceMap, order: seq<string>)
    requires Loose(replace) && SortedKeys(replace, order)
    requires IsValidOperandVersion(VersionOf(path)) && IsValidOperandVersion(target) && Older(target, VersionOf(path))
    ensures Migrates(path, target, keys, replace, order, Panicked)
            <==> exists latest :: IsLatest(keys, target, latest) && ReachesPanic(replace, latest, path)
  {
    forall latest | IsLatest(keys, target, latest)
      ensures Descends(replace, latest, path, Panicked) <==> ReachesPanic(replace, latest, path)
    {
      DescentPanicsExactly(replace, latest, path);
    }
  }

  lemma BackChainStarts(replace: ReplaceMap, latest: Option<string>, chain: seq<string>)
    requires BackChain(replace, latest, chain)
    ensures |chain| == 1 || exists q :: BackEntry(replace, latest, chain[0], q)
  {
    if |chain| > 1 { assert BackEntry(replace, latest, chain[0], chain[1]); }
  }

  /** When an empty start is the only entry that leads to the path, every downgrade panics, whatever the target. */
  lemma EmptyStartPanics(path: string, target: string, keys: set<string>, replace: ReplaceMap, order: seq<string>, r: Outcome)
    requires Keyed(replace) && SortedKeys(replace, order) && EmptyStart(replace, path)
    requires forall q :: Matches(replace, path, q) ==> VersionOf(q) == ""
    requires IsValidOperandVersion(VersionOf(path)) && IsValidOperandVersion(target) && Older(target, VersionOf(path))
    requires Migrates(path, target, keys, replace, order, r)
    ensures r == Panicked
  {
    var latest :| IsLatest(keys, target, latest) && Descends(replace, latest, path, r);
    var chain :| BackChain(replace, latest, chain) && chain[0] == path && Ends(replace, latest, Last(chain), r);
    BackChainStarts(replace, latest, chain);
    var q :| Matches(replace, path, q) && VersionOf(q) == "";
    assert PanicEntry(replace, latest, path, q);
  }

  /** With unique destinations the iteration order does not matter: the outcomes for one latest version agree. */
  lemma {:induction false} ChainsAgree(replace: ReplaceMap, latest: Option<string>, a: seq<string>, b: seq<string>, r: Outcome, s: Outcome)
    requires UniqueDestinations(replace) && BackChain(replace, latest, a) && BackChain(replace, latest, b) && a[0] == b[0]
    requires Ends(replace, latest, Last(a), r) && Ends(replace, latest, Last(b), s)
    ensures r == s
    decreases |a|
  {
    if |a| == 1 && |b| == 1 {
      OneEnd(replace, latest, a[0], r, s);
    } else if |a| == 1 {
      assert BackEntry(replace, latest, b[0], b[1]);
      NotBoth(replace, latest, a[0], b[1], r);
    } else if |b| == 1 {
      assert BackEntry(replace, latest, a[0], a[1]);
      NotBoth(replace, latest, b[0], a[1], s);
    } else {
      assert BackEntry(replace, latest, a[0], a[1]) && BackEntry(replace, latest, b[0], b[1]);
      assert a[1] == b[1];
      TailOfChain(replace, latest, a);
      TailOfChain(replace, latest, b);
      ChainsAgree(replace, latest, a[1..], b[1..], r, s);
    }
  }

  lemma TailOfChain(replace: ReplaceMap, latest: Option<string>, a: seq<string>)
    requires BackChain(replace, latest, a) && |a| > 1
    ensures BackChain(replace, latest, a[1..]) && Last(a[1..]) == Last(a)
  {
    var rest := a[1..];
    forall i | 0 <= i < |rest| - 1 ensures BackEntry(replace, latest, rest[i], rest[i + 1]) {
      assert BackEntry(replace, latest, a[i + 1], a[i + 2]);
    }
  }

  lemma NotBoth(replace: ReplaceMap, latest: Option<string>, p: string, q: string, r: Outcome)
    requires UniqueDestinations(replace) && BackEntry(replace, latest, p, q)
    ensures !Ends(replace, latest, p, r)
  {
    forall q' | PanicEntry(replace, latest, p, q') ensures q' == q { }
    LeadsOrBreaks(VersionOf(p), VersionOf(q), Spelled(latest));
  }

  lemma LeadsOrBreaks(current: string, w: string, latest: string)
    ensures !(Leads(current, w, latest) && Breaks(current, w, latest))
  {
  }

  lemma OneEnd(replace: ReplaceMap, latest: Option<string>, p: string, r: Outcome, s: Outcome)
    requires Ends(replace, latest, p, r) && Ends(replace, latest, p, s)
    ensures r == s
  {
  }

  /** So with unique destinations, and tree keys that compare distinct, a downgrade has one outcome. */
  lemma DowngradeIsDeterministic(path: string, target: string, keys: set<string>, replace: ReplaceMap,
                                 order: seq<string>, order': seq<string>, r: Outcome, s: Outcome)
    requires Keyed(replace) && UniqueDestinations(replace) && SortedKeys(replace, order) && SortedKeys(replace, order')
    requires forall k, l :: k in keys && l in keys && ThreeParts(k) && ThreeParts(l) && Parts(k) == Parts(l) ==> k == l
    requires IsValidOperandVersion(VersionOf(path)) && IsValidOperandVersion(target) && Older(target, VersionOf(path))
    requires Migrates(path, target, keys, replace, order, r) && Migrates(path, target, keys, replace, order', s)
    ensures r == s
  {
    var l :| IsLatest(keys, target, l) && Descends(replace, l, path, r);
    var m :| IsLatest(keys, target, m) && Descends(replace, m, path, s);
    LatestUnique(keys, target, l, m);
    var a :| BackChain(replace, l, a) && a[0] == path && Ends(replace, l, Last(a), r);
    var b :| BackChain(replace, l, b) && b[0] == path && Ends(replace, l, Last(b), s);
    ChainsAgree(replace, l, a, b, r, s);
  }

  /** In a shaped map every outcome is a panic exactly when there is no tree version at or below the target and some older
      entry leads to the path. */
  lemma ShapedPanicsExactly(path: string, target: string, keys: set<string>, replace: ReplaceMap, order: seq<string>, r: Outcome)
    requires Shaped(replace) && SortedKeys(replace, order)
    requires IsValidOperandVersion(VersionOf(path)) && IsValidOperandVersion(target) && Older(target, VersionOf(path))
    requires Migrates(path, target, keys, replace, order, r)
    ensures r == Panicked <==> IsLatest(keys, target, None) && exists q :: OlderEntry(replace, path, q)
  {
    var latest :| IsLatest(keys, target, latest) && Descends(replace, latest, path, r);
    if latest.Some? {
      var chain := DescendsToTarget(replace, latest.value, latest.value, path, r);
    } else {
      DescendsNowhere(replace, path, r);
    }
  }

  /** With no latest version the downgrade does not move. */
  lemma DescendsNowhere(replace: ReplaceMap, path: string, r: Outcome)
    requires Shaped(replace) && Descends(replace, None, path, r)
    ensures r == if exists q :: OlderEntry(replace, path, q) then Panicked else Migrated(path)
  {
    var chain :| BackChain(replace, None, chain) && chain[0] == path && Ends(replace, None, Last(chain), r);
    forall p, q ensures !BackEntry(replace, None, p, q) && (PanicEntry(replace, None, p, q) <==> OlderEntry(replace, p, q)) {
      ShapedWithoutLatest(replace, p, q);
    }
    BackChainStarts(replace, None, chain);
  }

  // ----- an instance -----

  /** A replace map with one entry between any two versions is well filed with unique destinations, and an upgrade to the
      newer version takes the entry. */
  lemma OneEntryMoves(u: string, v: string, x: string, keys: set<string>, r: Outcome)
    requires IsValidOperandVersion(u) && IsValidOperandVersion(v) && Older(u, v) && '.' !in u && '.' !in v
    ensures var p, q := u + "." + x, v + "." + x;
            var replace := map[v := map[p := q]];
            && WellFiled(replace) && UniqueDestinations(replace) && NoJump(replace, v) && SortedKeys(replace, [v])
            && (Migrates(p, v, keys, replace, [v], r) <==> r == Migrated(q))
  {
    var p, q := u + "." + x, v + "." + x;
    var replace := map[v := map[p := q]];
    SplitHead(u, '.', x);
    SplitHead(v, '.', x);
    assert p == u + ['.'] + x && q == v + ['.'] + x;
    assert VersionOf(p) == u && VersionOf(q) == v;
    OneEntryFiled(u, v, p, q);
    VersionOrder(u, v, u);
    OneEntryAscends(u, v, p, q, r);
  }

  lemma OneEntryFiled(u: string, v: string, p: string, q: string)
    requires IsValidOperandVersion(u) && IsValidOperandVersion(v) && Older(u, v) && VersionOf(p) == u && VersionOf(q) == v
    ensures var replace := map[v := map[p := q]];
            WellFiled(replace) && UniqueDestinations(replace) && NoJump(replace, v) && SortedKeys(replace, [v])
  {
    var replace := map[v := map[p := q]];
    assert forall w, s {:trigger Filed(replace, w, s)} :: Filed(replace, w, s) ==> w == v && s == p;
    VersionOrder(v, v, v);
  }

  lemma OneEntryAscends(u: string, v: string, p: string, q: string, r: Outcome)
    requires ThreeParts(u) && ThreeParts(v) && Older(u, v) && VersionOf(p) == u && VersionOf(q) == v
    requires Shaped(map[v := map[p := q]]) && SortedKeys(map[v := map[p := q]], [v])
    ensures Ascends(map[v := map[p := q]], [v], p, v, r) <==> r == Migrated(q)
  {
    var replace := map[v := map[p := q]];
    VersionOrder(u, v, u);
    assert Climb(replace, [v], 1, q, v) == q;
    assert Climb(replace, [v], 0, p, v) == q;
    assert StartsAt([v], u, 0);
  }
}
