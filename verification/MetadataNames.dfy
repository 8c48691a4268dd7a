/** The name (suffix) of a shared LTPA resource: getLTPAMetadataName in internal/controller/ltpa_keys_sharing.go. */
module MetadataNames {
  import opened Text
  import opened DecisionTree
  import opened LeaderTrackers

  const SUFFIX_LENGTH: nat := 5

  /** IsLowerAlphanumericSuffix. */
  predicate IsLowerAlphanumeric(s: string) {
    forall i :: 0 <= i < |s| ==> IsDigit(s[i]) || 'a' <= s[i] <= 'z'
  }

  /** What GetRandomLowerAlphanumericSuffix can return. */
  predicate IsRandomSuffix(s: string) {
    |s| == SUFFIX_LENGTH + 1 && s[0] == '-' && IsLowerAlphanumeric(s[1..])
  }

  /** A predetermined suffix that is well formed and does not occur in the names column. */
  predicate Usable(names: string, suffix: string) {
    |suffix| == SUFFIX_LENGTH && IsLowerAlphanumeric(suffix) && !Contains(names, suffix)
  }

  /** The search loop: draws random suffixes until the current one does not occur in the names column and some suffix
      drawn so far was missing from the cluster. None when the supply of draws runs out first. */
  function Draw(names: string, draws: seq<string>, cluster: set<string>, k: nat, foundInCluster: bool): Option<string>
    requires k < |draws|
    decreases |draws| - k
  {
    if !(Contains(names, draws[k]) || foundInCluster) then Some(draws[k])
    else if k + 1 == |draws| then None
    else Draw(names, draws, cluster, k + 1, foundInCluster && draws[k + 1] in cluster)
  }

  /** The first usable predetermined suffix. */
  function FirstUsable(names: string, suffixes: seq<string>): (r: Option<string>)
    ensures r.Some? ==> Usable(names, r.value)
  {
    if suffixes == [] then None
    else if Usable(names, suffixes[0]) then Some(suffixes[0])
    else FirstUsable(names, suffixes[1..])
  }

  function Predetermined(names: string, suffixes: Option<string>): (r: Option<string>)
    ensures r.Some? ==> Usable(names, r.value)
  {
    if suffixes.Some? then FirstUsable(names, Split(suffixes.value, ',')) else None
  }

  /** The name of a tracked path; otherwise the first usable predetermined suffix; otherwise a random one. */
  function NameFor(data: Data, validSubPath: string, predetermined: Option<string>, draws: seq<string>, cluster: set<string>): Option<string>
    requires draws != []
  {
    var loc := FirstIndex(Split(Field0(data, Path), ','), validSubPath);
    var names := Field0(data, Name);
    if loc != -1 then Some(ElementAt(names, loc))
    else if Predetermined(names, predetermined).Some? then Some("-" + Predetermined(names, predetermined).value)
    else Draw(names, draws, cluster, 0, true)
  }

  /** `draws` is what the random generator delivers, `cluster` the suffixes whose key Secret exists in the namespace: the
      signature the lookup uses is that of the keys, for the names of configurations too. */
  method GetLTPAMetadataName(data: Data, validSubPath: string, predetermined: Option<string>,
                             draws: seq<string>, cluster: set<string>) returns (r: Option<string>)
    requires draws != [] && forall i :: 0 <= i < |draws| ==> IsRandomSuffix(draws[i])
    ensures r == NameFor(data, validSubPath, predetermined, draws, cluster)
    ensures FirstIndex(Split(Field0(data, Path), ','), validSubPath) == -1 && r.Some?
            ==> !Contains(Field0(data, Name), r.value) && IsRandomSuffix(r.value)
  {
    var names := Field0(data, Name);
    var loc := CommaSeparatedStringContains(Field0(data, Path), validSubPath);
    if loc != -1 {
      var suffix := GetCommaSeparatedString(names, loc);
      return Some(suffix);
    }
    if predetermined.Some? {
      CommaArrayIsSplit(predetermined.value);
      var suffixes := CommaArray(predetermined.value);
      assert suffixes[0..] == suffixes;
      for i := 0 to |suffixes|
        invariant FirstUsable(names, suffixes) == FirstUsable(names, suffixes[i..])
      {
        assert suffixes[i..][0] == suffixes[i] && suffixes[i..][1..] == suffixes[i + 1..];
        var suffix := suffixes[i];
        if Usable(names, suffix) {
          LongerIsAbsent(names, suffix);
          return Some("-" + suffix);
        }
      }
    }
    r := SearchRandomSuffix(names, draws, cluster);
  }

  method SearchRandomSuffix(names: string, draws: seq<string>, cluster: set<string>) returns (r: Option<string>)
    requires draws != [] && forall i :: 0 <= i < |draws| ==> IsRandomSuffix(draws[i])
    ensures r == Draw(names, draws, cluster, 0, true)
    ensures r.Some? ==> !Contains(names, r.value) && IsRandomSuffix(r.value)
  {
    var k := 0;
    var randomSuffix := draws[0];
    var suffixFoundInCluster := true;
    while Contains(names, randomSuffix) || suffixFoundInCluster
      invariant k < |draws| && randomSuffix == draws[k]
      invariant Draw(names, draws, cluster, 0, true) == Draw(names, draws, cluster, k, suffixFoundInCluster)
      decreases |draws| - k
    {
      if k + 1 == |draws| { return None; }
      k := k + 1;
      randomSuffix := draws[k];
      if randomSuffix !in cluster {
        suffixFoundInCluster := false;
      }
    }
    r := Some(randomSuffix);
  }

  lemma LongerIsAbsent(names: string, suffix: string)
    requires !Contains(names, suffix)
    ensures !Contains(names, "-" + suffix)
  {
    forall i | 0 <= i <= |names| && OccursAt(names, "-" + suffix, i) ensures OccursAt(names, suffix, i + 1) {
      assert names[i + 1..i + 1 + |suffix|] == names[i..i + 1 + |suffix|][1..];
    }
  }

  // ----- names against the stored list -----

  /** A name handed out for a path that is not tracked differs from every tracked name. */
  lemma NewNameIsNew(ts: seq<Tracker>, name: string)
    requires !Contains(Field0(Encode(ts), Name), name)
    ensures forall i :: 0 <= i < |ts| ==> ts[i].name != name
  {
    forall i | 0 <= i < |ts| ensures ts[i].name != name {
      ElementOccurs(Column(ts, Name), i, ',');
    }
  }

  lemma EncodedColumn(ts: seq<Tracker>, f: Field)
    requires AllCommaFree(ts) && ts != []
    ensures Split(Field0(Encode(ts), f), ',') == Column(ts, f)
  {
    ColumnSplits(ts, f);
  }

  /** The column lookup finds the name of the first tracker with a path, and nothing for a path not tracked; only in an
      empty list it takes the empty path for tracked, under the empty name. */
  lemma LookupByPath(ts: seq<Tracker>, path: string, loc: int)
    requires AllCommaFree(ts)
    requires loc == FirstIndex(Split(Field0(Encode(ts), Path), ','), path)
    ensures loc == -1 <==> (forall i :: 0 <= i < |ts| ==> ts[i].path != path) && !(ts == [] && path == "")
    ensures loc != -1 && ts != [] ==> loc < |ts| && ts[loc].path == path && ElementAt(Field0(Encode(ts), Name), loc) == ts[loc].name
    ensures loc != -1 && ts == [] ==> ElementAt(Field0(Encode(ts), Name), loc) == ""
    ensures forall i :: 0 <= i < loc && i < |ts| ==> ts[i].path != path
  {
    if ts != [] {
      EncodedColumn(ts, Path);
      FoundInColumn(ts, path, loc);
      if loc != -1 { NameAt(ts, loc); }
    } else {
      assert Split(Field0(Encode(ts), Path), ',') == [""];
    }
  }

  lemma FoundInColumn(ts: seq<Tracker>, path: string, loc: int)
    requires loc == FirstIndex(Column(ts, Path), path)
    ensures loc == -1 <==> forall i :: 0 <= i < |ts| ==> ts[i].path != path
    ensures loc != -1 ==> loc < |ts| && ts[loc].path == path
    ensures forall i :: 0 <= i < loc && i < |ts| ==> ts[i].path != path
  {
    FirstIndexIsFirst(Column(ts, Path), path);
    assert forall i :: 0 <= i < |ts| ==> Column(ts, Path)[i] == ts[i].path;
  }

  lemma NameAt(ts: seq<Tracker>, loc: nat)
    requires AllCommaFree(ts) && loc < |ts|
    ensures ElementAt(Field0(Encode(ts), Name), loc) == ts[loc].name
  {
    EncodedColumn(ts, Name);
  }

  lemma FirstIndexIsFirst(s: seq<string>, x: string)
    ensures FirstIndex(s, x) == -1 <==> forall i :: 0 <= i < |s| ==> s[i] != x
    ensures forall i :: 0 <= i < FirstIndex(s, x) ==> s[i] != x
  {
    forall i | 0 <= i < FirstIndex(s, x) ensures s[i] != x {
      assert s[..FirstIndex(s, x)][i] == s[i];
    }
  }

  // ----- is the Secret of a drawn name free in the cluster? -----

  lemma {:induction false} DrawTakesAFreeOne(names: string, draws: seq<string>, cluster: set<string>, k: nat, found: bool)
    requires k < |draws| && Draw(names, draws, cluster, k, found).Some?
    ensures var r := Draw(names, draws, cluster, k, found).value;
            !Contains(names, r) && r in draws[k..] &&
            (found && r in cluster ==> exists a :: a in draws[k..] && a !in cluster && Contains(names, a))
    decreases |draws| - k
  {
    if Contains(names, draws[k]) || found {
      var next := draws[k + 1];
      var found' := found && next in cluster;
      DrawTakesAFreeOne(names, draws, cluster, k + 1, found');
      var r := Draw(names, draws, cluster, k, found).value;
      assert forall s :: s in draws[k + 1..] ==> s in draws[k..] by {
        assert draws[k + 1..] == draws[k..][1..];
      }
      if found && !found' && r in cluster {
        assert next in draws[k..];
        assert Contains(names, next) || r == next;
      }
    }
  }

  predicate RandomDraws(draws: seq<string>) {
    draws != [] && forall i :: 0 <= i < |draws| ==> IsRandomSuffix(draws[i])
  }

  predicate DrawsFreeName(names: string, cluster: set<string>, draws: seq<string>)
    requires draws != []
  {
    var r := Draw(names, draws, cluster, 0, true);
    r.Some? ==> r.value !in cluster
  }

  /** Every tracked suffix still exists in the cluster, or every suffix of the cluster is tracked. */
  ghost predicate InStep(names: string, cluster: set<string>) {
    || (forall a :: IsRandomSuffix(a) && Contains(names, a) ==> a in cluster)
    || (forall b :: IsRandomSuffix(b) && b in cluster ==> Contains(names, b))
  }

  /** The search never hands out a suffix that is in use in the cluster exactly when tracker and cluster are in step. */
  lemma DrawnNameIsFreeExactly(names: string, cluster: set<string>)
    ensures (forall draws :: RandomDraws(draws) ==> DrawsFreeName(names, cluster, draws)) <==> InStep(names, cluster)
  {
    if InStep(names, cluster) {
      forall draws | RandomDraws(draws) ensures DrawsFreeName(names, cluster, draws) {
        InStepDrawsFree(names, cluster, draws);
      }
    } else {
      var a :| IsRandomSuffix(a) && Contains(names, a) && a !in cluster;
      var b :| IsRandomSuffix(b) && b in cluster && !Contains(names, b);
      StaleFlag(names, cluster, a, b);
      assert RandomDraws([a, a, b]) && !DrawsFreeName(names, cluster, [a, a, b]);
    }
  }

  lemma InStepDrawsFree(names: string, cluster: set<string>, draws: seq<string>)
    requires InStep(names, cluster) && RandomDraws(draws)
    ensures DrawsFreeName(names, cluster, draws)
  {
    if Draw(names, draws, cluster, 0, true).Some? {
      DrawTakesAFreeOne(names, draws, cluster, 0, true);
    }
  }

  /** The flag is not raised again: after a missing but tracked suffix, one that exists in the cluster is accepted. */
  lemma StaleFlag(names: string, cluster: set<string>, a: string, b: string)
    requires Contains(names, a) && a !in cluster && b in cluster && !Contains(names, b)
    ensures Draw(names, [a, a, b], cluster, 0, true) == Some(b)
  {
    var draws := [a, a, b];
    assert Draw(names, draws, cluster, 2, false) == Some(b);
    assert Draw(names, draws, cluster, 1, false) == Draw(names, draws, cluster, 2, false);
  }

  // ----- is the name handed out free? -----

  /** Some supply of random suffixes makes the search end with b. */
  ghost predicate CanBeDrawn(names: string, cluster: set<string>, b: string) {
    exists draws :: RandomDraws(draws) && Draw(names, draws, cluster, 0, true) == Some(b)
  }

  /** A tracked suffix whose key Secret is missing: drawing it lowers the flag for good. */
  ghost predicate SomeMissing(names: string, cluster: set<string>) {
    exists a :: IsRandomSuffix(a) && Contains(names, a) && a !in cluster
  }

  lemma DrawnTwice(names: string, cluster: set<string>, b: string)
    requires !Contains(names, b) && b !in cluster
    ensures Draw(names, [b, b], cluster, 0, true) == Some(b)
  {
    assert Draw(names, [b, b], cluster, 1, false) == Some(b);
  }

  /** The search can end with exactly the untracked suffixes that have no key Secret, and with every untracked suffix when
      some tracked one has none. */
  lemma DrawableExactly(names: string, cluster: set<string>, b: string)
    ensures CanBeDrawn(names, cluster, b)
            <==> IsRandomSuffix(b) && !Contains(names, b) && (b !in cluster || SomeMissing(names, cluster))
  {
    if CanBeDrawn(names, cluster, b) {
      var draws :| RandomDraws(draws) && Draw(names, draws, cluster, 0, true) == Some(b);
      DrawTakesAFreeOne(names, draws, cluster, 0, true);
      assert draws[0..] == draws;
    }
    if IsRandomSuffix(b) && !Contains(names, b) {
      if b !in cluster {
        DrawnTwice(names, cluster, b);
        assert RandomDraws([b, b]);
      } else if SomeMissing(names, cluster) {
        var a :| IsRandomSuffix(a) && Contains(names, a) && a !in cluster;
        StaleFlag(names, cluster, a, b);
        assert RandomDraws([a, a, b]);
      }
    }
  }

  /** No supply of random suffixes makes the name of an untracked path one of `used`. */
  ghost predicate NeverInUse(data: Data, path: string, predetermined: Option<string>, cluster: set<string>, used: set<string>) {
    forall draws :: RandomDraws(draws) ==>
      var r := NameFor(data, path, predetermined, draws, cluster);
      r.Some? ==> r.value !in used
  }

  predicate Untracked(data: Data, path: string) { FirstIndex(Split(Field0(data, Path), ','), path) == -1 }

  lemma PredeterminedInUse(data: Data, path: string, predetermined: Option<string>, cluster: set<string>, used: set<string>)
    requires Untracked(data, path) && Predetermined(Field0(data, Name), predetermined).Some?
    ensures NeverInUse(data, path, predetermined, cluster, used)
            <==> "-" + Predetermined(Field0(data, Name), predetermined).value !in used
  {
    var name := "-" + Predetermined(Field0(data, Name), predetermined).value;
    assert RandomDraws([name]);
    assert NameFor(data, path, predetermined, [name], cluster) == Some(name);
  }

  lemma RandomInUse(data: Data, path: string, predetermined: Option<string>, cluster: set<string>, used: set<string>)
    requires Untracked(data, path) && Predetermined(Field0(data, Name), predetermined).None?
    ensures NeverInUse(data, path, predetermined, cluster, used)
            <==> forall b :: b in used ==> !CanBeDrawn(Field0(data, Name), cluster, b)
  {
    var names := Field0(data, Name);
    forall draws | RandomDraws(draws)
      ensures NameFor(data, path, predetermined, draws, cluster) == Draw(names, draws, cluster, 0, true) {}
    if NeverInUse(data, path, predetermined, cluster, used) {
      forall b | b in used ensures !CanBeDrawn(names, cluster, b) {
        forall draws | RandomDraws(draws) ensures Draw(names, draws, cluster, 0, true) != Some(b) {
          assert NameFor(data, path, predetermined, draws, cluster) == Draw(names, draws, cluster, 0, true);
        }
      }
    }
  }

  /** The name of a new key is never that of an existing key Secret exactly when the first usable predetermined suffix has
      no key Secret, or, without a usable one, tracker and cluster are in step. */
  lemma KeyNameIsFreeExactly(data: Data, path: string, predetermined: Option<string>, keys: set<string>)
    requires Untracked(data, path)
    ensures var names := Field0(data, Name);
            NeverInUse(data, path, predetermined, keys, keys) <==>
            (match Predetermined(names, predetermined)
             case Some(suffix) => "-" + suffix !in keys
             case None => InStep(names, keys))
  {
    var names := Field0(data, Name);
    if Predetermined(names, predetermined).Some? {
      PredeterminedInUse(data, path, predetermined, keys, keys);
    } else {
      RandomInUse(data, path, predetermined, keys, keys);
      forall b ensures CanBeDrawn(names, keys, b)
                       <==> IsRandomSuffix(b) && !Contains(names, b) && (b !in keys || SomeMissing(names, keys)) {
        DrawableExactly(names, keys, b);
      }
    }
  }

  /** The name of a new configuration is looked up among the key Secrets, not among the configurations: it is never that of
      an existing configuration exactly when the first usable predetermined suffix is not, or, without a usable one, every
      untracked configuration has a key of the same suffix and no tracked suffix lacks one. */
  lemma ConfigNameIsFreeExactly(data: Data, path: string, predetermined: Option<string>, keys: set<string>, configs: set<string>)
    requires Untracked(data, path)
    ensures var names := Field0(data, Name);
            NeverInUse(data, path, predetermined, keys, configs) <==>
            (match Predetermined(names, predetermined)
             case Some(suffix) => "-" + suffix !in configs
             case None => forall b :: b in configs && IsRandomSuffix(b) && !Contains(names, b) ==>
                            b in keys && !SomeMissing(names, keys))
  {
    var names := Field0(data, Name);
    if Predetermined(names, predetermined).Some? {
      PredeterminedInUse(data, path, predetermined, keys, configs);
    } else {
      RandomInUse(data, path, predetermined, keys, configs);
      forall b ensures CanBeDrawn(names, keys, b)
                       <==> IsRandomSuffix(b) && !Contains(names, b) && (b !in keys || SomeMissing(names, keys)) {
        DrawableExactly(names, keys, b);
      }
    }
  }

  /** A predetermined suffix of an existing, untracked key is handed out again. */
  lemma PredeterminedKeyIsReused(names: string, path: string, suffix: string, keys: set<string>)
    requires Usable(names, suffix) && ',' !in suffix && path != "" && "-" + suffix in keys
    ensures var data := map[Name := names, Path := ""]; Untracked(data, path) && !NeverInUse(data, path, Some(suffix), keys, keys)
  {
    var data := map[Name := names, Path := ""];
    SplitSingle(suffix, ',');
    SplitSingle("", ',');
    assert Predetermined(names, Some(suffix)) == Some(suffix);
    PredeterminedInUse(data, path, Some(suffix), keys, keys);
  }

  // ----- the predetermined suffix -----

  /** The first usable one is at a position before which none is. */
  lemma {:induction false} FirstUsableExactly(names: string, suffixes: seq<string>, x: string)
    ensures FirstUsable(names, suffixes) == Some(x) <==>
            exists i :: 0 <= i < |suffixes| && suffixes[i] == x && Usable(names, x) && forall j :: 0 <= j < i ==> !Usable(names, suffixes[j])
  {
    if suffixes != [] {
      var rest := suffixes[1..];
      FirstUsableExactly(names, rest, x);
      if !Usable(names, suffixes[0]) {
        if i :| 0 <= i < |suffixes| && suffixes[i] == x && Usable(names, x) && forall j :: 0 <= j < i ==> !Usable(names, suffixes[j]) {
          assert rest[i - 1] == x;
        }
        if i :| 0 <= i < |rest| && rest[i] == x && Usable(names, x) && forall j :: 0 <= j < i ==> !Usable(names, rest[j]) {
          assert suffixes[i + 1] == x && forall j :: 0 <= j < i + 1 ==> !Usable(names, suffixes[j]);
        }
      } else if suffixes[0] == x {
        var i := 0;
        assert suffixes[i] == x;
      }
    }
  }
}
