/** Metadata whose name was looked up in the tracker earlier, against the list an election meets later. */
module NamedMetadata {
  import opened Text
  import opened DecisionTree
  import opened LeaderTrackers
  import opened LeaderElection
  import opened ElectionLaws
  import opened MetadataNames

  /** The metadata has the name handed out for its path by a tracker with these contents. */
  ghost predicate NamedFrom(ts: seq<Tracker>, meta: Metadata) {
    exists predetermined, draws, cluster {:trigger NameFor(Encode(ts), meta.path, predetermined, draws, cluster)} ::
      RandomDraws(draws) && NameFor(Encode(ts), meta.path, predetermined, draws, cluster) == Some(meta.name)
  }

  lemma NewNameIsAbsent(data: Data, path: string, predetermined: Option<string>, draws: seq<string>, cluster: set<string>)
    requires RandomDraws(draws) && Untracked(data, path)
    ensures var r := NameFor(data, path, predetermined, draws, cluster); r.Some? ==> !Contains(Field0(data, Name), r.value)
  {
    var names := Field0(data, Name);
    if Predetermined(names, predetermined).Some? {
      LongerIsAbsent(names, Predetermined(names, predetermined).value);
    } else if Draw(names, draws, cluster, 0, true).Some? {
      DrawTakesAFreeOne(names, draws, cluster, 0, true);
    }
  }

  /** The name is that of a tracker with the same path, or no tracker has it. */
  lemma NamedIsTrackedOrNew(ts: seq<Tracker>, meta: Metadata)
    requires AllCommaFree(ts) && meta.path != "" && NamedFrom(ts, meta)
    ensures (exists i :: 0 <= i < |ts| && ts[i].path == meta.path && ts[i].name == meta.name)
            || (forall i :: 0 <= i < |ts| ==> ts[i].name != meta.name)
  {
    var predetermined, draws, cluster :|
      RandomDraws(draws) && NameFor(Encode(ts), meta.path, predetermined, draws, cluster) == Some(meta.name);
    var loc := FirstIndex(Split(Field0(Encode(ts), Path), ','), meta.path);
    LookupByPath(ts, meta.path, loc);
    if loc == -1 {
      NewNameIsAbsent(Encode(ts), meta.path, predetermined, draws, cluster);
      NewNameIsNew(ts, meta.name);
    } else {
      assert ts[loc].path == meta.path && ts[loc].name == meta.name;
    }
  }

  /** So metadata fits the list its name was looked up in. */
  lemma NamedMetadataFits(ts: seq<Tracker>, meta: Metadata)
    requires UniqueNames(ts) && AllCommaFree(ts) && '.' in meta.path && NamedFrom(ts, meta)
    ensures Fits(ts, meta)
  {
    NamedIsTrackedOrNew(ts, meta);
    if i :| 0 <= i < |ts| && ts[i].path == meta.path && ts[i].name == meta.name {
      forall j | 0 <= j < |ts| && ts[j].name == meta.name ensures j == i {}
    }
  }

  /** Names and paths stay, and at most one tracker is added. */
  lemma ElectedNames(ts: seq<Tracker>, instance: string, meta: Metadata, shouldElect: bool)
    ensures var r := Elect(ts, instance, meta, shouldElect).trackers;
            && |ts| <= |r| && (forall k :: 0 <= k < |ts| ==> r[k].name == ts[k].name && r[k].path == ts[k].path)
            && |r| == |ts| + (if IndexOfName(ts, meta.name) == -1 && shouldElect then 1 else 0)
            && (|r| > |ts| ==> r[|ts|].name == meta.name && r[|ts|].path == meta.path)
  {
  }

  /** Another election in between leaves it fitting, unless it adds a tracker of the same name in another sibling group:
      when two instances drew one name for paths of different groups. */
  lemma FitsAfterElectionExactly(ts: seq<Tracker>, meta: Metadata, instance: string, other: Metadata, shouldElect: bool)
    requires Fits(ts, meta)
    ensures Fits(Elect(ts, instance, other, shouldElect).trackers, meta)
            <==> !(IndexOfName(ts, other.name) == -1 && shouldElect && other.name == meta.name
                   && '.' in other.path && !Siblings(meta.path, other.path))
  {
    var r := Elect(ts, instance, other, shouldElect).trackers;
    ElectedNames(ts, instance, other, shouldElect);
    FitsGrown(ts, r, meta);
  }

  lemma FitsGrown(ts: seq<Tracker>, r: seq<Tracker>, meta: Metadata)
    requires Fits(ts, meta) && |ts| <= |r| <= |ts| + 1
    requires forall k :: 0 <= k < |ts| ==> r[k].name == ts[k].name && r[k].path == ts[k].path
    ensures Fits(r, meta) <==>
            !(|r| > |ts| && r[|ts|].name == meta.name && '.' in r[|ts|].path && !Siblings(meta.path, r[|ts|].path))
  {
  }

  /** A removal in between always leaves it fitting. */
  lemma FitsAfterRemoval(ts: seq<Tracker>, meta: Metadata, instance: string)
    requires Fits(ts, meta)
    ensures Fits(Removed(ts, instance), meta)
  {
    FitsGrown(ts, Removed(ts, instance), meta);
  }
}
