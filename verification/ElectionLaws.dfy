/** Safety of leader election: over runs whose reads and saves interleave freely, and over serial runs. */
module ElectionLaws {
  import opened Text
  import opened LeaderTrackers
  import opened LeaderElection

  // ----- what every stored list satisfies -----

  predicate UniqueNames(ts: seq<Tracker>) {
    forall i, j :: 0 <= i < j < |ts| ==> ts[i].name != ts[j].name
  }

  /** No instance owns two trackers of one group. */
  predicate OnePer(group: string -> Option<string>, ts: seq<Tracker>) {
    forall i, j :: 0 <= i < j < |ts| && ts[i].owner == ts[j].owner && ts[i].owner != "" ==>
      !SameGroup(group, ts[i].path, ts[j].path)
  }

  predicate OnePerGroup(ts: seq<Tracker>) { OnePer(GroupOf, ts) }

  ghost predicate Good(ts: seq<Tracker>) {
    UniqueNames(ts) && OnePerGroup(ts) && AllCommaFree(ts)
  }

  /** The metadata names a tracker only if that tracker is in the metadata's sibling group, or in none. */
  predicate Fits(ts: seq<Tracker>, meta: Metadata) {
    && '.' in meta.path
    && forall i :: 0 <= i < |ts| && ts[i].name == meta.name && '.' in ts[i].path ==> Siblings(meta.path, ts[i].path)
  }

  predicate CommaFreeMeta(meta: Metadata) {
    ',' !in meta.name && ',' !in meta.path && ',' !in meta.pathIndex
  }

  lemma FreshName(ts: seq<Tracker>, name: string)
    requires IndexOfName(ts, name) == -1
    ensures forall i :: 0 <= i < |ts| ==> ts[i].name != name
  {
  }

  /** Losing owners keeps one tracker per group. */
  lemma OwnersLost(group: string -> Option<string>, ts: seq<Tracker>, r: seq<Tracker>)
    requires OnePer(group, ts) && |r| == |ts|
    requires forall i :: 0 <= i < |ts| ==> r[i].path == ts[i].path && (r[i].owner == ts[i].owner || r[i].owner == "")
    ensures OnePer(group, r)
  {
  }

  /** So does one new ownership, when the instance loses the rest of that group. */
  lemma OwnerGained(group: string -> Option<string>, ts: seq<Tracker>, r: seq<Tracker>, k: nat, instance: string)
    requires OnePer(group, ts) && |r| == |ts| && k < |r| && r[k].owner == instance
    requires forall i :: 0 <= i < |ts| ==> r[i].path == ts[i].path
    requires forall i :: 0 <= i < |ts| && i != k ==> r[i].owner == ts[i].owner || r[i].owner == ""
    requires forall i :: 0 <= i < |ts| && i != k && SameGroup(group, r[k].path, r[i].path) ==> r[i].owner != instance
    ensures OnePer(group, r)
  {
  }

  lemma ClearedKeeps(ts: seq<Tracker>, instance: string, path: string)
    requires Good(ts)
    ensures Good(ClearedAll(ts, instance, path))
  {
    var r := ClearedAll(ts, instance, path);
    forall i | 0 <= i < |ts| ensures CommaFree(r[i]) && r[i].name == ts[i].name { assert CommaFree(ts[i]); }
    OwnersLost(GroupOf, ts, r);
  }

  lemma ClearedAt(t: Tracker, instance: string, path: string)
    ensures Siblings(path, t.path) && instance != "" ==> Cleared(t, instance, path).owner != instance
    ensures Cleared(t, instance, path).owner == t.owner || Cleared(t, instance, path).owner == ""
  {
  }

  lemma GainKeeps(ts: seq<Tracker>, i: nat, instance: string, path: string)
    requires Good(ts) && i < |ts| && ',' !in instance
    requires '.' in path && ('.' in ts[i].path ==> Siblings(path, ts[i].path))
    ensures Good(ClearedAll(ts, instance, path)[i := ts[i].(owner := instance)])
  {
    var r := ClearedAll(ts, instance, path)[i := ts[i].(owner := instance)];
    forall j | 0 <= j < |ts| ensures CommaFree(r[j]) && r[j].name == ts[j].name { assert CommaFree(ts[j]); }
    forall j | 0 <= j < |ts| { ClearedAt(ts[j], instance, path); }
    if instance == "" {
      OwnersLost(GroupOf, ts, r);
    } else {
      forall j | 0 <= j < |ts| && j != i && SameGroup(GroupOf, r[i].path, r[j].path) ensures r[j].owner != instance {
        assert Siblings(path, ts[j].path);
      }
      OwnerGained(GroupOf, ts, r, i, instance);
    }
  }

  lemma AppendedOwner(group: string -> Option<string>, ts: seq<Tracker>, t: Tracker)
    requires OnePer(group, ts)
    requires forall i :: 0 <= i < |ts| && SameGroup(group, t.path, ts[i].path) && t.owner != "" ==> ts[i].owner != t.owner
    ensures OnePer(group, ts + [t])
  {
    var r := ts + [t];
    forall i, j | 0 <= i < j < |r| && r[i].owner == r[j].owner && r[i].owner != "" ensures !SameGroup(group, r[i].path, r[j].path) {
      if j == |ts| { assert r[i] == ts[i] && r[j] == t; }
    }
  }

  lemma AppendKeeps(ts: seq<Tracker>, t: Tracker)
    requires Good(ts) && CommaFree(t) && (forall i :: 0 <= i < |ts| ==> ts[i].name != t.name)
    ensures Good(ClearedAll(ts, t.owner, t.path) + [t])
  {
    var c := ClearedAll(ts, t.owner, t.path);
    ClearedKeeps(ts, t.owner, t.path);
    forall i | 0 <= i < |ts| && Siblings(t.path, c[i].path) && t.owner != "" ensures c[i].owner != t.owner {
      ClearedAt(ts[i], t.owner, t.path);
    }
    AppendedOwner(GroupOf, c, t);
    AppendedFields(ts, c, t);
  }

  lemma AppendedFields(ts: seq<Tracker>, c: seq<Tracker>, t: Tracker)
    requires UniqueNames(ts) && AllCommaFree(c) && CommaFree(t) && forall i :: 0 <= i < |ts| ==> ts[i].name != t.name
    requires |c| == |ts| && forall i :: 0 <= i < |ts| ==> c[i].name == ts[i].name
    ensures UniqueNames(c + [t]) && AllCommaFree(c + [t])
  {
  }

  /** An election on a good list saves a good list. */
  lemma ElectKeepsGood(ts: seq<Tracker>, instance: string, meta: Metadata, shouldElect: bool)
    requires Good(ts) && Fits(ts, meta) && CommaFreeMeta(meta) && ',' !in instance
    ensures Good(Elect(ts, instance, meta, shouldElect).trackers)
  {
    var i := IndexOfName(ts, meta.name);
    ClearedKeeps(ts, instance, meta.path);
    if i == -1 {
      FreshName(ts, meta.name);
      AppendKeeps(ts, Tracker(meta.name, instance, meta.pathIndex, meta.path));
    } else {
      GainKeeps(ts, i, instance, meta.path);
    }
  }

  lemma RemovedKeepsGood(ts: seq<Tracker>, instance: string)
    requires Good(ts)
    ensures Good(Removed(ts, instance))
  {
    var r := Removed(ts, instance);
    forall i | 0 <= i < |ts| ensures CommaFree(r[i]) && r[i].name == ts[i].name { assert CommaFree(ts[i]); }
    OwnersLost(GroupOf, ts, r);
  }

  /** r is ts after `instance` took tracker i and lost its other trackers of the group of `path`. */
  predicate TookOver(group: string -> Option<string>, ts: seq<Tracker>, r: seq<Tracker>, i: nat, instance: string, path: string) {
    && i < |ts| == |r| && r[i].owner == instance
    && (forall j :: 0 <= j < |ts| ==> r[j].path == ts[j].path)
    && (forall j :: 0 <= j < |ts| && j != i ==>
          r[j].owner == if SameGroup(group, path, ts[j].path) && ts[j].owner == instance then "" else ts[j].owner)
  }

  /** Whatever else the instance owns in the group of tracker i lies in the group of `path`. */
  predicate RestInGroup(group: string -> Option<string>, ts: seq<Tracker>, i: nat, instance: string, path: string)
    requires i < |ts|
  {
    forall j :: 0 <= j < |ts| && j != i && ts[j].owner == instance && SameGroup(group, ts[i].path, ts[j].path) ==>
      SameGroup(group, path, ts[j].path)
  }

  lemma ClearedIs(t: Tracker, instance: string, path: string)
    ensures Cleared(t, instance, path).path == t.path && Cleared(t, instance, path).name == t.name
    ensures Cleared(t, instance, path).owner == if SameGroup(GroupOf, path, t.path) && t.owner == instance then "" else t.owner
  {
  }

  /** The shape of a take-over, for any grouping. */
  lemma TookOverBy(group: string -> Option<string>, ts: seq<Tracker>, cleared: seq<Tracker>, i: nat, instance: string, path: string)
    requires i < |ts| == |cleared|
    requires forall j :: 0 <= j < |ts| ==>
               && cleared[j].path == ts[j].path
               && cleared[j].owner == if SameGroup(group, path, ts[j].path) && ts[j].owner == instance then "" else ts[j].owner
    ensures TookOver(group, ts, cleared[i := ts[i].(owner := instance)], i, instance, path)
  {
  }

  lemma ElectedByTakeOver(ts: seq<Tracker>, i: nat, instance: string, meta: Metadata)
    requires i == IndexOfName(ts, meta.name) && ts[i].owner == ""
    ensures Elect(ts, instance, meta, true).trackers == ClearedAll(ts, instance, meta.path)[i := ts[i].(owner := instance)]
  {
  }

  lemma TakeOverShape(ts: seq<Tracker>, i: nat, instance: string, meta: Metadata)
    requires i == IndexOfName(ts, meta.name) && ts[i].owner == ""
    ensures TookOver(GroupOf, ts, Elect(ts, instance, meta, true).trackers, i, instance, meta.path)
  {
    ElectedByTakeOver(ts, i, instance, meta);
    var cleared := ClearedAll(ts, instance, meta.path);
    forall j | 0 <= j < |ts|
      ensures cleared[j].path == ts[j].path
      ensures cleared[j].owner == if SameGroup(GroupOf, meta.path, ts[j].path) && ts[j].owner == instance then "" else ts[j].owner
    {
      ClearedIs(ts[j], instance, meta.path);
    }
    TookOverBy(GroupOf, ts, cleared, i, instance, meta.path);
  }

  /** Taking over a tracker nobody owns keeps one tracker per group exactly when the instance owns no other tracker of
      that tracker's group outside the group of the metadata. */
  lemma TakeOverExactly(ts: seq<Tracker>, i: nat, instance: string, meta: Metadata)
    requires OnePer(GroupOf, ts) && i == IndexOfName(ts, meta.name) && ts[i].owner == "" && instance != ""
    ensures OnePer(GroupOf, Elect(ts, instance, meta, true).trackers) <==> RestInGroup(GroupOf, ts, i, instance, meta.path)
  {
    TakeOverShape(ts, i, instance, meta);
    TakeOverGroups(GroupOf, ts, Elect(ts, instance, meta, true).trackers, i, instance, meta.path);
  }

  lemma TakeOverGroups(group: string -> Option<string>, ts: seq<Tracker>, r: seq<Tracker>, i: nat, instance: string, path: string)
    requires OnePer(group, ts) && TookOver(group, ts, r, i, instance, path) && instance != ""
    ensures OnePer(group, r) <==> RestInGroup(group, ts, i, instance, path)
  {
    if RestInGroup(group, ts, i, instance, path) {
      OwnerGained(group, ts, r, i, instance);
    } else {
      var j :| 0 <= j < |ts| && j != i && ts[j].owner == instance && SameGroup(group, ts[i].path, ts[j].path)
               && !SameGroup(group, path, ts[j].path);
      Doubled(group, r, if i < j then i else j, if i < j then j else i, instance);
    }
  }

  lemma Doubled(group: string -> Option<string>, r: seq<Tracker>, i: nat, j: nat, instance: string)
    requires i < j < |r| && r[i].owner == r[j].owner == instance != "" && SameGroup(group, r[i].path, r[j].path)
    ensures !OnePer(group, r)
  {
  }

  // ----- runs with separate reads and saves -----

  /** The stored Secret, and for every pending reconcile the list it has read. */
  datatype State = State(stored: Option<Data>, held: map<nat, seq<Tracker>>)

  datatype Step =
    | Read(worker: nat)
    | SaveElection(worker: nat, instance: string, meta: Metadata, shouldElect: bool)
    | SaveRemoval(worker: nat, instance: string)
    | Rebuild(trackers: seq<Tracker>)
    | DropOutdated

  /** Reading a Secret whose columns are out of step deletes it. */
  function AfterRead(s: State, w: nat): State {
    if s.stored.None? then s
    else if Decode(s.stored.value).None? then s.(stored := None)
    else s.(held := s.held[w := Decode(s.stored.value).value])
  }

  function AfterElection(s: State, w: nat, instance: string, meta: Metadata, shouldElect: bool): State
    requires w in s.held
  {
    var e := Elect(s.held[w], instance, meta, shouldElect);
    State(if e.saved then Some(Encode(e.trackers)) else s.stored, s.held - {w})
  }

  function AfterRemoval(s: State, w: nat, instance: string): State
    requires w in s.held
  {
    var ts := Removed(s.held[w], instance);
    State(if NoOwners(ts) then None else if Owns(s.held[w], instance) then Some(Encode(ts)) else s.stored, s.held - {w})
  }

  /** One locked access. A save writes what its worker computed from the list it read, however old that is. */
  function Next(s: State, step: Step): State {
    match step
    case Read(w) => AfterRead(s, w)
    case SaveElection(w, instance, meta, shouldElect) => if w in s.held then AfterElection(s, w, instance, meta, shouldElect) else s
    case SaveRemoval(w, instance) => if w in s.held then AfterRemoval(s, w, instance) else s
    case Rebuild(ts) => s.(stored := Some(Encode(ts)))
    case DropOutdated => s.(stored := None)
  }

  function Run(s: State, steps: seq<Step>): State {
    if steps == [] then s else Next(Run(s, steps[..|steps| - 1]), steps[|steps| - 1])
  }

  /** What one step demands of its inputs, in the state it meets: comma-free fields, metadata that fits the tracker it
      names in the list the worker has read, and a rebuilt list that is good. */
  ghost predicate StepFits(s: State, step: Step) {
    match step
    case SaveElection(w, instance, meta, _) =>
      w in s.held ==> CommaFreeMeta(meta) && ',' !in instance && Fits(s.held[w], meta)
    case Rebuild(ts) => Good(ts)
    case _ => true
  }

  /** The stored Secret passes one test and every list a worker holds another. */
  ghost predicate AllPass(secret: Data -> bool, list: seq<Tracker> -> bool, s: State) {
    (s.stored.Some? ==> secret(s.stored.value)) && (forall w :: w in s.held ==> list(s.held[w]))
  }

  lemma ElectionPasses(secret: Data -> bool, list: seq<Tracker> -> bool, s: State, w: nat, instance: string, meta: Metadata, shouldElect: bool)
    requires AllPass(secret, list, s) && w in s.held
    requires secret(Encode(Elect(s.held[w], instance, meta, shouldElect).trackers))
    ensures AllPass(secret, list, AfterElection(s, w, instance, meta, shouldElect))
  {
  }

  lemma RemovalPasses(secret: Data -> bool, list: seq<Tracker> -> bool, s: State, w: nat, instance: string)
    requires AllPass(secret, list, s) && w in s.held && secret(Encode(Removed(s.held[w], instance)))
    ensures AllPass(secret, list, AfterRemoval(s, w, instance))
  {
  }

  ghost predicate ReadsGood(data: Data) { Decode(data).Some? && Good(Decode(data).value) }

  /** What is stored reads back as a good list, and so is every list a worker holds. */
  ghost predicate Inv(s: State) { AllPass(d => ReadsGood(d), ts => Good(ts), s) }

  lemma StoredGood(ts: seq<Tracker>)
    requires Good(ts)
    ensures ReadsGood(Encode(ts))
  {
    StoreThenRead(ts);
    if ts == [BLANK] { BlankReadsAsEmpty(); }
  }

  lemma SavedElectionGood(s: State, w: nat, instance: string, meta: Metadata, shouldElect: bool)
    requires Inv(s) && w in s.held && CommaFreeMeta(meta) && ',' !in instance && Fits(s.held[w], meta)
    ensures Inv(AfterElection(s, w, instance, meta, shouldElect))
  {
    ElectKeepsGood(s.held[w], instance, meta, shouldElect);
    StoredGood(Elect(s.held[w], instance, meta, shouldElect).trackers);
    ElectionPasses(d => ReadsGood(d), ts => Good(ts), s, w, instance, meta, shouldElect);
  }

  lemma SavedRemovalGood(s: State, w: nat, instance: string)
    requires Inv(s) && w in s.held
    ensures Inv(AfterRemoval(s, w, instance))
  {
    RemovedKeepsGood(s.held[w], instance);
    StoredGood(Removed(s.held[w], instance));
    RemovalPasses(d => ReadsGood(d), ts => Good(ts), s, w, instance);
  }

  lemma ReadPasses(secret: Data -> bool, list: seq<Tracker> -> bool, s: State, w: nat)
    requires AllPass(secret, list, s)
    requires s.stored.Some? && Decode(s.stored.value).Some? ==> list(Decode(s.stored.value).value)
    ensures AllPass(secret, list, AfterRead(s, w))
  {
  }

  lemma ReadGood(s: State, w: nat)
    requires Inv(s)
    ensures Inv(AfterRead(s, w))
  {
    ReadPasses(d => ReadsGood(d), ts => Good(ts), s, w);
  }

  lemma StepKeepsInv(s: State, step: Step)
    requires Inv(s) && StepFits(s, step)
    ensures Inv(Next(s, step))
  {
    match step
    case Read(w) => ReadGood(s, w);
    case SaveElection(w, instance, meta, shouldElect) =>
      if w in s.held { SavedElectionGood(s, w, instance, meta, shouldElect); }
    case SaveRemoval(w, instance) =>
      if w in s.held { SavedRemovalGood(s, w, instance); }
    case Rebuild(ts) => StoredGood(ts);
    case DropOutdated =>
  }

  /** The states a run passes through, from a namespace without a tracker. */
  function StateAt(steps: seq<Step>, i: nat): State
    requires i <= |steps|
  { Run(State(None, map[]), steps[..i]) }

  /** In every interleaving of reads and saves, across rebuilds for other operator versions, whatever is stored reads back
      as a list with unique names in which each instance owns at most one tracker per sibling group. */
  lemma {:induction false} InterleavingsAreSafe(steps: seq<Step>, n: nat)
    requires n <= |steps| && forall i :: 0 <= i < n ==> StepFits(StateAt(steps, i), steps[i])
    ensures Inv(StateAt(steps, n))
  {
    if n > 0 {
      InterleavingsAreSafe(steps, n - 1);
      assert steps[..n][..n - 1] == steps[..n - 1];
      StepKeepsInv(StateAt(steps, n - 1), steps[n - 1]);
    }
  }

  // ----- inputs that fit in every interleaving -----

  /** A sibling group for every name, on which metadata and rebuilt lists agree: so it is between two upgrades. */
  ghost predicate InGroup(group: string -> string, t: Tracker) {
    '.' in t.path ==> Parent(t.path) == group(t.name)
  }

  ghost predicate AllInGroup(group: string -> string, ts: seq<Tracker>) {
    forall i :: 0 <= i < |ts| ==> InGroup(group, ts[i])
  }

  ghost predicate StepOk(group: string -> string, step: Step) {
    match step
    case SaveElection(_, instance, meta, _) =>
      CommaFreeMeta(meta) && ',' !in instance && '.' in meta.path && Parent(meta.path) == group(meta.name)
    case Rebuild(ts) => Good(ts) && AllInGroup(group, ts)
    case _ => true
  }

  ghost predicate ReadsGrouped(group: string -> string, data: Data) {
    Decode(data).Some? ==> AllInGroup(group, Decode(data).value)
  }

  ghost predicate Grouped(group: string -> string, s: State) {
    AllPass(d => ReadsGrouped(group, d), ts => AllInGroup(group, ts), s)
  }

  lemma ElectionInGroup(group: string -> string, ts: seq<Tracker>, instance: string, meta: Metadata, shouldElect: bool)
    requires AllInGroup(group, ts) && '.' in meta.path && Parent(meta.path) == group(meta.name)
    ensures Fits(ts, meta) && AllInGroup(group, Elect(ts, instance, meta, shouldElect).trackers)
  {
    forall i | 0 <= i < |ts| && ts[i].name == meta.name && '.' in ts[i].path ensures Siblings(meta.path, ts[i].path) {
      assert InGroup(group, ts[i]);
    }
    var r := Elect(ts, instance, meta, shouldElect).trackers;
    forall i | 0 <= i < |r| ensures InGroup(group, r[i]) {
      if i < |ts| { assert InGroup(group, ts[i]) && r[i].path == ts[i].path && r[i].name == ts[i].name; }
    }
  }

  lemma RemovalInGroup(group: string -> string, ts: seq<Tracker>, instance: string)
    requires AllInGroup(group, ts)
    ensures AllInGroup(group, Removed(ts, instance))
  {
    forall i | 0 <= i < |ts| ensures InGroup(group, Removed(ts, instance)[i]) {
      assert InGroup(group, ts[i]);
    }
  }

  lemma StoredInGroup(group: string -> string, ts: seq<Tracker>)
    requires AllCommaFree(ts) && AllInGroup(group, ts)
    ensures ReadsGrouped(group, Encode(ts))
  {
    StoreThenRead(ts);
    if ts == [BLANK] { BlankReadsAsEmpty(); }
  }

  lemma SaveElectionKeepsGroups(group: string -> string, s: State, w: nat, instance: string, meta: Metadata, shouldElect: bool)
    requires Inv(s) && Grouped(group, s) && w in s.held && StepOk(group, SaveElection(w, instance, meta, shouldElect))
    ensures Fits(s.held[w], meta) && Grouped(group, AfterElection(s, w, instance, meta, shouldElect))
  {
    ElectionInGroup(group, s.held[w], instance, meta, shouldElect);
    ElectKeepsGood(s.held[w], instance, meta, shouldElect);
    StoredInGroup(group, Elect(s.held[w], instance, meta, shouldElect).trackers);
    ElectionPasses(d => ReadsGrouped(group, d), ts => AllInGroup(group, ts), s, w, instance, meta, shouldElect);
  }

  lemma SaveRemovalKeepsGroups(group: string -> string, s: State, w: nat, instance: string)
    requires Inv(s) && Grouped(group, s) && w in s.held
    ensures Grouped(group, AfterRemoval(s, w, instance))
  {
    RemovalInGroup(group, s.held[w], instance);
    RemovedKeepsGood(s.held[w], instance);
    StoredInGroup(group, Removed(s.held[w], instance));
    RemovalPasses(d => ReadsGrouped(group, d), ts => AllInGroup(group, ts), s, w, instance);
  }

  lemma StepKeepsGroups(group: string -> string, s: State, step: Step)
    requires Inv(s) && Grouped(group, s) && StepOk(group, step)
    ensures StepFits(s, step) && Grouped(group, Next(s, step))
  {
    match step
    case Read(w) =>
    case SaveElection(w, instance, meta, shouldElect) =>
      if w in s.held { SaveElectionKeepsGroups(group, s, w, instance, meta, shouldElect); }
    case SaveRemoval(w, instance) =>
      if w in s.held { SaveRemovalKeepsGroups(group, s, w, instance); }
    case Rebuild(ts) => StoredInGroup(group, ts);
    case DropOutdated =>
  }

  /** While every name keeps its sibling group, the metadata fits in every interleaving, however old the lists are. */
  lemma {:induction false} GroupsFit(group: string -> string, steps: seq<Step>, n: nat)
    requires n <= |steps| && forall i :: 0 <= i < n ==> StepOk(group, steps[i])
    ensures Inv(StateAt(steps, n)) && Grouped(group, StateAt(steps, n))
    ensures forall i :: 0 <= i < n ==> StepFits(StateAt(steps, i), steps[i])
  {
    if n > 0 {
      GroupsFit(group, steps, n - 1);
      assert steps[..n][..n - 1] == steps[..n - 1];
      StepKeepsGroups(group, StateAt(steps, n - 1), steps[n - 1]);
      StepKeepsInv(StateAt(steps, n - 1), steps[n - 1]);
    }
  }

  // ----- serial steps within one tracker lifetime -----

  /** The stored owner of a resource; empty when it is not tracked. */
  function OwnerOf(ts: seq<Tracker>, name: string): string {
    var i := IndexOfName(ts, name);
    if i == -1 then "" else ts[i].owner
  }

  lemma {:induction false} IndexStable(ts: seq<Tracker>, r: seq<Tracker>, name: string)
    requires |ts| <= |r| && (forall i :: 0 <= i < |ts| ==> r[i].name == ts[i].name)
    requires forall i :: |ts| <= i < |r| ==> r[i].name != name
    ensures IndexOfName(r, name) == IndexOfName(ts, name)
  {
    var i, j := IndexOfName(r, name), IndexOfName(ts, name);
    assert j >= 0 ==> r[j].name == name;
  }

  /** The answer of an election agrees with the owner it leaves stored. */
  lemma AnswerMatchesOwner(ts: seq<Tracker>, instance: string, meta: Metadata, shouldElect: bool)
    requires instance != ""
    ensures var e := Elect(ts, instance, meta, shouldElect);
            && e.leader == OwnerOf(e.trackers, meta.name)
            && (e.isLeader <==> OwnerOf(e.trackers, meta.name) == instance)
            && (e.leader != "" ==> e.pathIndex == e.trackers[IndexOfName(e.trackers, meta.name)].pathIndex)
            && (shouldElect ==> e.leader != "")
  {
    var i := IndexOfName(ts, meta.name);
    if i != -1 || !shouldElect { ElectedKeepsNames(ts, instance, meta, shouldElect); }
    if i == -1 && shouldElect {
      AppendedIsLast(ClearedAll(ts, instance, meta.path), Tracker(meta.name, instance, meta.pathIndex, meta.path));
    } else if i != -1 && ts[i].owner != "" {
      ClearedIs(ts[i], instance, meta.path);
    }
  }

  lemma ElectedKeepsNames(ts: seq<Tracker>, instance: string, meta: Metadata, shouldElect: bool)
    requires IndexOfName(ts, meta.name) != -1 || !shouldElect
    ensures var r := Elect(ts, instance, meta, shouldElect).trackers;
            |r| == |ts| && IndexOfName(r, meta.name) == IndexOfName(ts, meta.name)
  {
    var r := Elect(ts, instance, meta, shouldElect).trackers;
    forall i | 0 <= i < |ts| ensures r[i].name == ts[i].name { ClearedIs(ts[i], instance, meta.path); }
    IndexStable(ts, r, meta.name);
  }

  lemma AppendedIsLast(ts: seq<Tracker>, t: Tracker)
    ensures IndexOfName(ts + [t], t.name) == |ts|
  {
  }

  /** How a step of `instance` may change an owner: not at all, from nobody to itself, or from itself to nobody. */
  predicate Moves(before: string, after: string, instance: string) {
    after == before || (before == "" && after == instance) || (before == instance && after == "")
  }

  lemma ElectedTrackers(ts: seq<Tracker>, instance: string, meta: Metadata, shouldElect: bool)
    ensures var r := Elect(ts, instance, meta, shouldElect).trackers;
            && |ts| <= |r| <= |ts| + 1
            && (forall i :: 0 <= i < |ts| ==> r[i].name == ts[i].name && Moves(ts[i].owner, r[i].owner, instance))
            && (|r| > |ts| ==> r[|ts|].name == meta.name && r[|ts|].owner == instance && IndexOfName(ts, meta.name) == -1)
  {
    forall i | 0 <= i < |ts| { ClearedAt(ts[i], instance, meta.path); }
  }

  /** An election by one instance leaves the ownership of every other instance as it is; what it changes for a
      resource is to give it from nobody to itself, or from itself to nobody. */
  lemma ElectionIsLocal(ts: seq<Tracker>, instance: string, meta: Metadata, shouldElect: bool, name: string)
    ensures Moves(OwnerOf(ts, name), OwnerOf(Elect(ts, instance, meta, shouldElect).trackers, name), instance)
  {
    ElectedTrackers(ts, instance, meta, shouldElect);
    OwnersMove(ts, Elect(ts, instance, meta, shouldElect).trackers, instance, meta.name, name);
  }

  lemma OwnersMove(ts: seq<Tracker>, r: seq<Tracker>, instance: string, added: string, name: string)
    requires |ts| <= |r| <= |ts| + 1
    requires forall i :: 0 <= i < |ts| ==> r[i].name == ts[i].name && Moves(ts[i].owner, r[i].owner, instance)
    requires |r| > |ts| ==> r[|ts|].name == added && r[|ts|].owner == instance && IndexOfName(ts, added) == -1
    ensures Moves(OwnerOf(ts, name), OwnerOf(r, name), instance)
  {
    if |r| == |ts| || name != added {
      IndexStable(ts, r, name);
    }
  }

  /** Removing an instance leaves it owning nothing and everyone else owning what they owned. */
  lemma RemovalIsLocal(ts: seq<Tracker>, instance: string, name: string)
    requires instance != ""
    ensures !Owns(Removed(ts, instance), instance)
    ensures OwnerOf(Removed(ts, instance), name) == if OwnerOf(ts, name) == instance then "" else OwnerOf(ts, name)
  {
    IndexStable(ts, Removed(ts, instance), name);
  }

  datatype Operation =
    | Elects(instance: string, meta: Metadata, shouldElect: bool)
    | Removes(instance: string)

  function Apply(ts: seq<Tracker>, op: Operation): seq<Tracker> {
    match op
    case Elects(instance, meta, shouldElect) => Elect(ts, instance, meta, shouldElect).trackers
    case Removes(instance) => Removed(ts, instance)
  }

  function ApplyAll(ts: seq<Tracker>, ops: seq<Operation>): seq<Tracker> {
    if ops == [] then ts else Apply(ApplyAll(ts, ops[..|ops| - 1]), ops[|ops| - 1])
  }

  lemma OperationIsLocal(ts: seq<Tracker>, op: Operation, name: string)
    requires op.instance != ""
    ensures Moves(OwnerOf(ts, name), OwnerOf(Apply(ts, op), name), op.instance)
  {
    match op
    case Elects(instance, meta, shouldElect) => ElectionIsLocal(ts, instance, meta, shouldElect, name);
    case Removes(instance) => RemovalIsLocal(ts, instance, name);
  }

  /** The owner of a resource after the first k steps of a serial run. */
  function OwnerAt(ts: seq<Tracker>, ops: seq<Operation>, k: nat, name: string): string
    requires k <= |ops|
  {
    OwnerOf(ApplyAll(ts, ops[..k]), name)
  }

  lemma StepMoves(ts: seq<Tracker>, ops: seq<Operation>, k: nat, name: string)
    requires k < |ops| && ops[k].instance != ""
    ensures Moves(OwnerAt(ts, ops, k, name), OwnerAt(ts, ops, k + 1, name), ops[k].instance)
  {
    var longer := ops[..k + 1];
    assert longer[..|longer| - 1] == ops[..k];
    OperationIsLocal(ApplyAll(ts, ops[..k]), ops[k], name);
  }

  lemma {:induction false} ReleasedSometime(owners: nat -> string, actors: nat -> string, n: nat, owner: string)
    requires owner != "" && owners(0) == owner && owners(n) != owner
    requires forall k: nat {:trigger actors(k)} :: k < n ==> actors(k) != "" && Moves(owners(k), owners(k + 1), actors(k))
    ensures exists k: nat {:trigger actors(k)} :: k < n && actors(k) == owner == owners(k) && owners(k + 1) == ""
  {
    assert actors(n - 1) != "";
    if owners(n - 1) != owner { ReleasedSometime(owners, actors, n - 1, owner); }
  }

  /** Over any serial run, a resource that one instance owned has another owner, or none, only after a step by that
      instance released it. */
  lemma HandOverNeedsRelease(ts: seq<Tracker>, ops: seq<Operation>, n: nat, owner: string, name: string)
    requires n <= |ops| && forall k :: 0 <= k < |ops| ==> ops[k].instance != ""
    requires owner != "" && OwnerAt(ts, ops, 0, name) == owner && OwnerAt(ts, ops, n, name) != owner
    ensures exists k :: 0 <= k < n && ops[k].instance == owner
                        && OwnerAt(ts, ops, k, name) == owner && OwnerAt(ts, ops, k + 1, name) == ""
  {
    var owners := (k: nat) => if k <= |ops| then OwnerAt(ts, ops, k, name) else "";
    var actors := (k: nat) => if k < |ops| then ops[k].instance else "";
    forall k: nat | k < n ensures actors(k) != "" && Moves(owners(k), owners(k + 1), actors(k)) { StepMoves(ts, ops, k, name); }
    ReleasedSometime(owners, actors, n, owner);
    var k: nat :| k < n && actors(k) == owner == owners(k) && owners(k + 1) == "";
    assert ops[k].instance == owner;
  }
}
