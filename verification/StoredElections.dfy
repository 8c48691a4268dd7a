/** What elections and removals leave in the tracking Secret, over runs in which an instance reads the Secret, decides and
    saves before the next one reads. */
module StoredElections {
  import opened Text
  import opened LeaderTrackers
  import opened LeaderElection
  import opened ElectionLaws

  // ----- one election, stored -----

  /** The list a Secret reads back as. */
  function Listed(stored: Option<Data>): Option<seq<Tracker>> {
    if stored.Some? then Decode(stored.value) else None
  }

  lemma GoodReadsBack(ts: seq<Tracker>)
    requires Good(ts) && ts != [BLANK]
    ensures Decode(Encode(ts)) == Some(ts)
  {
    StoreThenRead(ts);
  }

  /** An answered leader is the owner in the list that is saved. */
  lemma AnsweredIsListed(ts: seq<Tracker>, instance: string, meta: Metadata, shouldElect: bool)
    requires instance != "" && Elect(ts, instance, meta, shouldElect).leader != ""
    ensures var r := Elect(ts, instance, meta, shouldElect).trackers; r != [BLANK] && IndexOfName(r, meta.name) != -1
  {
    AnswerMatchesOwner(ts, instance, meta, shouldElect);
  }

  /** The record an election leaves under the name: the one listed before, or a new one made from the metadata. */
  predicate RecordOf(ts: seq<Tracker>, meta: Metadata, t: Tracker) {
    var i := IndexOfName(ts, meta.name);
    t.name == meta.name && t.path == (if i == -1 then meta.path else ts[i].path)
    && t.pathIndex == (if i == -1 then meta.pathIndex else ts[i].pathIndex)
  }

  lemma ElectedRecord(ts: seq<Tracker>, instance: string, meta: Metadata, shouldElect: bool)
    requires instance != "" && Elect(ts, instance, meta, shouldElect).leader != ""
    ensures var r := Elect(ts, instance, meta, shouldElect).trackers;
            IndexOfName(r, meta.name) != -1 && RecordOf(ts, meta, r[IndexOfName(r, meta.name)])
  {
    var i := IndexOfName(ts, meta.name);
    if i == -1 {
      AppendedIsLast(ClearedAll(ts, instance, meta.path), Tracker(meta.name, instance, meta.pathIndex, meta.path));
    } else {
      ElectedKeepsNames(ts, instance, meta, shouldElect);
      ClearedIs(ts[i], instance, meta.path);
    }
  }

  lemma SavedExactly(ts: seq<Tracker>, instance: string, meta: Metadata, shouldElect: bool)
    requires instance != ""
    ensures var e := Elect(ts, instance, meta, shouldElect);
            && (e.saved <==> e.leader != "") && (e.leader == "" <==> !shouldElect && OwnerOf(ts, meta.name) == "")
  {
  }

  lemma SecretAfter(s: State, w: nat, instance: string, meta: Metadata, shouldElect: bool)
    requires w in s.held
    ensures var e := Elect(s.held[w], instance, meta, shouldElect);
            AfterElection(s, w, instance, meta, shouldElect).stored == if e.saved then Some(Encode(e.trackers)) else s.stored
  {
  }

  /** The list has this owner under the name, with this path index. */
  predicate OwnedBy(r: seq<Tracker>, name: string, owner: string, pathIndex: string) {
    var i := IndexOfName(r, name); i != -1 && r[i].owner == owner && r[i].pathIndex == pathIndex
  }

  lemma ElectedOwns(ts: seq<Tracker>, instance: string, meta: Metadata, shouldElect: bool)
    requires instance != "" && Elect(ts, instance, meta, shouldElect).leader != ""
    ensures var e := Elect(ts, instance, meta, shouldElect);
            && OwnedBy(e.trackers, meta.name, e.leader, e.pathIndex) && e.trackers != [BLANK]
            && RecordOf(ts, meta, e.trackers[IndexOfName(e.trackers, meta.name)])
  {
    AnswerMatchesOwner(ts, instance, meta, shouldElect);
    AnsweredIsListed(ts, instance, meta, shouldElect);
    ElectedRecord(ts, instance, meta, shouldElect);
  }

  /** After an election that names a leader, the Secret reads back as a list that has this leader as the owner, with the path
      index that was answered; an election that names none leaves the Secret as it was. */
  lemma ElectionIsStored(s: State, w: nat, instance: string, meta: Metadata, shouldElect: bool)
    requires w in s.held && Good(s.held[w]) && Fits(s.held[w], meta) && CommaFreeMeta(meta) && ',' !in instance && instance != ""
    ensures var e := Elect(s.held[w], instance, meta, shouldElect);
            var s' := AfterElection(s, w, instance, meta, shouldElect);
            && (e.leader == "" <==> !shouldElect && OwnerOf(s.held[w], meta.name) == "")
            && (e.leader == "" ==> s'.stored == s.stored)
            && (e.leader != "" ==> Listed(s'.stored) == Some(e.trackers) && OwnedBy(e.trackers, meta.name, e.leader, e.pathIndex)
                                   && RecordOf(s.held[w], meta, e.trackers[IndexOfName(e.trackers, meta.name)]))
  {
    SavedExactly(s.held[w], instance, meta, shouldElect);
    SecretAfter(s, w, instance, meta, shouldElect);
    if Elect(s.held[w], instance, meta, shouldElect).leader != "" {
      ElectKeepsGood(s.held[w], instance, meta, shouldElect);
      ElectedOwns(s.held[w], instance, meta, shouldElect);
      GoodReadsBack(Elect(s.held[w], instance, meta, shouldElect).trackers);
    }
  }

  /** What an election does not decide it leaves: every tracker keeps its name, path and path index. */
  lemma ElectionKeepsRecords(ts: seq<Tracker>, instance: string, meta: Metadata, shouldElect: bool)
    ensures var r := Elect(ts, instance, meta, shouldElect).trackers;
            |ts| <= |r| && forall k :: 0 <= k < |ts| ==> r[k].(owner := "") == ts[k].(owner := "")
  {
  }

  /** Once a leader is named, the instance owns no other tracker of the sibling group: it gives up the rest of the group, or
      all of it when somebody else leads. Only an instance that already leads a tracker without a path keeps what it has. */
  lemma RestIsGivenUp(ts: seq<Tracker>, instance: string, meta: Metadata, shouldElect: bool)
    requires Good(ts) && Fits(ts, meta) && instance != "" && Elect(ts, instance, meta, shouldElect).leader != ""
    ensures var r := Elect(ts, instance, meta, shouldElect).trackers; var i := IndexOfName(ts, meta.name);
            i == -1 || ts[i].owner != instance || '.' in ts[i].path ==>
              forall k :: 0 <= k < |r| && r[k].owner == instance && Siblings(meta.path, r[k].path) ==> r[k].name == meta.name
  {
    var i := IndexOfName(ts, meta.name);
    forall k | 0 <= k < |ts| { ClearedAt(ts[k], instance, meta.path); }
    if i != -1 && ts[i].owner == instance && '.' in ts[i].path { OnlyOneOfGroup(ts, i, instance, meta.path); }
  }

  lemma OnlyOneOfGroup(ts: seq<Tracker>, i: nat, instance: string, path: string)
    requires OnePerGroup(ts) && i < |ts| && ts[i].owner == instance != "" && Siblings(path, ts[i].path)
    ensures forall k :: 0 <= k < |ts| && ts[k].owner == instance && Siblings(path, ts[k].path) ==> k == i
  {
    forall k | 0 <= k < |ts| && ts[k].owner == instance && Siblings(path, ts[k].path) ensures k == i {
      assert SameGroup(GroupOf, ts[i].path, ts[k].path) && SameGroup(GroupOf, ts[k].path, ts[i].path);
    }
  }

  // ----- turns: read, decide, save -----

  function Turned(stored: Option<Data>, op: Operation): Option<Data> {
    var s := Next(State(stored, map[]), Read(0));
    match op
    case Elects(instance, meta, shouldElect) => Next(s, SaveElection(0, instance, meta, shouldElect)).stored
    case Removes(instance) => Next(s, SaveRemoval(0, instance)).stored
  }

  /** The leader an instance is told; nothing while there is no Secret that reads back. */
  function Told(stored: Option<Data>, op: Operation): string {
    if op.Elects? && Listed(stored).Some? then Elect(Listed(stored).value, op.instance, op.meta, op.shouldElect).leader else ""
  }

  function StoredOwner(stored: Option<Data>, name: string): string {
    if Listed(stored).Some? then OwnerOf(Listed(stored).value, name) else ""
  }

  function OwnerIn(name: string): Option<Data> -> string { s => StoredOwner(s, name) }

  ghost predicate GoodSecret(stored: Option<Data>) { stored.Some? ==> ReadsGood(stored.value) }

  ghost predicate TurnFits(stored: Option<Data>, op: Operation) {
    && op.instance != "" && ',' !in op.instance
    && (op.Elects? && Listed(stored).Some? ==> CommaFreeMeta(op.meta) && Fits(Listed(stored).value, op.meta))
  }

  lemma ReadsThenHolds(stored: Option<Data>)
    requires GoodSecret(stored)
    ensures var s := Next(State(stored, map[]), Read(0));
            s == if stored.None? then State(stored, map[]) else State(stored, map[0 := Listed(stored).value])
  {
  }

  lemma RemovalSecret(stored: Option<Data>, instance: string)
    requires GoodSecret(stored) && stored.Some?
    ensures var ts := Listed(stored).value; var r := Removed(ts, instance);
            Turned(stored, Removes(instance))
            == if NoOwners(r) then None else if Owns(ts, instance) then Some(Encode(r)) else stored
  {
    ReadsThenHolds(stored);
  }

  /** After a removal the Secret reads back as the list without the instance; without any owner left there is no Secret. */
  lemma RemovalIsStored(stored: Option<Data>, instance: string)
    requires GoodSecret(stored) && stored.Some?
    ensures var r := Removed(Listed(stored).value, instance);
            var s' := Turned(stored, Removes(instance));
            if NoOwners(r) then s' == None else s'.Some? && Listed(s') == Some(r) && Good(r)
  {
    var ts := Listed(stored).value;
    RemovalSecret(stored, instance);
    RemovedKeepsGood(ts, instance);
    NobodyOwns(Removed(ts, instance));
    if !NoOwners(Removed(ts, instance)) {
      if Owns(ts, instance) { GoodReadsBack(Removed(ts, instance)); } else { NothingRemoved(ts, instance); }
    }
  }

  /** So the Secret lists the instance nowhere and everybody else as before. */
  lemma RemovalFreesOwner(stored: Option<Data>, instance: string, name: string)
    requires GoodSecret(stored) && instance != ""
    ensures GoodSecret(Turned(stored, Removes(instance)))
    ensures StoredOwner(Turned(stored, Removes(instance)), name)
            == if StoredOwner(stored, name) == instance then "" else StoredOwner(stored, name)
  {
    ReadsThenHolds(stored);
    if stored.Some? {
      RemovalIsStored(stored, instance);
      RemovalIsLocal(Listed(stored).value, instance, name);
      NobodyOwns(Removed(Listed(stored).value, instance));
    }
  }

  lemma NobodyOwns(ts: seq<Tracker>)
    ensures NoOwners(ts) ==> forall name :: OwnerOf(ts, name) == ""
    ensures !NoOwners(ts) ==> ts != [BLANK]
  {
  }

  lemma NothingRemoved(ts: seq<Tracker>, instance: string)
    requires !Owns(ts, instance)
    ensures Removed(ts, instance) == ts
  {
  }

  lemma ElectionTurn(stored: Option<Data>, instance: string, meta: Metadata, shouldElect: bool)
    requires GoodSecret(stored) && stored.Some? && TurnFits(stored, Elects(instance, meta, shouldElect))
    ensures var e := Elect(Listed(stored).value, instance, meta, shouldElect);
            Turned(stored, Elects(instance, meta, shouldElect)) == (if e.leader != "" then Some(Encode(e.trackers)) else stored)
            && (e.leader != "" ==> Decode(Encode(e.trackers)) == Some(e.trackers) && Good(e.trackers))
  {
    var ts := Listed(stored).value;
    var s := State(stored, map[0 := ts]);
    ReadsThenHolds(stored);
    ElectionIsStored(s, 0, instance, meta, shouldElect);
    SavedExactly(ts, instance, meta, shouldElect);
    SecretAfter(s, 0, instance, meta, shouldElect);
    ElectKeepsGood(ts, instance, meta, shouldElect);
  }

  /** The leader that a turn names is the stored owner afterwards; a turn that names none because nobody leads leaves it so. */
  lemma ToldIsStored(stored: Option<Data>, op: Operation)
    requires GoodSecret(stored) && TurnFits(stored, op)
    ensures GoodSecret(Turned(stored, op))
    ensures op.Elects? ==> StoredOwner(Turned(stored, op), op.meta.name) == Told(stored, op)
    ensures op.Elects? && op.shouldElect && stored.Some? ==> Told(stored, op) != ""
  {
    match op
    case Removes(instance) => RemovalFreesOwner(stored, instance, "");
    case Elects(instance, meta, shouldElect) =>
      ReadsThenHolds(stored);
      if stored.Some? {
        ElectionTurn(stored, instance, meta, shouldElect);
        AnswerMatchesOwner(Listed(stored).value, instance, meta, shouldElect);
        SavedExactly(Listed(stored).value, instance, meta, shouldElect);
      }
  }

  lemma TurnMoves(stored: Option<Data>, op: Operation, name: string)
    requires GoodSecret(stored) && TurnFits(stored, op)
    ensures Moves(StoredOwner(stored, name), StoredOwner(Turned(stored, op), name), op.instance)
  {
    match op
    case Removes(instance) => RemovalFreesOwner(stored, instance, name);
    case Elects(instance, meta, shouldElect) =>
      ReadsThenHolds(stored);
      if stored.Some? {
        ElectionTurn(stored, instance, meta, shouldElect);
        ElectionIsLocal(Listed(stored).value, instance, meta, shouldElect, name);
      }
  }

  // ----- runs of turns, for any way to take a turn -----

  type Turn = (Option<Data>, Operation) -> Option<Data>

  function RunAt(turn: Turn, stored: Option<Data>, ops: seq<Operation>, n: nat): Option<Data>
    requires n <= |ops|
  {
    if n == 0 then stored else turn(RunAt(turn, stored, ops, n - 1), ops[n - 1])
  }

  predicate FitsAt(turn: Turn, fits: (Option<Data>, Operation) -> bool, stored: Option<Data>, ops: seq<Operation>, k: nat)
    requires k < |ops|
  { fits(RunAt(turn, stored, ops, k), ops[k]) }

  ghost predicate RunFits(turn: Turn, good: Option<Data> -> bool, fits: (Option<Data>, Operation) -> bool, stored: Option<Data>, ops: seq<Operation>) {
    && good(stored) && (forall k {:trigger FitsAt(turn, fits, stored, ops, k)} :: 0 <= k < |ops| ==> FitsAt(turn, fits, stored, ops, k))
    && (forall s, op :: good(s) && fits(s, op) ==> good(turn(s, op)) && op.instance != "")
  }

  ghost predicate TurnsMove(turn: Turn, good: Option<Data> -> bool, fits: (Option<Data>, Operation) -> bool, owner: Option<Data> -> string) {
    forall s, op :: good(s) && fits(s, op) ==> Moves(owner(s), owner(turn(s, op)), op.instance)
  }

  lemma {:induction false} AlwaysGood(turn: Turn, good: Option<Data> -> bool, fits: (Option<Data>, Operation) -> bool,
                                      stored: Option<Data>, ops: seq<Operation>, n: nat)
    requires n <= |ops| && RunFits(turn, good, fits, stored, ops)
    ensures good(RunAt(turn, stored, ops, n))
  {
    if n > 0 {
      AlwaysGood(turn, good, fits, stored, ops, n - 1);
      assert FitsAt(turn, fits, stored, ops, n - 1);
    }
  }

  /** The instance of turn k owned the resource and gave it up. */
  predicate GivesUpAt(turn: Turn, owner: Option<Data> -> string, stored: Option<Data>, ops: seq<Operation>, k: nat, who: string) {
    && k < |ops| && ops[k].instance == who
    && owner(RunAt(turn, stored, ops, k)) == who && owner(RunAt(turn, stored, ops, k + 1)) == ""
  }

  predicate MovesAt(turn: Turn, owner: Option<Data> -> string, stored: Option<Data>, ops: seq<Operation>, k: nat)
    requires k < |ops|
  {
    ops[k].instance != "" && Moves(owner(RunAt(turn, stored, ops, k)), owner(RunAt(turn, stored, ops, k + 1)), ops[k].instance)
  }

  lemma OneMove(turn: Turn, good: Option<Data> -> bool, fits: (Option<Data>, Operation) -> bool,
                owner: Option<Data> -> string, stored: Option<Data>, ops: seq<Operation>, k: nat)
    requires k < |ops| && RunFits(turn, good, fits, stored, ops) && TurnsMove(turn, good, fits, owner)
    ensures MovesAt(turn, owner, stored, ops, k)
  {
    AlwaysGood(turn, good, fits, stored, ops, k);
    assert FitsAt(turn, fits, stored, ops, k);
  }

  lemma {:induction false} OwnerKeeps(turn: Turn, owner: Option<Data> -> string, stored: Option<Data>, ops: seq<Operation>,
                                      i: nat, j: nat, who: string)
    requires i <= j <= |ops| && forall k {:trigger MovesAt(turn, owner, stored, ops, k)} :: 0 <= k < |ops| ==> MovesAt(turn, owner, stored, ops, k)
    requires who != "" && owner(RunAt(turn, stored, ops, i)) == who && owner(RunAt(turn, stored, ops, j)) != who
    ensures exists k: nat :: i <= k < j && GivesUpAt(turn, owner, stored, ops, k, who)
  {
    assert MovesAt(turn, owner, stored, ops, j - 1);
    if owner(RunAt(turn, stored, ops, j - 1)) == who {
      assert GivesUpAt(turn, owner, stored, ops, j - 1, who);
    } else {
      OwnerKeeps(turn, owner, stored, ops, i, j - 1, who);
    }
  }

  /** When a turn tells the owner it leaves, another one is told later only after the first gave the resource up. */
  lemma ToldKeeps(turn: Turn, owner: Option<Data> -> string, told: (Option<Data>, Operation) -> string, stored: Option<Data>,
                  ops: seq<Operation>, i: nat, j: nat)
    requires i < j < |ops| && forall k {:trigger MovesAt(turn, owner, stored, ops, k)} :: 0 <= k < |ops| ==> MovesAt(turn, owner, stored, ops, k)
    requires owner(RunAt(turn, stored, ops, i + 1)) == told(RunAt(turn, stored, ops, i), ops[i]) != ""
    requires owner(RunAt(turn, stored, ops, j + 1)) == told(RunAt(turn, stored, ops, j), ops[j])
    requires told(RunAt(turn, stored, ops, i), ops[i]) != told(RunAt(turn, stored, ops, j), ops[j])
    ensures exists k: nat :: i < k <= j && GivesUpAt(turn, owner, stored, ops, k, told(RunAt(turn, stored, ops, i), ops[i]))
  {
    OwnerKeeps(turn, owner, stored, ops, i + 1, j + 1, told(RunAt(turn, stored, ops, i), ops[i]));
  }

  // ----- runs of elections and removals -----

  function SecretAt(stored: Option<Data>, ops: seq<Operation>, n: nat): Option<Data>
    requires n <= |ops|
  { RunAt(Turned, stored, ops, n) }

  ghost predicate AllFit(stored: Option<Data>, ops: seq<Operation>) {
    && GoodSecret(stored)
    && forall k {:trigger TurnFitsAt(stored, ops, k)} :: 0 <= k < |ops| ==> TurnFitsAt(stored, ops, k)
  }

  ghost predicate TurnFitsAt(stored: Option<Data>, ops: seq<Operation>, k: nat)
    requires k < |ops|
  { TurnFits(SecretAt(stored, ops, k), ops[k]) }

  predicate ReleasedAt(stored: Option<Data>, ops: seq<Operation>, k: nat, who: string, name: string) {
    GivesUpAt(Turned, OwnerIn(name), stored, ops, k, who)
  }

  lemma TurnsFitTogether(stored: Option<Data>, ops: seq<Operation>)
    requires AllFit(stored, ops)
    ensures RunFits(Turned, s => GoodSecret(s), (s, op) => TurnFits(s, op), stored, ops)
  {
    forall s, op | GoodSecret(s) && TurnFits(s, op) ensures GoodSecret(Turned(s, op)) { ToldIsStored(s, op); }
    var fits := (s, op) => TurnFits(s, op);
    forall k | 0 <= k < |ops| ensures FitsAt(Turned, fits, stored, ops, k) {
      assert TurnFitsAt(stored, ops, k);
    }
  }

  lemma AllMove(stored: Option<Data>, ops: seq<Operation>, name: string)
    requires AllFit(stored, ops)
    ensures forall k {:trigger MovesAt(Turned, OwnerIn(name), stored, ops, k)} :: 0 <= k < |ops| ==>
              MovesAt(Turned, OwnerIn(name), stored, ops, k)
  {
    var owner := OwnerIn(name);
    TurnsFitTogether(stored, ops);
    TurnsMoveOwners(name);
    forall k | 0 <= k < |ops| ensures MovesAt(Turned, owner, stored, ops, k) {
      OneMove(Turned, s => GoodSecret(s), (s, op) => TurnFits(s, op), owner, stored, ops, k);
    }
  }

  lemma TurnsMoveOwners(name: string)
    ensures TurnsMove(Turned, s => GoodSecret(s), (s, op) => TurnFits(s, op), OwnerIn(name))
  {
    forall s, op | GoodSecret(s) && TurnFits(s, op)
      ensures Moves(StoredOwner(s, name), StoredOwner(Turned(s, op), name), op.instance)
    {
      TurnMoves(s, op, name);
    }
  }

  /** The leader told at turn k. */
  function ToldAt(stored: Option<Data>, ops: seq<Operation>, k: nat): string
    requires k < |ops|
  { Told(SecretAt(stored, ops, k), ops[k]) }

  predicate ElectsFor(op: Operation, name: string) { op.Elects? && op.meta.name == name }

  lemma ToldThenOwned(stored: Option<Data>, ops: seq<Operation>, k: nat, name: string)
    requires AllFit(stored, ops) && k < |ops| && ElectsFor(ops[k], name)
    ensures StoredOwner(RunAt(Turned, stored, ops, k + 1), name) == Told(RunAt(Turned, stored, ops, k), ops[k])
  {
    TurnsFitTogether(stored, ops);
    AlwaysGood(Turned, s => GoodSecret(s), (s, op) => TurnFits(s, op), stored, ops, k);
    assert TurnFitsAt(stored, ops, k);
    ToldIsStored(SecretAt(stored, ops, k), ops[k]);
  }

  /** Once an instance was named the leader of a resource, a later election names another one, or none, only after a turn in
      between by which that instance gave the resource up. */
  lemma LeadershipIsKept(stored: Option<Data>, ops: seq<Operation>, i: nat, j: nat, name: string)
    requires i < j < |ops| && AllFit(stored, ops) && ElectsFor(ops[i], name) && ElectsFor(ops[j], name)
    requires ToldAt(stored, ops, i) != "" && ToldAt(stored, ops, i) != ToldAt(stored, ops, j)
    ensures exists k: nat :: i < k <= j && ReleasedAt(stored, ops, k, ToldAt(stored, ops, i), name)
  {
    ToldThenOwned(stored, ops, i, name);
    ToldThenOwned(stored, ops, j, name);
    AllMove(stored, ops, name);
    ToldKeeps(Turned, OwnerIn(name), Told, stored, ops, i, j);
    var k: nat :| i < k <= j && GivesUpAt(Turned, OwnerIn(name), stored, ops, k, ToldAt(stored, ops, i));
    assert ReleasedAt(stored, ops, k, ToldAt(stored, ops, i), name);
  }

  // ----- Secrets that cannot be read -----

  /** Reading a Secret whose columns are out of step deletes it, and nobody gets a list. */
  lemma UnreadableIsDropped(s: State, w: nat)
    requires s.stored.Some? && Listed(s.stored).None?
    ensures Next(s, Read(w)) == State(None, s.held)
  {
  }
}
