/** Leader election over the tracked resources: reconcileLeaderWithState and RemoveLeader in
    internal/controller/resource_sharing.go. */
module LeaderElection {
  import opened Text
  import opened LeaderTrackers

  /** What an election needs to know about the resource. */
  datatype Metadata = Metadata(name: string, path: string, pathIndex: string)

  // ----- sibling groups -----

  /** The path up to its last dot, the way ClearOwnerIfMatchingAndSharesLastPathParent computes it. */
  function Parent(path: string): string {
    var segments := Split(path, '.');
    Join(segments[..|segments| - 1], '.')
  }

  /** The sibling group of a path; a path without a dot has none. */
  function GroupOf(path: string): Option<string> {
    if '.' in path then Some(Parent(path)) else None
  }

  predicate SameGroup(group: string -> Option<string>, p: string, q: string) {
    group(p).Some? && group(p) == group(q)
  }

  predicate Siblings(p: string, q: string) { SameGroup(GroupOf, p, q) }

  function Cleared(t: Tracker, instance: string, path: string): Tracker {
    if Siblings(path, t.path) && t.owner == instance then t.(owner := "") else t
  }

  function ClearedAll(ts: seq<Tracker>, instance: string, path: string): (r: seq<Tracker>)
    ensures |r| == |ts|
    ensures forall i :: 0 <= i < |ts| ==> r[i] == Cleared(ts[i], instance, path)
  {
    if ts == [] then [] else [Cleared(ts[0], instance, path)] + ClearedAll(ts[1..], instance, path)
  }

  /** The same, sparing one position. */
  function ClearedExcept(ts: seq<Tracker>, instance: string, path: string, except: int): (r: seq<Tracker>)
    ensures |r| == |ts|
    ensures forall j :: 0 <= j < |ts| ==> r[j] == if j == except then ts[j] else Cleared(ts[j], instance, path)
  {
    var all := ClearedAll(ts, instance, path);
    if 0 <= except < |ts| then all[except := ts[except]] else all
  }

  /** The last position with a name, or -1. */
  function IndexOfName(ts: seq<Tracker>, name: string): (i: int)
    ensures -1 <= i < |ts|
    ensures i >= 0 ==> ts[i].name == name
    ensures forall j :: i < j < |ts| ==> ts[j].name != name
  {
    if ts == [] then -1
    else if ts[|ts| - 1].name == name then |ts| - 1
    else IndexOfName(ts[..|ts| - 1], name)
  }

  // ----- the outcome of an election -----

  datatype Election = Election(trackers: seq<Tracker>, saved: bool, leader: string, isLeader: bool, pathIndex: string)

  function Elect(ts: seq<Tracker>, instance: string, meta: Metadata, shouldElect: bool): Election {
    var i := IndexOfName(ts, meta.name);
    if i == -1 then
      if !shouldElect then Election(ts, false, "", false, "")
      else Election(ClearedAll(ts, instance, meta.path) + [Tracker(meta.name, instance, meta.pathIndex, meta.path)],
                    true, instance, true, meta.pathIndex)
    else if ts[i].owner != "" then
      Election(if ts[i].owner != instance then ClearedAll(ts, instance, meta.path) else ts,
               true, ts[i].owner, ts[i].owner == instance, ts[i].pathIndex)
    else if !shouldElect then Election(ts, false, "", false, "")
    else Election(ClearedAll(ts, instance, meta.path)[i := ts[i].(owner := instance)], true, instance, true, ts[i].pathIndex)
  }

  function WithoutOwner(t: Tracker, instance: string): Tracker {
    if t.owner == instance then t.(owner := "") else t
  }

  function Removed(ts: seq<Tracker>, instance: string): (r: seq<Tracker>)
    ensures |r| == |ts|
    ensures forall i :: 0 <= i < |ts| ==> r[i] == WithoutOwner(ts[i], instance)
  {
    if ts == [] then [] else [WithoutOwner(ts[0], instance)] + Removed(ts[1..], instance)
  }

  predicate NoOwners(ts: seq<Tracker>) { forall i :: 0 <= i < |ts| ==> ts[i].owner == "" }

  predicate Owns(ts: seq<Tracker>, instance: string) { exists i :: 0 <= i < |ts| && ts[i].owner == instance }

  // ----- the operations, on a list changed in place and a stored Secret -----

  /** The trackers an instance has read; its methods change them in place. */
  class TrackerList {
    var items: seq<Tracker>

    constructor (ts: seq<Tracker>)
      ensures items == ts
    {
      items := ts;
    }

    method ClearOwnerIfMatchingAndSharesLastPathParent(i: nat, instance: string, path: string) returns (changed: bool)
      requires i < |items|
      modifies this
      ensures items == old(items)[i := Cleared(old(items)[i], instance, path)]
      ensures changed == (Siblings(path, old(items)[i].path) && old(items)[i].owner == instance)
    {
      var tracker := items[i];
      if '.' !in path || '.' !in tracker.path { return false; }
      var pathArr, trackerPathArr := Split(path, '.'), Split(tracker.path, '.');
      if tracker.owner == instance
         && Join(pathArr[..|pathArr| - 1], '.') == Join(trackerPathArr[..|trackerPathArr| - 1], '.') {
        items := items[i := tracker.(owner := "")];
        return true;
      }
      changed := false;
    }

    method ClearOwnerIfMatching(i: nat, instance: string) returns (changed: bool)
      requires i < |items|
      modifies this
      ensures items == old(items)[i := WithoutOwner(old(items)[i], instance)]
      ensures changed == (old(items)[i].owner == instance)
    {
      changed := items[i].owner == instance;
      if changed { items := items[i := items[i].(owner := "")]; }
    }

    method SetOwner(i: nat, instance: string)
      requires i < |items|
      modifies this
      ensures items == old(items)[i := old(items)[i].(owner := instance)]
    {
      items := items[i := items[i].(owner := instance)];
    }

    /** Clears the instance from every tracker of the path's sibling group except the one at `except`. */
    method ClearGroup(instance: string, path: string, except: int)
      modifies this
      ensures items == ClearedExcept(old(items), instance, path, except)
    {
      var i := 0;
      while i < |items|
        invariant 0 <= i <= |items| == |old(items)|
        invariant forall j :: 0 <= j < i ==>
                    items[j] == if j == except then old(items)[j] else Cleared(old(items)[j], instance, path)
        invariant forall j :: i <= j < |items| ==> items[j] == old(items)[j]
      {
        if i != except {
          var _ := ClearOwnerIfMatchingAndSharesLastPathParent(i, instance, path);
        }
        i := i + 1;
      }
    }
  }

  lemma SparedThenSet(ts: seq<Tracker>, instance: string, path: string, i: nat)
    requires i < |ts|
    ensures var r := ClearedExcept(ts, instance, path, i);
            r[i := r[i].(owner := instance)] == ClearedAll(ts, instance, path)[i := ts[i].(owner := instance)]
            && r[i].pathIndex == ts[i].pathIndex
  {
  }

  method FindByName(ts: seq<Tracker>, name: string) returns (r: int)
    ensures r == IndexOfName(ts, name)
  {
    r := -1;
    for i := 0 to |ts|
      invariant r == IndexOfName(ts[..i], name)
    {
      assert ts[..i + 1][..i] == ts[..i];
      if ts[i].name == name { r := i; }
    }
    assert ts[..|ts|] == ts;
  }

  /** The tracking Secret in the namespace. */
  class TrackerSecret {
    var data: Option<Data>

    method Save(list: TrackerList)
      modifies this
      ensures data == Some(Encode(list.items))
    {
      var encoded := CustomizeLeaderTracker(Some(list.items));
      data := Some(encoded);
    }

    method Delete()
      modifies this
      ensures data == None
    {
      data := None;
    }

    method ReconcileLeaderWithState(list: TrackerList, instance: string, meta: Metadata, shouldElectNewLeader: bool)
      returns (leader: string, isLeader: bool, pathIndex: string)
      modifies this, list
      ensures var e := Elect(old(list.items), instance, meta, shouldElectNewLeader);
              && list.items == e.trackers
              && leader == e.leader && isLeader == e.isLeader && pathIndex == e.pathIndex
              && data == if e.saved then Some(Encode(e.trackers)) else old(data)
    {
      ghost var ts := list.items;
      var initialLeaderIndex := FindByName(list.items, meta.name);
      if initialLeaderIndex == -1 {
        if !shouldElectNewLeader { return "", false, ""; }
        list.ClearGroup(instance, meta.path, -1);
        list.items := list.items + [Tracker(meta.name, instance, meta.pathIndex, meta.path)];
        Save(list);
        return instance, true, meta.pathIndex;
      }
      var candidateLeader := list.items[initialLeaderIndex].owner;
      if |candidateLeader| > 0 {
        if candidateLeader != instance {
          list.ClearGroup(instance, meta.path, -1);
        }
        var currentOwner := list.items[initialLeaderIndex].owner;
        assert currentOwner == candidateLeader;  // nothing evicts the owner here, so it need not be replaced
        Save(list);
        return currentOwner, currentOwner == instance, list.items[initialLeaderIndex].pathIndex;
      }
      if !shouldElectNewLeader { return "", false, ""; }
      list.ClearGroup(instance, meta.path, initialLeaderIndex);
      pathIndex := list.items[initialLeaderIndex].pathIndex;
      list.SetOwner(initialLeaderIndex, instance);
      SparedThenSet(ts, instance, meta.path, initialLeaderIndex);
      Save(list);
      leader, isLeader := instance, true;
    }

    method RemoveLeader(list: TrackerList, instance: string)
      modifies this, list
      ensures list.items == Removed(old(list.items), instance)
      ensures NoOwners(list.items) ==> data == None
      ensures !NoOwners(list.items) ==> data == if Owns(old(list.items), instance) then Some(Encode(list.items)) else old(data)
    {
      ghost var ts := list.items;
      var changeDetected, noOwners := false, true;
      var i := 0;
      while i < |list.items|
        invariant 0 <= i <= |list.items| == |ts|
        invariant forall j :: 0 <= j < i ==> list.items[j] == WithoutOwner(ts[j], instance)
        invariant forall j :: i <= j < |ts| ==> list.items[j] == ts[j]
        invariant changeDetected <==> exists j :: 0 <= j < i && ts[j].owner == instance
        invariant noOwners <==> forall j :: 0 <= j < i ==> list.items[j].owner == ""
        invariant data == old(data)
      {
        var changed := list.ClearOwnerIfMatching(i, instance);
        if changed { changeDetected := true; }
        if list.items[i].owner != "" { noOwners := false; }
        i := i + 1;
      }
      assert list.items == Removed(ts, instance);
      if noOwners {
        Delete();
      } else if changeDetected {
        Save(list);
      }
    }
  }

  // ----- sibling groups, by the paths alone -----

  /** The parent of a path is what stands before its last segment. */
  lemma ParentExactly(g: string, x: string)
    requires '.' !in x
    ensures '.' in g + "." + x && Parent(g + "." + x) == g
  {
    assert g + "." + x == g + ['.'] + x;
    SplitConcat(g, '.', x);
    SplitSingle(x, '.');
    var segments := Split(g + "." + x, '.');
    assert segments == Split(g, '.') + [x];
    assert segments[..|segments| - 1] == Split(g, '.');
    JoinSplit(g, '.');
  }

  lemma HasParent(path: string) returns (g: string, x: string)
    requires '.' in path
    ensures '.' !in x && path == g + "." + x
  {
    var i := LastIndex(path, '.');
    g, x := path[..i], path[i + 1..];
    assert path == path[..i] + "." + path[i + 1..];
  }

  /** Two paths are siblings exactly when they differ in their last segment at most. */
  lemma SiblingsExactly(p: string, q: string)
    ensures Siblings(p, q) <==>
            exists g, x, y {:trigger g + "." + x, g + "." + y} :: '.' !in x && '.' !in y && p == g + "." + x && q == g + "." + y
  {
    if Siblings(p, q) {
      var g, x := HasParent(p);
      var h, y := HasParent(q);
      ParentExactly(g, x);
      ParentExactly(h, y);
      assert p == g + "." + x && q == g + "." + y;
    }
    if g, x, y {:trigger g + "." + x, g + "." + y} :| '.' !in x && '.' !in y && p == g + "." + x && q == g + "." + y {
      ParentExactly(g, x);
      ParentExactly(g, y);
    }
  }
}
