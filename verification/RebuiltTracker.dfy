/** A rebuilt tracker list as the elections need it: unique names, comma-free fields, no owners. */
module RebuiltTracker {
  import opened Text
  import opened OperandVersion
  import opened DecisionTree
  import opened Migration
  import opened LeaderTrackers
  import opened LeaderElection
  import opened ElectionLaws
  import opened TrackerRebuild

  // ----- inserting keeps names apart exactly when they are -----

  lemma NameInserted(a: seq<Tracker>, t: Tracker, b: seq<Tracker>)
    ensures UniqueNames(a + [t] + b) <==> UniqueNames(a + b + [t])
  {
    if UniqueNames(a + b + [t]) { MoveToMiddle(a, t, b); }
    if UniqueNames(a + [t] + b) { MoveToEnd(a, t, b); }
  }

  lemma MoveToMiddle(a: seq<Tracker>, t: Tracker, b: seq<Tracker>)
    requires UniqueNames(a + b + [t])
    ensures UniqueNames(a + [t] + b)
  {
    var x, y := a + b + [t], a + [t] + b;
    var n := |a| + |b|;
    forall i, j | 0 <= i < j < |y| ensures y[i].name != y[j].name {
      var i' := if i < |a| then i else if i == |a| then n else i - 1;
      var j' := if j < |a| then j else if j == |a| then n else j - 1;
      assert y[i] == x[i'] && y[j] == x[j'] && i' != j';
    }
  }

  lemma MoveToEnd(a: seq<Tracker>, t: Tracker, b: seq<Tracker>)
    requires UniqueNames(a + [t] + b)
    ensures UniqueNames(a + b + [t])
  {
    var x, y := a + [t] + b, a + b + [t];
    var n := |a| + |b|;
    forall i, j | 0 <= i < j < |y| ensures y[i].name != y[j].name {
      var i' := if i < |a| then i else if i == n then |a| else i + 1;
      var j' := if j < |a| then j else if j == n then |a| else j + 1;
      assert y[i] == x[i'] && y[j] == x[j'] && i' != j';
    }
  }

  lemma InsertedNames(ts: seq<Tracker>, t: Tracker)
    ensures UniqueNames(Inserted(ts, t)) <==> UniqueNames(ts + [t])
  {
    InsertionKeepsOrder(ts, t);
    var k :| 0 <= k <= |ts| && Inserted(ts, t) == ts[..k] + [t] + ts[k..];
    NameInserted(ts[..k], t, ts[k..]);
    assert ts[..k] + ts[k..] == ts;
  }

  /** The names of the trackers. */
  function Names(ts: seq<Tracker>): (r: set<string>)
    ensures forall x :: x in r <==> exists i :: 0 <= i < |ts| && ts[i].name == x
  {
    set i | 0 <= i < |ts| :: ts[i].name
  }

  lemma UniqueSnoc(ts: seq<Tracker>, t: Tracker)
    ensures UniqueNames(ts + [t]) <==> UniqueNames(ts) && t.name !in Names(ts)
  {
    var x := ts + [t];
    if UniqueNames(ts) && t.name !in Names(ts) {
      forall i, j | 0 <= i < j < |x| ensures x[i].name != x[j].name { if j < |ts| { assert x[i] == ts[i] && x[j] == ts[j]; } }
    }
    if UniqueNames(x) {
      forall i | 0 <= i < |ts| ensures ts[i].name != t.name { assert x[i] == ts[i] && x[|ts|] == t; }
      forall i, j | 0 <= i < j < |ts| ensures ts[i].name != ts[j].name { assert x[i] == ts[i] && x[j] == ts[j]; }
    }
  }

  lemma InsertedHas(ts: seq<Tracker>, t: Tracker, x: Tracker)
    ensures x in Inserted(ts, t) <==> x in ts || x == t
  {
    InsertionKeepsOrder(ts, t);
    var k :| 0 <= k <= |ts| && Inserted(ts, t) == ts[..k] + [t] + ts[k..];
    assert ts == ts[..k] + ts[k..];
  }

  lemma {:induction false} InsertedAllKeeps(ts: seq<Tracker>, entries: seq<Tracker>, x: Tracker)
    ensures x in InsertedAll(ts, entries) <==> x in ts || x in entries
  {
    if entries != [] {
      var n := |entries| - 1;
      InsertedAllKeeps(ts, entries[..n], x);
      InsertedHas(InsertedAll(ts, entries[..n]), entries[n], x);
      assert entries == entries[..n] + [entries[n]];
    }
  }

  lemma NamesOfAll(ts: seq<Tracker>, entries: seq<Tracker>)
    ensures Names(InsertedAll(ts, entries)) == Names(ts + entries)
  {
    var r, s := InsertedAll(ts, entries), ts + entries;
    forall x: Tracker ensures x in r <==> x in s { InsertedAllKeeps(ts, entries, x); }
    SameNames(r, s);
  }

  lemma SameNames(r: seq<Tracker>, s: seq<Tracker>)
    requires forall x :: x in r <==> x in s
    ensures Names(r) == Names(s)
  {
    forall n | n in Names(r) ensures n in Names(s) {
      var i :| 0 <= i < |r| && r[i].name == n;
      assert r[i] in s;
    }
    forall n | n in Names(s) ensures n in Names(r) {
      var i :| 0 <= i < |s| && s[i].name == n;
      assert s[i] in r;
    }
  }

  lemma {:induction false} InsertedAllNames(ts: seq<Tracker>, entries: seq<Tracker>)
    ensures UniqueNames(InsertedAll(ts, entries)) <==> UniqueNames(ts + entries)
  {
    if entries == [] {
      assert ts + entries == ts;
    } else {
      var n := |entries| - 1;
      InsertedAllNames(ts, entries[..n]);
      NamesOfAll(ts, entries[..n]);
      InsertedNames(InsertedAll(ts, entries[..n]), entries[n]);
      UniqueSnoc(InsertedAll(ts, entries[..n]), entries[n]);
      UniqueSnoc(ts + entries[..n], entries[n]);
      assert ts + entries[..n] + [entries[n]] == ts + entries;
    }
  }

  // ----- the entries of one kind of resources -----

  /** Commas occur neither in a label or a name nor in a leaf path. */
  ghost predicate NoCommas(c: Context, resources: seq<Resource>) {
    && (forall p :: IsLeafPath(c.tree, p) ==> ',' !in p)
    && (forall x :: x in resources ==> ',' !in x.name && (x.pathIndexLabel.Some? ==> ',' !in x.pathIndexLabel.value))
  }

  predicate Plain(t: Tracker) { CommaFree(t) && t.owner == "" }

  lemma LeafIndexIsCommaFree(c: Context, path: string)
    requires IsLeafPath(c.tree, path) && ',' !in path
    ensures ',' !in PathIndexOf(c.tree, path)
  {
    if ',' in VersionOf(path) { PiecesComeFrom(path, '.', 0, ','); }
    DecimalHasNo(LeafIndex(c.tree, path), ',');
  }

  lemma MovedIsPlain(c: Context, path: string, index: string, t: Tracker, newLabel: string, r: Outcome)
    requires InForce(c) && IsLeafPath(c.tree, path) && ',' !in index && ',' !in t.name && t.owner == ""
    requires forall p :: IsLeafPath(c.tree, p) ==> ',' !in p
    requires MovedEntry(c, path, index, t, newLabel, r)
    ensures Plain(t)
  {
    if IsValidOperandVersion(VersionOf(path)) {
      MigratedIsLeaf(c, path, r);
      LeafIndexIsCommaFree(c, r.path);
    }
  }

  lemma EntryIsPlain(c: Context, root: string, res: Resource, t: Tracker, newLabel: string)
    requires InForce(c) && EntryOf(c, root, res, t, newLabel) && NoCommas(c, [res])
    ensures Plain(t) && t.name == res.name[|root|..]
  {
    assert res in [res];
    var index := res.pathIndexLabel.value;
    DecodedIsLeaf(c.tree, index);
    if Split(index, '.')[0] != c.latest {
      var path := Decoded(c.tree, index).value;
      var r :| MovedEntry(c, path, index, t, newLabel, r);
      MovedIsPlain(c, path, index, t, newLabel, r);
    }
  }

  lemma EntriesArePlain(c: Context, root: string, before: seq<Resource>, after: seq<Resource>, entries: seq<Tracker>)
    requires InForce(c) && Entries(c, root, before, after, entries) && NoCommas(c, before)
    ensures forall k :: 0 <= k < |entries| ==> Plain(entries[k])
  {
    var tracked := x => Tracked(c.tree, x);
    var row := (x, t, l) => ContextOk(c) && EntryOf(c, root, x, t, l);
    var good := t => Plain(t);
    forall x, t, l | x in before && tracked(x) && row(x, t, l) ensures good(t) {
      assert NoCommas(c, [x]);
      EntryIsPlain(c, root, x, t, l);
    }
    PairedAll(tracked, row, good, before, after, entries);
    assert forall k :: 0 <= k < |entries| ==> good(entries[k]);
  }

  lemma PlainIsGood(ts: seq<Tracker>)
    requires UniqueNames(ts) && forall k :: 0 <= k < |ts| ==> Plain(ts[k])
    ensures Good(ts)
  {
  }

  /** What was listed before, and entries made of resources, give a good list exactly when all their names differ. */
  lemma RebuiltIsGoodExactly(c: Context, root: string, before: seq<Resource>, after: seq<Resource>, entries: seq<Tracker>, start: seq<Tracker>)
    requires InForce(c) && Entries(c, root, before, after, entries) && NoCommas(c, before)
    requires forall k :: 0 <= k < |start| ==> Plain(start[k])
    ensures Good(InsertedAll(start, entries)) <==> UniqueNames(start + entries)
    ensures forall k :: 0 <= k < |InsertedAll(start, entries)| ==> Plain(InsertedAll(start, entries)[k])
  {
    var r := InsertedAll(start, entries);
    EntriesArePlain(c, root, before, after, entries);
    forall k | 0 <= k < |r| ensures Plain(r[k]) {
      InsertedAllKeeps(start, entries, r[k]);
      if r[k] in start {
        var i :| 0 <= i < |start| && start[i] == r[k];
      } else {
        var i :| 0 <= i < |entries| && entries[i] == r[k];
      }
    }
    InsertedAllNames(start, entries);
    if UniqueNames(r) { PlainIsGood(r); }
  }

  // ----- distinct suffixes are enough for one kind -----

  ghost predicate DistinctBy(name: Resource -> string, resources: seq<Resource>) {
    forall i, j :: 0 <= i < j < |resources| ==> name(resources[i]) != name(resources[j])
  }

  lemma {:induction false} PairedNames(tracked: Resource -> bool, row: (Resource, Tracker, string) -> bool, name: Resource -> string,
                                       before: seq<Resource>, after: seq<Resource>, entries: seq<Tracker>)
    requires Paired(tracked, row, before, after, entries) && DistinctBy(name, before)
    requires forall x, t, l :: row(x, t, l) ==> t.name == name(x)
    ensures UniqueNames(entries) && forall k :: 0 <= k < |entries| ==> NameOfSome(name, before, entries[k])
  {
    if before != [] {
      var n := |before| - 1;
      var rest := if tracked(before[n]) then entries[..|entries| - 1] else entries;
      PairedNames(tracked, row, name, before[..n], after[..n], rest);
      forall k | 0 <= k < |rest| ensures NameOfSome(name, before, rest[k]) && rest[k].name != name(before[n]) {
        var j :| 0 <= j < n && rest[k].name == name(before[..n][j]);
        assert before[..n][j] == before[j];
      }
      if tracked(before[n]) {
        assert entries == rest + [entries[|entries| - 1]];
        assert NameOfSome(name, before, entries[|entries| - 1]);
        UniqueSnoc(rest, entries[|entries| - 1]);
      }
    }
  }

  ghost predicate NameOfSome(name: Resource -> string, before: seq<Resource>, t: Tracker) {
    exists j :: 0 <= j < |before| && t.name == name(before[j])
  }

  /** A list rebuilt from resources with distinct suffixes is one the elections can start from. */
  lemma RebuiltIsGood(c: Context, root: string, before: seq<Resource>, after: seq<Resource>, entries: seq<Tracker>)
    requires InForce(c) && Entries(c, root, before, after, entries) && NoCommas(c, before)
    requires DistinctBy(x => Suffix(root, x), before)
    ensures Good(InsertedAll([], entries)) && NoOwners(InsertedAll([], entries))
  {
    var tracked := x => Tracked(c.tree, x);
    var row := (x, t, l) => ContextOk(c) && EntryOf(c, root, x, t, l);
    PairedNames(tracked, row, x => Suffix(root, x), before, after, entries);
    RebuiltIsGoodExactly(c, root, before, after, entries, []);
    assert [] + entries == entries;
  }

  function Suffix(root: string, x: Resource): string { if |root| <= |x.name| then x.name[|root|..] else "" }
}
