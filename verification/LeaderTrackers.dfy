/** The persisted leader tracker (utils/leader_tracker.go): four comma-joined columns, and the names handed out
    against them (getLTPAMetadataName in internal/controller/ltpa_keys_sharing.go). */
module LeaderTrackers {
  import opened Text
  import opened DecisionTree

  datatype Tracker = Tracker(name: string, owner: string, pathIndex: string, path: string)

  datatype Field = Name | Owner | PathIndex | Path

  function Get(t: Tracker, f: Field): string {
    match f
    case Name => t.name
    case Owner => t.owner
    case PathIndex => t.pathIndex
    case Path => t.path
  }

  function Column(ts: seq<Tracker>, f: Field): (c: seq<string>)
    ensures |c| == |ts|
    ensures forall i :: 0 <= i < |ts| ==> c[i] == Get(ts[i], f)
  {
    if ts == [] then [] else [Get(ts[0], f)] + Column(ts[1..], f)
  }

  /** The data of the tracking Secret. */
  type Data = map<Field, string>

  function Field0(data: Data, f: Field): string { if f in data then data[f] else "" }

  // ----- comma lists -----

  /** GetCommaSeparatedArray. */
  function CommaArray(s: string): seq<string> {
    if ',' in s then Split(s, ',') else [s]
  }

  lemma CommaArrayIsSplit(s: string)
    ensures CommaArray(s) == Split(s, ',')
  {
    if ',' !in s { SplitSingle(s, ','); }
  }

  /** CommaSeparatedStringContains: the first position of a value, or -1. */
  method CommaSeparatedStringContains(stringList: string, value: string) returns (r: int)
    ensures r == FirstIndex(Split(stringList, ','), value)
  {
    CommaArrayIsSplit(stringList);
    if ',' in stringList {
      var labels := Split(stringList, ',');
      for i := 0 to |labels|
        invariant value !in labels[..i]
      {
        if value == labels[i] {
          FirstIndexUnique(labels, value, i);
          return i;
        }
        assert labels[..i + 1] == labels[..i] + [labels[i]];
      }
      assert labels[..|labels|] == labels;
    } else if stringList == value {
      return 0;
    }
    r := -1;
  }

  /** GetCommaSeparatedString with its error dropped: the empty string when there is no such element. */
  function ElementAt(stringList: string, index: int): string {
    var elements := Split(stringList, ',');
    if 0 <= index < |elements| then elements[index] else ""
  }

  method GetCommaSeparatedString(stringList: string, index: int) returns (r: string)
    ensures r == ElementAt(stringList, index)
  {
    CommaArrayIsSplit(stringList);
    if stringList == "" { return ""; }
    if ',' in stringList {
      var elements := Split(stringList, ',');
      for i := 0 to |elements|
        invariant index < 0 || i <= index
      {
        if index == i { return elements[i]; }
      }
    } else if index == 0 {
      return stringList;
    }
    r := "";
  }

  // ----- storing -----

  function Encode(ts: seq<Tracker>): Data {
    map[Owner := Join(Column(ts, Owner), ','), Name := Join(Column(ts, Name), ','),
        PathIndex := Join(Column(ts, PathIndex), ','), Path := Join(Column(ts, Path), ',')]
  }

  /** What the encoding loop has written for a column of n elements after the first i. */
  function Written(c: seq<string>, i: nat): string
    requires i <= |c|
  {
    if 0 < i < |c| then Join(c[..i], ',') + "," else Join(c[..i], ',')
  }

  lemma WrittenStep(c: seq<string>, i: nat)
    requires i < |c|
    ensures Written(c, i + 1) == Written(c, i) + c[i] + if i < |c| - 1 then "," else ""
  {
    assert c[..i + 1] == c[..i] + [c[i]];
    if i > 0 { JoinConcat(c[..i], [c[i]], ','); }
  }

  /** The four strings after the first i trackers. */
  ghost predicate Encoding(ts: seq<Tracker>, i: nat, owners: string, names: string, pathIndices: string, paths: string) {
    && i <= |ts|
    && owners == Written(Column(ts, Owner), i) && names == Written(Column(ts, Name), i)
    && pathIndices == Written(Column(ts, PathIndex), i) && paths == Written(Column(ts, Path), i)
  }

  lemma EncodingStep(ts: seq<Tracker>, i: nat, owners: string, names: string, pathIndices: string, paths: string)
    requires i < |ts| && Encoding(ts, i, owners, names, pathIndices, paths)
    ensures var sep := if i < |ts| - 1 then "," else "";
            Encoding(ts, i + 1, owners + ts[i].owner + sep, names + ts[i].name + sep,
                     pathIndices + ts[i].pathIndex + sep, paths + ts[i].path + sep)
  {
    WrittenStep(Column(ts, Owner), i);
    WrittenStep(Column(ts, Name), i);
    WrittenStep(Column(ts, PathIndex), i);
    WrittenStep(Column(ts, Path), i);
  }

  lemma EncodingEnds(ts: seq<Tracker>, owners: string, names: string, pathIndices: string, paths: string)
    requires Encoding(ts, |ts|, owners, names, pathIndices, paths)
    ensures map[Owner := owners, Name := names, PathIndex := pathIndices, Path := paths] == Encode(ts)
  {
    forall f | f in {Owner, Name, PathIndex, Path} ensures Written(Column(ts, f), |ts|) == Join(Column(ts, f), ',') {
      assert Column(ts, f)[..|ts|] == Column(ts, f);
    }
  }

  /** CustomizeLeaderTracker; None stands for the nil list. */
  method CustomizeLeaderTracker(trackerList: Option<seq<Tracker>>) returns (data: Data)
    ensures data == Encode(if trackerList.Some? then trackerList.value else [])
  {
    if trackerList.None? {
      return map[Owner := "", Name := "", PathIndex := "", Path := ""];
    }
    var ts := trackerList.value;
    var n := |ts|;
    var owners, names, pathIndices, paths := "", "", "", "";
    for i := 0 to n
      invariant Encoding(ts, i, owners, names, pathIndices, paths)
    {
      EncodingStep(ts, i, owners, names, pathIndices, paths);
      owners, names := owners + ts[i].owner, names + ts[i].name;
      pathIndices, paths := pathIndices + ts[i].pathIndex, paths + ts[i].path;
      if i < n - 1 {
        owners, names, pathIndices, paths := owners + ",", names + ",", pathIndices + ",", paths + ",";
      } else {
        assert owners + "" == owners && names + "" == names && pathIndices + "" == pathIndices && paths + "" == paths;
      }
    }
    EncodingEnds(ts, owners, names, pathIndices, paths);
    data := map[Owner := owners, Name := names, PathIndex := pathIndices, Path := paths];
  }

  // ----- reading -----

  function Rows(owners: seq<string>, names: seq<string>, pathIndices: seq<string>, paths: seq<string>): (ts: seq<Tracker>)
    requires |owners| == |names| == |pathIndices| == |paths|
    ensures |ts| == |owners|
    ensures forall i :: 0 <= i < |ts| ==> ts[i] == Tracker(names[i], owners[i], pathIndices[i], paths[i])
  {
    if owners == [] then []
    else [Tracker(names[0], owners[0], pathIndices[0], paths[0])] + Rows(owners[1..], names[1..], pathIndices[1..], paths[1..])
  }

  /** The trackers a Secret holds; None when the columns are out of step and the Secret is deleted. */
  function Decode(data: Data): Option<seq<Tracker>> {
    var owners, names := Split(Field0(data, Owner), ','), Split(Field0(data, Name), ',');
    var pathIndices, paths := Split(Field0(data, PathIndex), ','), Split(Field0(data, Path), ',');
    if (Owner in data) != (Name in data) || (PathIndex in data) != (Path in data) || (Name in data) != (PathIndex in data) then None
    else if Field0(data, Owner) == Field0(data, Name) == Field0(data, PathIndex) == Field0(data, Path) == "" then Some([])
    else if |owners| != |names| || |names| != |pathIndices| || |pathIndices| != |paths| then None
    else Some(Rows(owners, names, pathIndices, paths))
  }

  method Populate(owners: seq<string>, names: seq<string>, pathIndices: seq<string>, paths: seq<string>)
    returns (leaderTrackers: seq<Tracker>)
    requires |owners| == |names| == |pathIndices| == |paths|
    ensures leaderTrackers == Rows(owners, names, pathIndices, paths)
  {
    leaderTrackers := [];
    for i := 0 to |owners|
      invariant |leaderTrackers| == i
      invariant forall j :: 0 <= j < i ==> leaderTrackers[j] == Tracker(names[j], owners[j], pathIndices[j], paths[j])
    {
      leaderTrackers := leaderTrackers + [Tracker(names[i], owners[i], pathIndices[i], paths[i])];
    }
  }

  /** The decoding part of GetLeaderTracker. */
  method DecodeLeaderTracker(data: Data) returns (r: Option<seq<Tracker>>)
    ensures r == Decode(data)
  {
    var ownersFound, namesFound := Owner in data, Name in data;
    var pathIndicesFound, pathsFound := PathIndex in data, Path in data;
    if ownersFound != namesFound || pathIndicesFound != pathsFound || namesFound != pathIndicesFound {
      return None;
    }
    var owners, names := Field0(data, Owner), Field0(data, Name);
    var pathIndices, paths := Field0(data, PathIndex), Field0(data, Path);
    if |owners| == 0 && |names| == 0 && |pathIndices| == 0 && |paths| == 0 {
      return Some([]);
    }
    CommaArrayIsSplit(owners);
    CommaArrayIsSplit(names);
    CommaArrayIsSplit(pathIndices);
    CommaArrayIsSplit(paths);
    var ownersList, namesList := CommaArray(owners), CommaArray(names);
    var pathIndicesList, pathsList := CommaArray(pathIndices), CommaArray(paths);
    if |ownersList| != |namesList| || |namesList| != |pathIndicesList| || |pathIndicesList| != |pathsList| {
      return None;
    }
    var leaderTrackers := Populate(ownersList, namesList, pathIndicesList, pathsList);
    r := Some(leaderTrackers);
  }

  // ----- storing and re-reading -----

  predicate CommaFree(t: Tracker) {
    ',' !in t.name && ',' !in t.owner && ',' !in t.pathIndex && ',' !in t.path
  }

  predicate AllCommaFree(ts: seq<Tracker>) {
    forall i :: 0 <= i < |ts| ==> CommaFree(ts[i])
  }

  const BLANK: Tracker := Tracker("", "", "", "")

  lemma DecodedIsCommaFree(data: Data)
    requires Decode(data).Some?
    ensures AllCommaFree(Decode(data).value)
  {
    SplitFree(Field0(data, Owner), ',');
    SplitFree(Field0(data, Name), ',');
    SplitFree(Field0(data, PathIndex), ',');
    SplitFree(Field0(data, Path), ',');
  }

  lemma ColumnSplits(ts: seq<Tracker>, f: Field)
    requires ts != [] && AllCommaFree(ts)
    ensures Split(Join(Column(ts, f), ','), ',') == Column(ts, f)
  {
    SplitJoin(Column(ts, f), ',');
  }

  lemma BlankColumn(ts: seq<Tracker>, f: Field)
    requires ts != []
    ensures Join(Column(ts, f), ',') == "" <==> |ts| == 1 && Get(ts[0], f) == ""
  {
  }

  /** Storing a list and reading it back gives the list exactly when no field holds a comma and the list is not one
      single tracker whose fields are all empty. */
  lemma StoreThenRead(ts: seq<Tracker>)
    ensures Decode(Encode(ts)) == Some(ts) <==> AllCommaFree(ts) && ts != [BLANK]
  {
    if Decode(Encode(ts)) == Some(ts) {
      DecodedIsCommaFree(Encode(ts));
      if ts == [BLANK] { BlankReadsAsEmpty(); }
    }
    if AllCommaFree(ts) && ts != [BLANK] && ts != [] {
      ReadBack(ts);
    }
  }

  lemma BlankReadsAsEmpty()
    ensures Decode(Encode([BLANK])) == Some([])
  {
    BlankColumn([BLANK], Owner);
    BlankColumn([BLANK], Name);
    BlankColumn([BLANK], PathIndex);
    BlankColumn([BLANK], Path);
  }

  lemma ReadBack(ts: seq<Tracker>)
    requires AllCommaFree(ts) && ts != [BLANK] && ts != []
    ensures Decode(Encode(ts)) == Some(ts)
  {
    BlankColumn(ts, Owner);
    BlankColumn(ts, Name);
    BlankColumn(ts, PathIndex);
    BlankColumn(ts, Path);
    assert |ts| == 1 ==> ts == [ts[0]];
    ColumnSplits(ts, Owner);
    ColumnSplits(ts, Name);
    ColumnSplits(ts, PathIndex);
    ColumnSplits(ts, Path);
    assert Rows(Column(ts, Owner), Column(ts, Name), Column(ts, PathIndex), Column(ts, Path)) == ts;
  }

  // ----- inserting by name -----

  /** The last position whose name is greater, or -1. */
  function LastGreater(ts: seq<Tracker>, name: string): (i: int)
    ensures -1 <= i < |ts|
    ensures i >= 0 ==> Less(name, ts[i].name)
    ensures forall j :: i < j < |ts| ==> !Less(name, ts[j].name)
  {
    if ts == [] then -1
    else if Less(name, ts[|ts| - 1].name) then |ts| - 1
    else LastGreater(ts[..|ts| - 1], name)
  }

  function Inserted(ts: seq<Tracker>, t: Tracker): seq<Tracker> {
    var i := LastGreater(ts, t.name);
    if i == -1 then ts + [t] else ts[..i] + [t] + ts[i..]
  }

  method InsertIntoSortedLeaderTrackers(leaderTrackers: seq<Tracker>, newLeader: Tracker) returns (r: seq<Tracker>)
    ensures r == Inserted(leaderTrackers, newLeader)
  {
    var insertIndex := -1;
    for i := 0 to |leaderTrackers|
      invariant insertIndex == LastGreater(leaderTrackers[..i], newLeader.name)
    {
      assert leaderTrackers[..i + 1][..i] == leaderTrackers[..i];
      if Less(newLeader.name, leaderTrackers[i].name) {
        insertIndex := i;
      }
    }
    assert leaderTrackers[..|leaderTrackers|] == leaderTrackers;
    if insertIndex == -1 {
      r := leaderTrackers + [newLeader];
    } else {
      r := leaderTrackers[..insertIndex] + [newLeader] + leaderTrackers[insertIndex..];
    }
  }

  /** Insertion adds one tracker and keeps the others in their order. */
  lemma InsertionKeepsOrder(ts: seq<Tracker>, t: Tracker)
    ensures multiset(Inserted(ts, t)) == multiset(ts) + multiset{t}
    ensures exists k :: 0 <= k <= |ts| && Inserted(ts, t) == ts[..k] + [t] + ts[k..]
  {
    var i := LastGreater(ts, t.name);
    var k := if i == -1 then |ts| else i;
    assert ts == ts[..k] + ts[k..];
    assert Inserted(ts, t) == ts[..k] + [t] + ts[k..];
  }

  predicate SortedByName(ts: seq<Tracker>) {
    forall i, j :: 0 <= i < j < |ts| ==> LessEq(ts[i].name, ts[j].name)
  }

  /** Insertion keeps a sorted list sorted exactly when the new name is not below the last but one. */
  lemma InsertionSortedExactly(ts: seq<Tracker>, t: Tracker)
    requires SortedByName(ts)
    ensures SortedByName(Inserted(ts, t)) <==> |ts| < 2 || LessEq(ts[|ts| - 2].name, t.name)
  {
    var n, r := |ts|, Inserted(ts, t);
    if n == 0 {
    } else if !Less(t.name, ts[n - 1].name) {
      OrderTotal(t.name, ts[n - 1].name);
      assert LastGreater(ts, t.name) == -1 by {
        forall j | 0 <= j < n ensures !Less(t.name, ts[j].name) {
          if Less(t.name, ts[j].name) && j < n - 1 {
            OrderTransitive(t.name, ts[j].name, ts[n - 1].name);
            OrderAntisymmetric(t.name, ts[j].name);
          }
        }
      }
      forall j | 0 <= j < n ensures LessEq(ts[j].name, t.name) {
        if j < n - 1 { OrderTransitive(ts[j].name, ts[n - 1].name, t.name); }
      }
    } else {
      assert r == ts[..n - 1] + [t] + [ts[n - 1]];
      if n >= 2 {
        assert r[n - 2] == ts[n - 2] && r[n - 1] == t;
        if LessEq(ts[n - 2].name, t.name) {
          forall j | 0 <= j < n - 1 ensures LessEq(ts[j].name, t.name) {
            if j < n - 2 { OrderTransitive(ts[j].name, ts[n - 2].name, t.name); }
          }
        }
      }
    }
  }

  // ----- what reads back, and as what -----

  const FIELDS: set<Field> := {Owner, Name, PathIndex, Path}

  /** All columns are there, or none is. */
  predicate AllOrNone(data: Data) { (forall f :: f in data) || (forall f :: f !in data) }

  predicate AllEmpty(data: Data) { forall f :: Field0(data, f) == "" }

  predicate Columns(data: Data, ts: seq<Tracker>) { forall f :: Split(Field0(data, f), ',') == Column(ts, f) }

  lemma EachField(data: Data)
    ensures AllOrNone(data) <==> (Owner in data) == (Name in data) && (PathIndex in data) == (Path in data) && (Name in data) == (PathIndex in data)
    ensures AllEmpty(data) <==> Field0(data, Owner) == Field0(data, Name) == Field0(data, PathIndex) == Field0(data, Path) == ""
  {
    if Owner in data && Name in data && PathIndex in data && Path in data {
      forall f: Field ensures f in data { match f case Name => case Owner => case PathIndex => case Path => }
    }
    if Owner !in data && Name !in data && PathIndex !in data && Path !in data {
      forall f: Field ensures f !in data { match f case Name => case Owner => case PathIndex => case Path => }
    }
    if Field0(data, Owner) == Field0(data, Name) == Field0(data, PathIndex) == Field0(data, Path) == "" {
      forall f ensures Field0(data, f) == "" { match f case Name => case Owner => case PathIndex => case Path => }
    }
  }

  /** A Secret reads as a list exactly when it has all four columns or none of them, and either all are empty and so is the
      list, or the list is not, and its columns are the four columns split at the commas. */
  lemma DecodesExactly(data: Data, ts: seq<Tracker>)
    ensures Decode(data) == Some(ts) <==>
            AllOrNone(data) && if AllEmpty(data) then ts == [] else ts != [] && Columns(data, ts)
  {
    EachField(data);
    if Decode(data) == Some(ts) {
      if ts != [] { DecodedColumns(data); }
    } else if AllOrNone(data) && !AllEmpty(data) && ts != [] && Columns(data, ts) {
      ColumnsDecode(data, ts);
    }
  }

  lemma InFields()
    ensures forall f: Field :: f in FIELDS
  {
    forall f: Field ensures f in FIELDS { match f case Name => case Owner => case PathIndex => case Path => }
  }

  lemma ColumnsDecode(data: Data, ts: seq<Tracker>)
    requires ts != [] && Columns(data, ts) && AllOrNone(data) && !AllEmpty(data)
    ensures Decode(data) == Some(ts)
  {
    EachField(data);
    var rows := Rows(Column(ts, Owner), Column(ts, Name), Column(ts, PathIndex), Column(ts, Path));
    forall i | 0 <= i < |ts| ensures rows[i] == ts[i] {}
    assert rows == ts;
  }

  lemma DecodedColumns(data: Data)
    requires Decode(data).Some? && Decode(data).value != []
    ensures Columns(data, Decode(data).value)
  {
    forall f ensures Split(Field0(data, f), ',') == Column(Decode(data).value, f) {
      match f case Name => case Owner => case PathIndex => case Path =>
    }
  }

  /** What was read is stored again as it was. */
  lemma ReadThenStore(data: Data)
    requires data.Keys == FIELDS && Decode(data).Some?
    ensures Encode(Decode(data).value) == data
  {
    var ts := Decode(data).value;
    DecodesExactly(data, ts);
    forall f: Field ensures f in data && Join(Column(ts, f), ',') == data[f] {
      InFields();
      assert data[f] == Field0(data, f);
      JoinSplit(data[f], ',');
    }
    assert Encode(ts).Keys == FIELDS;
  }

  /** A position outside of the list has the empty string, and so has every position of an empty list. */
  lemma NoElement(s: string, index: int)
    requires index < 0 || index >= |Split(s, ',')| || s == ""
    ensures ElementAt(s, index) == ""
  {
  }
}
