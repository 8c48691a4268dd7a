/** Generation bookkeeping of the Semeru Cloud Compiler (internal/controller/semeru_compiler.go): a counter and a
    comma-separated list, kept as strings in the status references. */
module SemeruGenerations {
  import opened Text

  /** .status.references.semeruGeneration and .status.references.semeruInstancesCompleted; the references may be nil. */
  datatype Status = NoReferences | Status(generation: Option<string>, completed: Option<string>)

  /** The status, and the generations whose compiler resources exist. */
  datatype World = World(status: Status, deployed: set<string>)

  // ----- the operations -----

  /** getGeneration: defaults to 1 and records the default. */
  function WithGeneration(s: Status): Status {
    if s.NoReferences? || s.generation.Some? then s else s.(generation := Some("1"))
  }

  /** What it returns. */
  function Current(s: Status): string { if s.Status? && s.generation.Some? then s.generation.value else "1" }

  /** int addition in 64 bits. */
  function Increment(n: int): int { if n == MAX_INT64 then -MAX_INT64 - 1 else n + 1 }

  /** createNewSemeruGeneration. */
  function NewGeneration(s: Status): Status {
    if s.NoReferences? then s
    else
      match s.generation
      case Some(g) =>
        (match Atoi(g)
         case Some(n) => s.(generation := Some(FormatInt(Increment(n))))
         case None => s.(generation := Some("1")))
      case None => s.(generation := Some("1"))
  }

  /** The update of the completed list after a successful deployment, and whether old instances are marked. */
  function Recorded(s: Status, current: string): (Status, bool) {
    if s.NoReferences? then (s, false)
    else
      match s.completed
      case None => (s.(completed := Some(current)), false)
      case Some(list) =>
        if list == current then (s, false)
        else if Contains(list, current) then (s, true)
        else (s.(completed := Some(list + "," + current)), true)
  }

  /** The completed generations older than the current one, in list order. */
  function Older(list: seq<string>, current: int): seq<string> {
    if list == [] then []
    else if ParseInt(list[0]) < current then [list[0]] + Older(list[1..], current)
    else Older(list[1..], current)
  }

  /** Taking one generation out of the list with two substring replacements. */
  function TakenOut(list: string, g: string): string {
    var shorter := RemoveFirst(list, g + ",");
    if shorter == list then RemoveFirst(list, "," + g) else shorter
  }

  function AllTakenOut(list: string, gs: seq<string>): string {
    if gs == [] then list else AllTakenOut(TakenOut(list, gs[0]), gs[1..])
  }

  function CurrentOf(s: Status): int { if s.Status? && s.generation.Some? then ParseInt(s.generation.value) else 0 }

  /** deleteCompletedSemeruInstances when the deletion of `failing` fails: the resources deleted before stay deleted
      and the status is not touched. */
  function Cleaned(w: World, failing: set<string>): World {
    if w.status.NoReferences? || w.status.completed.None? then w
    else
      var list := w.status.completed.value;
      var older := Older(Split(list, ','), CurrentOf(w.status));
      var n := DeletedBefore(older, failing);
      World(if n < |older| then w.status else w.status.(completed := Some(AllTakenOut(list, older))),
            w.deployed - (set g | g in older[..n]))
  }

  /** How many deletions succeed before the first failing one. */
  function DeletedBefore(gs: seq<string>, failing: set<string>): (n: nat)
    ensures n <= |gs|
    ensures n == |gs| <==> forall i :: 0 <= i < |gs| ==> gs[i] !in failing
  {
    if gs == [] || gs[0] in failing then 0 else 1 + DeletedBefore(gs[1..], failing)
  }

  /** No deletion of an older listed generation fails. */
  predicate Cleanable(w: World, failing: set<string>) {
    w.status.Status? && w.status.completed.Some? ==>
      forall g :: g in Older(Split(w.status.completed.value, ','), CurrentOf(w.status)) ==> g !in failing
  }

  /** The status references of one application and its compiler resources, changed in place. */
  class Compiler {
    var status: Status
    var deployed: set<string>

    constructor ()
      ensures status == NoReferences && deployed == {}
    {
      status := NoReferences;
      deployed := {};
    }

    method GetGeneration() returns (g: string)
      modifies this`status
      ensures status == WithGeneration(old(status)) && g == Current(old(status))
    {
      if status.Status? {
        if status.generation.Some? { return status.generation.value; }
        status := status.(generation := Some("1"));
      }
      g := "1";
    }

    method CreateNewSemeruGeneration()
      modifies this`status
      ensures status == NewGeneration(old(status))
    {
      if status.NoReferences? { return; }
      if status.generation.Some? {
        var generation := Atoi(status.generation.value);
        if generation.Some? {
          status := status.(generation := Some(FormatInt(Increment(generation.value))));
        } else {
          status := status.(generation := Some("1"));
        }
      } else {
        status := status.(generation := Some("1"));
      }
    }

    method RecordCompleted(current: string) returns (marked: bool)
      modifies this`status
      ensures (status, marked) == Recorded(old(status), current)
    {
      marked := false;
      if status.NoReferences? { return; }
      if status.completed.Some? {
        if status.completed.value != current {
          marked := true;
          if !Contains(status.completed.value, current) {
            status := status.(completed := Some(status.completed.value + "," + current));
          }
        }
      } else {
        status := status.(completed := Some(current));
      }
    }

    /** Deletes the resources of the older generations in list order, up to the first deletion that fails. */
    method DeleteOlder(list: seq<string>, current: int, failing: set<string>) returns (marked: seq<string>, ok: bool)
      modifies this`deployed
      ensures var older := Older(list, current);
              && |marked| == DeletedBefore(older, failing) && marked == older[..|marked|] && ok == (|marked| == |older|)
      ensures deployed == old(deployed) - (set g | g in marked)
    {
      marked := [];
      var i := 0;
      while i < |list|
        invariant 0 <= i <= |list|
        invariant Older(list, current) == marked + Older(list[i..], current)
        invariant forall j :: 0 <= j < |marked| ==> marked[j] !in failing
        invariant deployed == old(deployed) - (set g | g in marked)
      {
        OlderFrom(list, i, current);
        if ParseInt(list[i]) < current {
          if list[i] in failing {
            Halts(marked, Older(list[i..], current), failing);
            return marked, false;
          }
          deployed := deployed - {list[i]};
          marked := marked + [list[i]];
        }
        i := i + 1;
      }
      Halts(marked, [], failing);
      ok := true;
    }

    method TakeOutAll(list: string, marked: seq<string>) returns (text: string)
      ensures text == AllTakenOut(list, marked)
    {
      text := list;
      assert marked[0..] == marked;
      for k := 0 to |marked|
        invariant AllTakenOut(list, marked) == AllTakenOut(text, marked[k..])
      {
        assert marked[k..][0] == marked[k] && marked[k..][1..] == marked[k + 1..];
        var old' := text;
        text := RemoveFirst(old', marked[k] + ",");
        if text == old' {
          text := RemoveFirst(old', "," + marked[k]);
        }
      }
      assert marked[|marked|..] == [];
    }

    method DeleteCompletedSemeruInstances(failing: set<string>) returns (ok: bool)
      modifies this
      ensures World(status, deployed) == Cleaned(old(World(status, deployed)), failing)
      ensures ok <==> Cleanable(old(World(status, deployed)), failing)
    {
      if status.NoReferences? || status.completed.None? { return true; }
      var list := Split(status.completed.value, ',');
      var marked;
      marked, ok := DeleteOlder(list, CurrentOf(status), failing);
      assert (set g | g in marked) == (set g | g in Older(list, CurrentOf(status))[..|marked|]);
      if ok {
        assert marked == Older(list, CurrentOf(status));
        var text := TakeOutAll(status.completed.value, marked);
        status := status.(completed := Some(text));
      }
    }
  }

  lemma OlderFrom(list: seq<string>, i: nat, current: int)
    requires i < |list|
    ensures Older(list[i..], current) == (if ParseInt(list[i]) < current then [list[i]] else []) + Older(list[i + 1..], current)
  {
    assert list[i..][0] == list[i] && list[i..][1..] == list[i + 1..];
  }

  lemma {:induction false} StopsAt(done: seq<string>, rest: seq<string>, failing: set<string>)
    requires rest != [] && rest[0] in failing && forall j :: 0 <= j < |done| ==> done[j] !in failing
    ensures DeletedBefore(done + rest, failing) == |done|
  {
    if done != [] {
      assert (done + rest)[1..] == done[1..] + rest;
      StopsAt(done[1..], rest, failing);
    } else {
      assert done + rest == rest;
    }
  }

  /** A loop over all of it stops at the first that fails, or at the end. */
  lemma Halts(done: seq<string>, rest: seq<string>, failing: set<string>)
    requires rest == [] || rest[0] in failing
    requires forall j :: 0 <= j < |done| ==> done[j] !in failing
    ensures var all := done + rest;
            |done| == DeletedBefore(all, failing) && done == all[..|done|] && (rest == []) == (|done| == |all|)
  {
    if rest == [] { assert done + rest == done; } else { StopsAt(done, rest, failing); }
  }

  // ----- the list behind the string -----

  function Numerals(gs: seq<nat>): (r: seq<string>)
    ensures |r| == |gs| && forall i :: 0 <= i < |gs| ==> r[i] == Decimal(gs[i])
  {
    if gs == [] then [] else [Decimal(gs[0])] + Numerals(gs[1..])
  }

  function Listing(gs: seq<nat>): string { Join(Numerals(gs), ',') }

  predicate Ascending(gs: seq<nat>) {
    forall i, j :: 0 <= i < j < |gs| ==> gs[i] < gs[j]
  }

  /** The status stands for generation c (0 when there is none yet) and the completed generations gs. */
  predicate Stands(s: Status, c: nat, gs: seq<nat>) {
    && s.Status?
    && s.generation == (if c == 0 then None else Some(Decimal(c)))
    && s.completed == (if gs == [] then None else Some(Listing(gs)))
    && Ascending(gs) && forall i :: 0 <= i < |gs| ==> 1 <= gs[i] <= c
  }

  lemma NumeralsFree(gs: seq<nat>)
    ensures AllFree(Numerals(gs), ',')
  {
    forall i | 0 <= i < |gs| ensures ',' !in Numerals(gs)[i] { DecimalHasNo(gs[i], ','); }
  }

  lemma ListingSplits(gs: seq<nat>)
    requires gs != []
    ensures Split(Listing(gs), ',') == Numerals(gs)
  {
    NumeralsFree(gs);
    SplitJoin(Numerals(gs), ',');
  }

  lemma SameLengthOccurrence(a: string, b: string)
    requires Contains(a, b) && |a| <= |b|
    ensures a == b
  {
    var k :| 0 <= k <= |a| && OccursAt(a, b, k);
    assert k == 0 && a[0..|b|] == a;
  }

  /** The substring test agrees with list membership, because no listed generation exceeds the one looked for. */
  lemma ContainsIsMembership(gs: seq<nat>, c: nat)
    requires gs != [] && forall i :: 0 <= i < |gs| ==> gs[i] <= c
    ensures Contains(Listing(gs), Decimal(c)) <==> c in gs
  {
    if c in gs {
      var i :| 0 <= i < |gs| && gs[i] == c;
      ElementOccurs(Numerals(gs), i, ',');
    }
    if Contains(Listing(gs), Decimal(c)) {
      DecimalHasNo(c, ',');
      OccursInsideOne(Numerals(gs), Decimal(c), ',');
      var i :| 0 <= i < |gs| && Contains(Numerals(gs)[i], Decimal(c));
      DecimalLength(gs[i], c);
      SameLengthOccurrence(Decimal(gs[i]), Decimal(c));
      DecimalInjective(gs[i], c);
    }
  }

  /** Without that bound it would not: 1 occurs in "12". */
  lemma SubstringIsNotMembership()
    ensures Contains(Listing([12]), Decimal(1)) && 1 !in [12]
  {
    assert Decimal(12) == "12" && Decimal(1) == "1";
    assert OccursAt("12", "1", 0);
  }

  /** Taking out the head of a longer list leaves its tail. */
  lemma TakeOutHead(gs: seq<nat>)
    requires |gs| >= 2
    ensures TakenOut(Listing(gs), Decimal(gs[0])) == Listing(gs[1..])
  {
    var list, head, rest := Listing(gs), Decimal(gs[0]) + ",", Listing(gs[1..]);
    assert Numerals(gs)[1..] == Numerals(gs[1..]);
    assert list == head + rest;
    assert list[..|head|] == head;
    assert OccursAt(list, head, 0);
    assert IndexFrom(list, head, 0) == 0;
    assert RemoveFirst(list, head) == rest;
  }

  /** A generation that is alone in the list stays. */
  lemma TakeOutOnly(g: nat)
    ensures TakenOut(Listing([g]), Decimal(g)) == Listing([g])
  {
    var list := Listing([g]);
    assert list == Decimal(g);
    assert IndexFrom(list, Decimal(g) + ",", 0) == -1;
    assert IndexFrom(list, "," + Decimal(g), 0) == -1;
  }

  /** What is left of an ascending list when everything below c is to go: the part from c on, or the last element when
      that part is empty. */
  function Kept(gs: seq<nat>, c: nat): seq<nat> {
    if |gs| <= 1 || gs[0] >= c then gs else Kept(gs[1..], c)
  }

  lemma OlderOfLonger(gs: seq<nat>, c: nat)
    requires gs != [] && gs[0] < c && gs[0] <= MAX_INT64
    ensures Older(Numerals(gs), c) == [Decimal(gs[0])] + Older(Numerals(gs[1..]), c)
  {
    NumeralOfDecimal(gs[0]);
    assert Numerals(gs)[1..] == Numerals(gs[1..]);
  }

  lemma HeadIsTakenOut(s: string, x: string, older: seq<string>)
    ensures AllTakenOut(s, [x] + older) == AllTakenOut(TakenOut(s, x), older)
  {
    assert ([x] + older)[1..] == older;
  }

  function CleanedListing(gs: seq<nat>, c: nat): string {
    AllTakenOut(Listing(gs), Older(Numerals(gs), c))
  }

  lemma OneCleaned(gs: seq<nat>, c: nat)
    requires |gs| >= 2 && gs[0] < c && gs[0] <= MAX_INT64
    ensures CleanedListing(gs, c) == CleanedListing(gs[1..], c)
  {
    OlderOfLonger(gs, c);
    HeadIsTakenOut(Listing(gs), Decimal(gs[0]), Older(Numerals(gs[1..]), c));
    TakeOutHead(gs);
  }

  lemma NoneCleaned(gs: seq<nat>, c: nat)
    requires gs != [] && Ascending(gs) && forall i :: 0 <= i < |gs| ==> gs[i] <= MAX_INT64
    requires |gs| == 1 || gs[0] >= c
    ensures CleanedListing(gs, c) == Listing(gs)
  {
    if gs[0] >= c {
      NoneOlder(gs, c);
    } else {
      OlderOfLonger(gs, c);
      HeadIsTakenOut(Listing(gs), Decimal(gs[0]), []);
      TakeOutOnly(gs[0]);
      assert gs == [gs[0]];
    }
  }

  lemma {:induction false} CleaningKeeps(gs: seq<nat>, c: nat)
    requires gs != [] && Ascending(gs) && forall i :: 0 <= i < |gs| ==> gs[i] <= MAX_INT64
    ensures AllTakenOut(Listing(gs), Older(Numerals(gs), c)) == Listing(Kept(gs, c))
  {
    if |gs| == 1 || gs[0] >= c {
      NoneCleaned(gs, c);
    } else {
      OneCleaned(gs, c);
      CleaningKeeps(gs[1..], c);
    }
  }

  lemma {:induction false} NoneOlder(gs: seq<nat>, c: nat)
    requires forall i :: 0 <= i < |gs| ==> c <= gs[i] <= MAX_INT64
    ensures Older(Numerals(gs), c) == []
  {
    if gs != [] {
      NumeralOfDecimal(gs[0]);
      assert Numerals(gs)[1..] == Numerals(gs[1..]);
      NoneOlder(gs[1..], c);
    }
  }

  lemma {:induction false} KeptIsCurrent(gs: seq<nat>, c: nat)
    requires gs != [] && Ascending(gs) && forall i :: 0 <= i < |gs| ==> gs[i] <= c
    ensures Kept(gs, c) == [gs[|gs| - 1]]
    ensures c in gs <==> gs[|gs| - 1] == c
  {
    if |gs| > 1 {
      assert gs[0] < gs[|gs| - 1];
      KeptIsCurrent(gs[1..], c);
      assert c in gs <==> c in gs[1..];
    }
  }

  lemma {:induction false} OlderAre(gs: seq<nat>, c: nat, g: nat)
    requires forall i :: 0 <= i < |gs| ==> gs[i] <= MAX_INT64
    ensures Decimal(g) in Older(Numerals(gs), c) <==> g in gs && g < c
  {
    if gs != [] {
      NumeralOfDecimal(gs[0]);
      assert Numerals(gs)[1..] == Numerals(gs[1..]);
      assert g in gs <==> g == gs[0] || g in gs[1..];
      if Decimal(g) == Decimal(gs[0]) { DecimalInjective(g, gs[0]); }
      OlderAre(gs[1..], c, g);
    }
  }

  /** A cleanup without failures leaves the list with the current generation alone exactly when that generation was
      listed, and never touches the counter. */
  lemma CleanupExactly(w: World, c: nat, gs: seq<nat>)
    requires Stands(w.status, c, gs) && gs != [] && c <= MAX_INT64
    ensures Cleaned(w, {}).status.completed == Some(Decimal(c)) <==> c in gs
    ensures c in gs ==> Stands(Cleaned(w, {}).status, c, [c])
    ensures Cleaned(w, {}).status.generation == w.status.generation
  {
    ListingSplits(gs);
    NumeralOfDecimal(c);
    CleaningKeeps(gs, c);
    KeptIsCurrent(gs, c);
    var last := gs[|gs| - 1];
    assert Listing([last]) == Decimal(last) && Listing([c]) == Decimal(c);
    if Decimal(last) == Decimal(c) { DecimalInjective(last, c); }
    CleanedCompleted(w, c, Numerals(gs));
  }

  lemma CleanedCompleted(w: World, c: nat, list: seq<string>)
    requires w.status.Status? && w.status.generation == Some(Decimal(c)) && w.status.completed.Some? && c <= MAX_INT64
    requires list == Split(w.status.completed.value, ',')
    ensures Cleaned(w, {}) ==
            World(w.status.(completed := Some(AllTakenOut(w.status.completed.value, Older(list, c)))),
                  w.deployed - (set g | g in Older(list, c)))
  {
    NumeralOfDecimal(c);
    var older := Older(list, c);
    assert older[..|older|] == older;
  }

  /** It deletes the resources of exactly the listed generations below the current one. */
  lemma CleanupDeletesExactly(w: World, c: nat, gs: seq<nat>, g: nat)
    requires Stands(w.status, c, gs) && gs != [] && c <= MAX_INT64
    ensures Decimal(g) in Cleaned(w, {}).deployed <==> Decimal(g) in w.deployed && !(g in gs && g < c)
  {
    ListingSplits(gs);
    CleanedCompleted(w, c, Numerals(gs));
    OlderAre(gs, c, g);
  }

  // ----- runs -----

  /** A reconcile: a new image or a changed health port asks for a new generation; the deployment may fail before the
      generation is recorded; when old instances are marked and the application is ready they are cleaned up. Other parts
      of the operator make the references when they are nil. */
  datatype Step =
    | NewImage
    | Reconcile(portsChanged: bool, deployed: bool, ready: bool, failing: set<string>)
    | Disabled
    | MakeReferences

  /** The status with which a reconcile starts the deployment. */
  function Begun(s: Status, portsChanged: bool): Status {
    WithGeneration(if portsChanged then NewGeneration(s) else s)
  }

  function Next(w: World, step: Step): World {
    match step
    case NewImage => w.(status := NewGeneration(w.status))
    case MakeReferences => if w.status.NoReferences? then w.(status := Status(None, None)) else w
    case Disabled => World(WithGeneration(w.status), w.deployed - {Current(w.status)})
    case Reconcile(portsChanged, deployed, ready, failing) =>
      var s := Begun(w.status, portsChanged);
      var w1 := World(s, w.deployed + {Current(s)});
      if !deployed then w1
      else
        var (s2, marked) := Recorded(s, Current(s));
        if marked && ready then Cleaned(World(s2, w1.deployed), failing) else World(s2, w1.deployed)
  }

  function Run(steps: seq<Step>): World {
    if steps == [] then World(NoReferences, {}) else Next(Run(steps[..|steps| - 1]), steps[|steps| - 1])
  }

  lemma NewGenerationStands(s: Status, c: nat, gs: seq<nat>)
    requires Stands(s, c, gs) && c < MAX_INT64
    ensures Stands(NewGeneration(s), c + 1, gs)
  {
    NumeralOfDecimal(c);
    assert Decimal(1) == "1";
  }

  lemma WithGenerationStands(s: Status, c: nat, gs: seq<nat>)
    requires Stands(s, c, gs)
    ensures Stands(WithGeneration(s), if c == 0 then 1 else c, gs)
  {
    assert Decimal(1) == "1";
  }

  function Added(gs: seq<nat>, c: nat): seq<nat> { if c in gs then gs else gs + [c] }

  lemma AppendedAscends(gs: seq<nat>, c: nat)
    requires Ascending(gs) && c !in gs && forall i :: 0 <= i < |gs| ==> gs[i] <= c
    ensures Ascending(gs + [c])
  {
    forall i | 0 <= i < |gs| ensures gs[i] < c { assert gs[i] in gs; }
  }

  lemma Appended(gs: seq<nat>, c: nat)
    requires gs != []
    ensures Listing(gs + [c]) == Listing(gs) + "," + Decimal(c)
  {
    assert Numerals(gs + [c]) == Numerals(gs) + [Decimal(c)];
    JoinConcat(Numerals(gs), [Decimal(c)], ',');
  }

  lemma RecordedStands(s: Status, c: nat, gs: seq<nat>)
    requires Stands(s, c, gs) && c >= 1
    ensures Stands(Recorded(s, Decimal(c)).0, c, Added(gs, c)) && c in Added(gs, c)
    ensures Recorded(s, Decimal(c)).1 <==> gs != [] && gs != [c]
  {
    assert Listing([c]) == Decimal(c);
    if gs == [] {
      assert [] + [c] == [c];
    } else {
      ContainsIsMembership(gs, c);
      if Listing(gs) == Decimal(c) {
        SingleListing(gs, c);
      } else if c !in gs {
        AppendedAscends(gs, c);
        Appended(gs, c);
      }
    }
  }

  lemma SingleListing(gs: seq<nat>, c: nat)
    requires gs != [] && Listing(gs) == Decimal(c)
    ensures gs == [c]
  {
    ListingSplits(gs);
    DecimalHasNo(c, ',');
    SplitSingle(Decimal(c), ',');
    assert |gs| == 1 && Numerals(gs)[0] == Decimal(c);
    DecimalInjective(gs[0], c);
  }

  /** What was taken out of the list is older than the current generation and has lost its resources. */
  ghost predicate Dropped(gs: seq<nat>, gs': seq<nat>, c: nat, w: World) {
    forall g :: g in gs && g !in gs' ==> Decimal(g) !in w.deployed && g < c
  }

  lemma CleanedAll(w: World, failing: set<string>)
    requires Cleanable(w, failing)
    ensures Cleaned(w, failing) == Cleaned(w, {})
  {
  }

  /** A deletion that fails leaves its resources, and then the list stays as it is, so that whatever was not deleted is still
      listed. */
  lemma FailedCleanup(w: World, failing: set<string>, x: string)
    ensures !Cleanable(w, failing) ==> Cleaned(w, failing).status == w.status
    ensures x in failing ==> (x in Cleaned(w, failing).deployed <==> x in w.deployed)
  {
    if w.status.Status? && w.status.completed.Some? {
      FailingStay(Older(Split(w.status.completed.value, ','), CurrentOf(w.status)), failing);
    }
  }

  /** A cleanup succeeds exactly when the deletion of no older listed generation fails. */
  lemma CleanableExactly(w: World, c: nat, gs: seq<nat>, failing: set<string>)
    requires Stands(w.status, c, gs) && gs != [] && c <= MAX_INT64
    ensures Cleanable(w, failing) <==> forall g :: g in gs && g < c ==> Decimal(g) !in failing
  {
    ListingSplits(gs);
    NumeralOfDecimal(c);
    var older := Older(Numerals(gs), c);
    forall g | g in gs ensures Decimal(g) in older <==> g < c { OlderAre(gs, c, g); }
    OlderElements(Numerals(gs), c);
    forall x | x in older ensures exists g :: g in gs && g < c && x == Decimal(g) {
      var i :| 0 <= i < |gs| && Numerals(gs)[i] == x;
      assert gs[i] in gs;
    }
  }

  lemma {:induction false} OlderElements(list: seq<string>, current: int)
    ensures forall x :: x in Older(list, current) ==> x in list
  {
    if list != [] { OlderElements(list[1..], current); }
  }

  lemma {:induction false} FailingStay(gs: seq<string>, failing: set<string>)
    ensures forall x :: x in gs[..DeletedBefore(gs, failing)] ==> x !in failing
  {
    if gs != [] && gs[0] !in failing {
      FailingStay(gs[1..], failing);
      assert gs[..DeletedBefore(gs, failing)] == [gs[0]] + gs[1..][..DeletedBefore(gs[1..], failing)];
    }
  }

  lemma OlderAreGone(w: World, c: nat, gs: seq<nat>, failing: set<string>)
    requires Stands(w.status, c, gs) && gs != [] && c <= MAX_INT64 && Cleanable(w, failing)
    ensures Dropped(gs, [c], c, Cleaned(w, failing))
  {
    forall g | g in gs && g !in [c] ensures g < c && Decimal(g) !in Cleaned(w, failing).deployed {
      OlderIsGone(w, c, gs, failing, g);
    }
  }

  lemma OlderIsGone(w: World, c: nat, gs: seq<nat>, failing: set<string>, g: nat)
    requires Stands(w.status, c, gs) && gs != [] && c <= MAX_INT64 && Cleanable(w, failing) && g in gs && g != c
    ensures g < c && Decimal(g) !in Cleaned(w, failing).deployed
  {
    CleanedAll(w, failing);
    ListedUpTo(w.status, c, gs, g);
    CleanupDeletesExactly(w, c, gs, g);
  }

  lemma ListedUpTo(s: Status, c: nat, gs: seq<nat>, g: nat)
    requires Stands(s, c, gs) && g in gs
    ensures g <= c
  {
    var i :| 0 <= i < |gs| && gs[i] == g;
  }

  lemma CleanedStands(w: World, c: nat, gs: seq<nat>, failing: set<string>) returns (gs': seq<nat>)
    requires Stands(w.status, c, gs) && c in gs && c <= MAX_INT64
    ensures Stands(Cleaned(w, failing).status, c, gs')
    ensures gs' == gs || gs' == [c]
    ensures Dropped(gs, gs', c, Cleaned(w, failing))
  {
    CleanupExactly(w, c, gs);
    if Cleanable(w, failing) { OlderAreGone(w, c, gs, failing); }
    var older := Older(Split(w.status.completed.value, ','), CurrentOf(w.status));
    gs' := if DeletedBefore(older, failing) < |older| then gs else [c];
  }

  lemma BegunStands(s: Status, portsChanged: bool, b: nat, gs: seq<nat>) returns (c: nat)
    requires Stands(s, b, gs) && b < MAX_INT64
    ensures Stands(Begun(s, portsChanged), c, gs) && 1 <= c <= MAX_INT64 && b <= c <= b + 1
    ensures Current(Begun(s, portsChanged)) == Decimal(c)
  {
    c := if portsChanged then b + 1 else b;
    if portsChanged { NewGenerationStands(s, b, gs); }
    WithGenerationStands(if portsChanged then NewGeneration(s) else s, c, gs);
    c := if c == 0 then 1 else c;
  }

  predicate StandsOrNil(s: Status, c: nat, gs: seq<nat>) {
    if s.NoReferences? then c == 0 && gs == [] else Stands(s, c, gs)
  }

  /** The list after a step holds nothing new but a generation that was current at a successful deployment. */
  predicate FromStep(w: World, step: Step, gs: seq<nat>, gs': seq<nat>) {
    forall g :: g in gs' && g !in gs ==>
      step.Reconcile? && step.deployed && Current(Begun(w.status, step.portsChanged)) == Decimal(g)
  }

  lemma StepStands(w: World, step: Step, c: nat, gs: seq<nat>) returns (c': nat, gs': seq<nat>)
    requires Stands(w.status, c, gs) && c < MAX_INT64
    ensures Stands(Next(w, step).status, c', gs') && c <= c' <= c + 1 && FromStep(w, step, gs, gs')
    ensures Dropped(gs, gs', c', Next(w, step))
  {
    match step
    case NewImage =>
      NewGenerationStands(w.status, c, gs);
      c', gs' := c + 1, gs;
    case MakeReferences =>
      c', gs' := c, gs;
    case Disabled =>
      WithGenerationStands(w.status, c, gs);
      c', gs' := if c == 0 then 1 else c, gs;
    case Reconcile(_, _, _, _) =>
      c', gs' := ReconcileStands(w, step, c, gs);
  }

  lemma ReconcileStands(w: World, step: Step, c: nat, gs: seq<nat>) returns (c': nat, gs': seq<nat>)
    requires Stands(w.status, c, gs) && c < MAX_INT64 && step.Reconcile?
    ensures Stands(Next(w, step).status, c', gs') && c <= c' <= c + 1 && FromStep(w, step, gs, gs')
    ensures Dropped(gs, gs', c', Next(w, step))
  {
    c' := BegunStands(w.status, step.portsChanged, c, gs);
    gs' := gs;
    if step.deployed {
      var s := Begun(w.status, step.portsChanged);
      RecordedStands(s, c', gs);
      gs' := Added(gs, c');
      var (s2, marked) := Recorded(s, Decimal(c'));
      if marked && step.ready {
        gs' := CleanedStands(World(s2, w.deployed + {Decimal(c')}), c', gs', step.failing);
      }
    }
  }

  /** In every run from an empty status, of fewer steps than an int64 can count, the references are nil or the completed
      string lists ascending decimals none of which exceeds the current generation. */
  lemma {:induction false} RunStands(steps: seq<Step>) returns (c: nat, gs: seq<nat>)
    requires |steps| < MAX_INT64
    ensures c <= |steps| && StandsOrNil(Run(steps).status, c, gs)
  {
    if steps == [] {
      c, gs := 0, [];
    } else {
      var n := |steps| - 1;
      c, gs := RunStands(steps[..n]);
      if Run(steps[..n]).status.Status? { c, gs := StepStands(Run(steps[..n]), steps[n], c, gs); }
    }
  }

  /** So in every such run the substring test on the current generation is membership in the list. */
  lemma MembershipInRun(steps: seq<Step>) returns (c: nat, gs: seq<nat>)
    requires |steps| < MAX_INT64 && Run(steps).status.Status?
    ensures Stands(Run(steps).status, c, gs)
    ensures gs != [] ==> (Contains(Run(steps).status.completed.value, Decimal(c)) <==> c in gs)
  {
    c, gs := RunStands(steps);
    if gs != [] { ContainsIsMembership(gs, c); }
  }

  /** A reconcile in any such run that marks old instances and cleans up without failures leaves the current
      generation alone in the list, and its own resources in place. */
  lemma CleanupInRun(steps: seq<Step>, portsChanged: bool) returns (c: nat)
    requires |steps| < MAX_INT64
    requires var before := Begun(Run(steps).status, portsChanged); Recorded(before, Current(before)).1
    ensures var after := Next(Run(steps), Reconcile(portsChanged, true, true, {}));
            && after.status == Status(Some(Decimal(c)), Some(Decimal(c))) && Decimal(c) in after.deployed
  {
    var b, gs := RunStands(steps);
    assert Run(steps).status.Status?;
    c := BegunStands(Run(steps).status, portsChanged, b, gs);
    CleanupOnce(Run(steps), portsChanged, c, gs);
  }

  lemma CleanupOnce(w: World, portsChanged: bool, c: nat, gs: seq<nat>)
    requires Stands(Begun(w.status, portsChanged), c, gs) && 1 <= c <= MAX_INT64
    requires Current(Begun(w.status, portsChanged)) == Decimal(c)
    requires Recorded(Begun(w.status, portsChanged), Decimal(c)).1
    ensures var after := Next(w, Reconcile(portsChanged, true, true, {}));
            && after.status == Status(Some(Decimal(c)), Some(Decimal(c))) && Decimal(c) in after.deployed
  {
    var s := Begun(w.status, portsChanged);
    RecordedStands(s, c, gs);
    var recorded := World(Recorded(s, Decimal(c)).0, w.deployed + {Decimal(c)});
    assert Next(w, Reconcile(portsChanged, true, true, {})) == Cleaned(recorded, {});
    CleanupAlone(recorded, c, Added(gs, c));
  }

  lemma CleanupAlone(w: World, c: nat, gs: seq<nat>)
    requires Stands(w.status, c, gs) && c in gs && c <= MAX_INT64 && Decimal(c) in w.deployed
    ensures Cleaned(w, {}).status == Status(Some(Decimal(c)), Some(Decimal(c))) && Decimal(c) in Cleaned(w, {}).deployed
  {
    CleanupExactly(w, c, gs);
    CleanupDeletesExactly(w, c, gs, c);
    assert c >= 1;
  }

  // ----- what is no longer listed is gone -----

  /** The generation is listed, or superseded and without resources. */
  ghost predicate ListedOrGone(w: World, c: nat, gs: seq<nat>, g: nat) { g in gs || (g < c && Decimal(g) !in w.deployed) }

  lemma StepKeepsListed(w: World, step: Step, c: nat, gs: seq<nat>, g: nat) returns (c': nat, gs': seq<nat>)
    requires Stands(w.status, c, gs) && c < MAX_INT64 && ListedOrGone(w, c, gs, g)
    ensures Stands(Next(w, step).status, c', gs') && c <= c' <= c + 1 && ListedOrGone(Next(w, step), c', gs', g)
  {
    c', gs' := StepStands(w, step, c, gs);
    if g !in gs && g !in gs' { NothingReturns(w, step, c, gs, g); }
  }

  /** Only the current generation is deployed. */
  lemma NothingReturns(w: World, step: Step, c: nat, gs: seq<nat>, g: nat)
    requires Stands(w.status, c, gs) && c < MAX_INT64 && g < c && Decimal(g) !in w.deployed
    ensures Decimal(g) !in Next(w, step).deployed
  {
    if step.Reconcile? {
      var c' := BegunStands(w.status, step.portsChanged, c, gs);
      if Decimal(g) == Decimal(c') { DecimalInjective(g, c'); }
    }
  }

  /** In every run a generation that was recorded once is still listed, or it was superseded and its resources are gone: no
      resources of a recorded generation are ever lost from the list. */
  lemma {:induction false} RecordedIsListedOrGone(steps: seq<Step>, n: nat, g: nat) returns (c: nat, gs: seq<nat>)
    requires n <= |steps| < MAX_INT64
    requires exists b: nat, hs :: Stands(Run(steps[..n]).status, b, hs) && b <= n && g in hs
    ensures Stands(Run(steps).status, c, gs) && c <= |steps| && ListedOrGone(Run(steps), c, gs, g)
    decreases |steps|
  {
    if n == |steps| {
      assert steps[..n] == steps;
      c, gs :| Stands(Run(steps[..n]).status, c, gs) && c <= n && g in gs;
    } else {
      var before := steps[..|steps| - 1];
      assert before[..n] == steps[..n];
      c, gs := RecordedIsListedOrGone(before, n, g);
      c, gs := StepKeepsListed(Run(before), steps[|steps| - 1], c, gs, g);
    }
  }

  // ----- generations that are never recorded -----

  /** The step neither records g nor deletes it as the current generation of a disabled compiler. */
  predicate Spares(w: World, step: Step, g: nat) {
    && (step.Reconcile? && step.deployed ==> Current(Begun(w.status, step.portsChanged)) != Decimal(g))
    && (step.Disabled? ==> Current(w.status) != Decimal(g))
  }

  /** A cleanup deletes listed generations only. */
  lemma CleanupSpares(w: World, c: nat, gs: seq<nat>, failing: set<string>, g: nat)
    requires Stands(w.status, c, gs) && c <= MAX_INT64 && g !in gs && Decimal(g) in w.deployed
    ensures Decimal(g) in Cleaned(w, failing).deployed
  {
    if gs != [] {
      ListingSplits(gs);
      NumeralOfDecimal(c);
      OlderAre(gs, c, g);
      var older := Older(Numerals(gs), CurrentOf(w.status));
      var n := DeletedBefore(older, failing);
      forall x | x in older[..n] ensures x in older { }
    }
  }

  lemma StepSpares(w: World, step: Step, c: nat, gs: seq<nat>, g: nat)
    requires Stands(w.status, c, gs) && c < MAX_INT64 && g !in gs && Spares(w, step, g) && Decimal(g) in w.deployed
    ensures Decimal(g) in Next(w, step).deployed
  {
    if step.Reconcile? {
      var c' := BegunStands(w.status, step.portsChanged, c, gs);
      if step.deployed { DeploymentSpares(w, step, c', gs, g); }
    }
  }

  lemma DeploymentSpares(w: World, step: Step, c: nat, gs: seq<nat>, g: nat)
    requires step.Reconcile? && step.deployed && g !in gs && Spares(w, step, g) && Decimal(g) in w.deployed
    requires Stands(Begun(w.status, step.portsChanged), c, gs) && 1 <= c <= MAX_INT64
    requires Current(Begun(w.status, step.portsChanged)) == Decimal(c)
    ensures Decimal(g) in Next(w, step).deployed
  {
    var s := Begun(w.status, step.portsChanged);
    RecordedStands(s, c, gs);
    CleanupSpares(World(Recorded(s, Decimal(c)).0, w.deployed + {Decimal(c)}), c, Added(gs, c), step.failing, g);
  }

  /** All steps of a run spare g. */
  predicate AllSpare(steps: seq<Step>, g: nat) {
    forall i :: 0 <= i < |steps| ==> SparedAt(steps, i, g)
  }

  predicate SparedAt(steps: seq<Step>, i: nat, g: nat)
    requires i < |steps|
  { Spares(Run(steps[..i]), steps[i], g) }

  lemma SparedBefore(steps: seq<Step>, g: nat)
    requires steps != [] && AllSpare(steps, g)
    ensures AllSpare(steps[..|steps| - 1], g) && Spares(Run(steps[..|steps| - 1]), steps[|steps| - 1], g)
  {
    var before := steps[..|steps| - 1];
    forall i | 0 <= i < |before| ensures SparedAt(before, i, g) {
      assert SparedAt(steps, i, g) && before[..i] == steps[..i];
    }
    assert SparedAt(steps, |steps| - 1, g);
  }

  lemma UnlistedStep(w: World, step: Step, c: nat, gs: seq<nat>, g: nat) returns (c': nat, gs': seq<nat>)
    requires StandsOrNil(w.status, c, gs) && c < MAX_INT64 && g !in gs && Spares(w, step, g)
    ensures StandsOrNil(Next(w, step).status, c', gs') && c <= c' <= c + 1 && g !in gs'
  {
    if w.status.Status? {
      c', gs' := StepStands(w, step, c, gs);
    } else {
      c', gs' := 0, [];
    }
  }

  /** A generation that is never recorded is not in the list. */
  lemma {:induction false} UnlistedInRun(steps: seq<Step>, g: nat) returns (c: nat, gs: seq<nat>)
    requires |steps| < MAX_INT64 && AllSpare(steps, g)
    ensures StandsOrNil(Run(steps).status, c, gs) && c <= |steps| && g !in gs
  {
    if steps == [] {
      c, gs := 0, [];
    } else {
      var n := |steps| - 1;
      SparedBefore(steps, g);
      c, gs := UnlistedInRun(steps[..n], g);
      c, gs := UnlistedStep(Run(steps[..n]), steps[n], c, gs, g);
    }
  }

  /** In every run, of any length an int64 can count, the resources of a generation that is never recorded are never cleaned
      up: only disabling the compiler while it is current removes them. */
  lemma {:induction false} UnrecordedGenerationRemains(steps: seq<Step>, n: nat, g: nat)
    requires n <= |steps| < MAX_INT64 && AllSpare(steps, g) && Decimal(g) in Run(steps[..n]).deployed
    ensures Decimal(g) in Run(steps).deployed
    decreases |steps|
  {
    if n == |steps| {
      assert steps[..n] == steps;
    } else {
      var m := |steps| - 1;
      var before := steps[..m];
      SparedBefore(steps, g);
      assert before[..n] == steps[..n];
      UnrecordedGenerationRemains(before, n, g);
      var c, gs := UnlistedInRun(before, g);
      if Run(before).status.Status? { StepSpares(Run(before), steps[m], c, gs, g); }
    }
  }

  /** So it happens: generation 1 fails to deploy, a new image starts generation 2, whose next reconciles succeed, and the
      resources of 1 remain. */
  lemma UnrecordedGenerationHappens()
    ensures var steps := [MakeReferences, Reconcile(false, false, true, {}), NewImage, Reconcile(false, true, true, {}),
                          Reconcile(false, true, true, {})];
            Run(steps) == World(Status(Some("2"), Some("2")), {"1", "2"})
  {
    var s0 := [MakeReferences];
    var s1 := s0 + [Reconcile(false, false, true, {})];
    var s2 := s1 + [NewImage];
    var s3 := s2 + [Reconcile(false, true, true, {})];
    var s4 := s3 + [Reconcile(false, true, true, {})];
    assert s0[..0] == [] && s1[..1] == s0 && s2[..2] == s1 && s3[..3] == s2 && s4[..4] == s3;
    assert Decimal(1) == "1" && Decimal(2) == "2";
    NumeralOfDecimal(1);
    assert Run(s0) == World(Status(None, None), {});
    assert Run(s1) == World(Status(Some("1"), None), {"1"});
    assert Run(s2) == World(Status(Some("2"), None), {"1"});
    assert Run(s3) == World(Status(Some("2"), Some("2")), {"1", "2"});
    assert Run(s4) == World(Status(Some("2"), Some("2")), {"1", "2"});
    assert s4 == [MakeReferences, Reconcile(false, false, true, {}), NewImage, Reconcile(false, true, true, {}), Reconcile(false, true, true, {})];
  }

  // ----- where the counter does not count -----

  /** A counter that is no number starts again at 1. */
  lemma NoNumberRestarts(s: Status)
    requires s.Status? && (s.generation.Some? ==> Atoi(s.generation.value) == None)
    ensures NewGeneration(s) == s.(generation := Some("1"))
  {
  }

  /** After the largest 64-bit number it goes on with the smallest, which is older than every other. */
  lemma CounterOverflows(completed: Option<string>)
    ensures NewGeneration(Status(Some(Decimal(MAX_INT64)), completed)) == Status(Some(FormatInt(-MAX_INT64 - 1)), completed)
  {
    NumeralOfDecimal(MAX_INT64);
  }

  /** Without references nothing is recorded, counted or cleaned up, and the generation is 1. */
  lemma NilReferences(current: string, deployed: set<string>, failing: set<string>)
    ensures WithGeneration(NoReferences) == NewGeneration(NoReferences) == NoReferences && Current(NoReferences) == "1"
    ensures Recorded(NoReferences, current) == (NoReferences, false)
    ensures Cleaned(World(NoReferences, deployed), failing) == World(NoReferences, deployed) && Cleanable(World(NoReferences, deployed), failing)
  {
  }

  /** Disabling the compiler deletes the resources of the current generation and no others. */
  lemma DisabledDeletesCurrent(w: World, x: string)
    ensures x in Next(w, Disabled).deployed <==> x in w.deployed && x != Current(w.status)
    ensures Next(w, Disabled).status.Status? ==> Next(w, Disabled).status.completed == w.status.completed
  {
  }

  /** A reconcile deploys the current generation; before a successful deployment it deletes nothing and records nothing. */
  lemma FailedDeploymentRecordsNothing(w: World, portsChanged: bool, ready: bool, failing: set<string>)
    ensures var after := Next(w, Reconcile(portsChanged, false, ready, failing));
            && after.deployed == w.deployed + {Current(Begun(w.status, portsChanged))}
            && after.status.NoReferences? == w.status.NoReferences?
            && (after.status.Status? ==> after.status.completed == w.status.completed)
  {
  }
}
