/** Operand versions "va_b_c": how utils/utils.go orders them, and the search for the newest tree version. */
module OperandVersion {
  import opened Text

  // ----- numerals inside a version -----

  /** The longest prefix of digits. */
  function LeadingDigits(s: string): (d: string)
    ensures AllDigits(d) && d <= s
    ensures |d| < |s| ==> !IsDigit(s[|d|])
  {
    if s != "" && IsDigit(s[0]) then [s[0]] + LeadingDigits(s[1..]) else ""
  }

  lemma {:induction false} LeadingDigitsUnique(s: string, d: string)
    requires AllDigits(d) && d <= s && (|d| < |s| ==> !IsDigit(s[|d|]))
    ensures d == LeadingDigits(s)
  {
    if s != "" && IsDigit(s[0]) {
      LeadingDigitsUnique(s[1..], d[1..]);
      assert d == [s[0]] + d[1..];
    }
  }

  method GetFirstNumberFromString(target: string) returns (number: string)
    ensures number == LeadingDigits(target)
  {
    var k := 0;
    while k < |target|
      invariant 0 <= k <= |target| && AllDigits(target[..k])
    {
      if !IsDigit(target[k]) { break; }
      k := k + 1;
    }
    number := target[..k];
    LeadingDigitsUnique(target, number);
  }

  /** One component: its leading numeral, clamped the way ParseInt clamps when its error is dropped. */
  function Part(s: string): (n: nat)
    ensures n <= MAX_INT64
  {
    var v := Value(LeadingDigits(s));
    if v > MAX_INT64 then MAX_INT64 else v
  }

  function PartsOf(pieces: seq<string>): (ns: seq<nat>)
    ensures |ns| == |pieces|
    ensures forall i :: 0 <= i < |ns| ==> ns[i] == Part(pieces[i])
  {
    if pieces == [] then [] else [Part(pieces[0])] + PartsOf(pieces[1..])
  }

  function Parts(v: string): (ns: seq<nat>)
    requires v != ""
    ensures |ns| >= 1
  {
    PartsOf(Split(v[1..], '_'))
  }

  lemma PartIsNumeral(s: string)
    ensures Part(s) == ParseInt(LeadingDigits(s)) <= MAX_INT64
  {
    var d := LeadingDigits(s);
    assert d != "" ==> IsDigit(d[0]);
  }

  lemma PartIsParseInt(v: string, i: nat)
    requires v != "" && i < |Split(v[1..], '_')|
    ensures |Parts(v)| == |Split(v[1..], '_')|
    ensures Parts(v)[i] == ParseInt(LeadingDigits(Split(v[1..], '_')[i])) <= MAX_INT64
  {
    PartIsNumeral(Split(v[1..], '_')[i]);
  }

  method ParseComponent(piece: string) returns (n: int)
    ensures n == Part(piece)
  {
    var numeral := GetFirstNumberFromString(piece);
    PartIsNumeral(piece);
    n := ParseInt(numeral);
  }

  // ----- comparison -----

  /** The first difference of two component lists, 0 when there is none. */
  function Diff(x: seq<nat>, y: seq<nat>): int {
    if x == [] || y == [] then 0
    else if x[0] != y[0] then x[0] - y[0]
    else Diff(x[1..], y[1..])
  }

  /** The index i into the second list stays in range while the first i components agree. */
  predicate StaysInRange(x: seq<nat>, y: seq<nat>) { |x| <= |y| || x[..|y|] != y }

  /** The slices and indices of CompareOperandVersion stay in range. */
  predicate Comparable(a: string, b: string) {
    a != "" && b != "" && StaysInRange(Parts(a), Parts(b))
  }

  lemma {:induction false} DiffFrom(x: seq<nat>, y: seq<nat>, i: nat)
    requires i <= |x| && i <= |y| && x[..i] == y[..i]
    ensures Diff(x, y) == Diff(x[i..], y[i..])
  {
    if i == 0 {
      assert x[0..] == x && y[0..] == y;
    } else {
      assert x[0] == x[..i][0] == y[0];
      assert x[1..][..i - 1] == x[..i][1..] && y[1..][..i - 1] == y[..i][1..];
      DiffFrom(x[1..], y[1..], i - 1);
      assert x[1..][i - 1..] == x[i..] && y[1..][i - 1..] == y[i..];
    }
  }

  lemma IndexInRange(x: seq<nat>, y: seq<nat>, i: nat)
    requires StaysInRange(x, y) && i < |x| && i <= |y| && x[..i] == y[..i]
    ensures i < |y|
  {
    assert y[..|y|] == y;
  }

  lemma PrefixStep(x: seq<nat>, y: seq<nat>, i: nat)
    requires i < |x| && i < |y| && x[..i] == y[..i] && x[i] == y[i]
    ensures x[..i + 1] == y[..i + 1]
  {
    assert x[..i + 1] == x[..i] + [x[i]] && y[..i + 1] == y[..i] + [y[i]];
  }

  lemma DiffAt(x: seq<nat>, y: seq<nat>, i: nat)
    requires i < |x| && i < |y| && x[..i] == y[..i] && x[i] != y[i]
    ensures Diff(x, y) == x[i] as int - y[i] as int
  {
    DiffFrom(x, y, i);
  }

  lemma DiffNone(x: seq<nat>, y: seq<nat>)
    requires |x| <= |y| && x == y[..|x|]
    ensures Diff(x, y) == 0
  {
    assert x[..|x|] == x;
    DiffFrom(x, y, |x|);
  }

  ghost predicate AreParts(pieces: seq<string>, x: seq<nat>) {
    |x| == |pieces| && forall i :: 0 <= i < |x| ==> x[i] == Part(pieces[i])
  }

  /** The loop of CompareOperandVersion. */
  method CompareComponents(arrA: seq<string>, arrB: seq<string>, ghost x: seq<nat>, ghost y: seq<nat>) returns (c: int)
    requires AreParts(arrA, x) && AreParts(arrB, y) && StaysInRange(x, y)
    ensures c == Diff(x, y)
    ensures -MAX_INT64 <= c <= MAX_INT64  // the subtraction of two int64 values does not wrap around
  {
    var i := 0;
    while i < |arrA|
      invariant 0 <= i <= |arrA| && i <= |arrB|
      invariant x[..i] == y[..i]
    {
      IndexInRange(x, y, i);
      var intA := ParseComponent(arrA[i]);
      var intB := ParseComponent(arrB[i]);
      if intA != intB {
        DiffAt(x, y, i);
        return intA - intB;
      }
      PrefixStep(x, y, i);
      i := i + 1;
    }
    assert x[..|x|] == x;
    DiffNone(x, y);
    c := 0;
  }

  method CompareOperandVersion(a: string, b: string) returns (c: int)
    requires Comparable(a, b)
    ensures c == Diff(Parts(a), Parts(b))
    ensures -MAX_INT64 <= c <= MAX_INT64
  {
    c := CompareComponents(Split(a[1..], '_'), Split(b[1..], '_'), Parts(a), Parts(b));
  }

  /** The reference order: x precedes y at the first component where they differ. */
  ghost predicate LexLess(x: seq<nat>, y: seq<nat>) {
    exists i :: 0 <= i < |x| && i < |y| && x[..i] == y[..i] && x[i] < y[i]
  }

  lemma {:induction false} DiffIsLex(x: seq<nat>, y: seq<nat>)
    ensures Diff(x, y) < 0 <==> LexLess(x, y)
    ensures Diff(x, y) > 0 <==> LexLess(y, x)
    ensures |x| == |y| ==> (Diff(x, y) == 0 <==> x == y)
  {
    if x == [] || y == [] {
    } else if x[0] != y[0] {
      assert x[..0] == y[..0];
      forall i | 0 < i < |x| && i < |y| ensures x[..i] != y[..i] {
        assert x[..i][0] == x[0] && y[..i][0] == y[0];
      }
    } else {
      DiffIsLex(x[1..], y[1..]);
      LexStep(x, y);
      LexStep(y, x);
      assert x == [x[0]] + x[1..] && y == [y[0]] + y[1..];
    }
  }

  lemma LexStep(x: seq<nat>, y: seq<nat>)
    requires x != [] && y != [] && x[0] == y[0]
    ensures LexLess(x, y) <==> LexLess(x[1..], y[1..])
  {
    if LexLess(x, y) { LexDrop(x, y); }
    if LexLess(x[1..], y[1..]) {
      LexCons(x[0], x[1..], y[1..]);
      assert x == [x[0]] + x[1..] && y == [x[0]] + y[1..];
    }
  }

  lemma LexDrop(x: seq<nat>, y: seq<nat>)
    requires x != [] && y != [] && x[0] == y[0] && LexLess(x, y)
    ensures LexLess(x[1..], y[1..])
  {
    var i :| 0 <= i < |x| && i < |y| && x[..i] == y[..i] && x[i] < y[i];
    assert x[1..][..i - 1] == x[..i][1..] && y[1..][..i - 1] == y[..i][1..];
    assert x[1..][i - 1] < y[1..][i - 1];
  }

  lemma LexCons(a: nat, x: seq<nat>, y: seq<nat>)
    requires LexLess(x, y)
    ensures LexLess([a] + x, [a] + y)
  {
    var i :| 0 <= i < |x| && i < |y| && x[..i] == y[..i] && x[i] < y[i];
    var u, v := [a] + x, [a] + y;
    assert u[..i + 1] == [a] + x[..i] && v[..i + 1] == [a] + y[..i];
    assert u[i + 1] < v[i + 1];
  }

  lemma {:induction false} DiffTransitive(x: seq<nat>, y: seq<nat>, z: seq<nat>)
    requires |x| == |y| == |z|
    requires Diff(x, y) <= 0 && Diff(y, z) <= 0
    ensures Diff(x, z) <= 0
    ensures Diff(x, z) == 0 ==> Diff(x, y) == 0 && Diff(y, z) == 0
  {
    if x != [] && x[0] == y[0] == z[0] { DiffTransitive(x[1..], y[1..], z[1..]); }
  }

  // ----- version strings -----

  predicate ThreeParts(v: string) { v != "" && |Split(v[1..], '_')| == 3 }

  predicate IsOperandVersionString(v: string) {
    '_' in v && v[0] == 'v' && |Split(v, '_')| == 3
  }

  predicate IsValidOperandVersion(v: string) {
    && v != "" && v[0] == 'v' && '_' in v[1..]
    && |Split(v[1..], '_')| == 3
    && forall i :: 0 <= i < 3 ==> LeadingDigits(Split(v[1..], '_')[i]) != ""
  }

  lemma OperandVersionStringHasThreeParts(v: string)
    requires IsOperandVersionString(v)
    ensures ThreeParts(v)
  {
  }

  /** a is older than b, for versions of three components. */
  predicate Older(a: string, b: string)
    requires ThreeParts(a) && ThreeParts(b)
  { Diff(Parts(a), Parts(b)) < 0 }

  predicate AtMost(a: string, b: string)
    requires ThreeParts(a) && ThreeParts(b)
  { Diff(Parts(a), Parts(b)) <= 0 }

  /** The sign of the comparison is a total preorder on three-component versions. */
  lemma VersionOrder(a: string, b: string, c: string)
    requires ThreeParts(a) && ThreeParts(b) && ThreeParts(c)
    ensures AtMost(a, a)
    ensures AtMost(a, b) <==> !Older(b, a)
    ensures AtMost(a, b) && AtMost(b, c) ==> AtMost(a, c)
    ensures (Older(a, b) && AtMost(b, c)) || (AtMost(a, b) && Older(b, c)) ==> Older(a, c)
    ensures AtMost(a, b) && AtMost(b, a) <==> Parts(a) == Parts(b)
  {
    var x, y, z := Parts(a), Parts(b), Parts(c);
    DiffIsLex(x, x);
    DiffIsLex(x, y);
    DiffIsLex(y, x);
    if AtMost(a, b) && AtMost(b, c) { DiffTransitive(x, y, z); }
  }

  // ----- the newest tree version that is not newer than a bound -----

  const BASE_VERSION: string := "v0_0_0"

  lemma BasePartsAreZero()
    ensures ThreeParts(BASE_VERSION) && Parts(BASE_VERSION) == [0, 0, 0]
  {
    SplitHead("0", '_', "0_0");
    assert "0" + ['_'] + "0_0" == BASE_VERSION[1..];
    SplitHead("0", '_', "0");
    assert "0" + ['_'] + "0" == "0_0";
    SplitSingle("0", '_');
    assert LeadingDigits("0") == "0";
    assert Value("0") == 0 by { assert "0"[..0] == ""; }
  }

  lemma BaseIsLeast(v: string)
    requires ThreeParts(v)
    ensures ThreeParts(BASE_VERSION) && AtMost(BASE_VERSION, v)
  {
    BasePartsAreZero();
    DiffIsLex(Parts(BASE_VERSION), Parts(v));
  }

  /** A key the search can select: not above the bound, and above or spelled like the base version. */
  predicate Eligible(k: string, bound: string)
    requires ThreeParts(bound)
  {
    && ThreeParts(k) && ThreeParts(BASE_VERSION)
    && AtMost(k, bound) && (k == BASE_VERSION || Older(BASE_VERSION, k))
  }

  /** What getLatestTreeMapOperandVersion promises about its result, None standing for its errors. */
  ghost predicate IsLatest(keys: set<string>, bound: string, r: Option<string>)
    requires ThreeParts(bound)
  {
    match r
    case None =>
      (exists k :: k in keys && !IsOperandVersionString(k)) || (forall k :: k in keys ==> !Eligible(k, bound))
    case Some(v) =>
      && v in keys && Eligible(v, bound)
      && (forall k :: k in keys ==> IsOperandVersionString(k))
      && (forall k :: k in keys && ThreeParts(k) && AtMost(k, bound) ==> AtMost(k, v))
  }

  /** One turn of the search: `latest` moves to `version` when that is newer and within the bound. */
  function Advance(latest: string, version: string, bound: string): string
    requires ThreeParts(latest) && ThreeParts(version) && ThreeParts(bound)
  {
    if Older(latest, version) && AtMost(version, bound) then version else latest
  }

  lemma AdvanceKeeps(latest: string, version: string, bound: string, k: string)
    requires ThreeParts(latest) && ThreeParts(version) && ThreeParts(bound) && ThreeParts(k)
    requires AtMost(latest, bound) && AtMost(k, latest)
    ensures AtMost(Advance(latest, version, bound), bound)
    ensures AtMost(k, Advance(latest, version, bound))
    ensures AtMost(version, bound) ==> AtMost(version, Advance(latest, version, bound))
    ensures Advance(latest, version, bound) != latest ==> Older(k, version)
  {
    VersionOrder(k, latest, version);
    VersionOrder(version, latest, version);
    VersionOrder(version, version, version);
    VersionOrder(latest, version, bound);
  }

  /** What the search knows after the first i keys: of the latest version, and of the keys. */
  ghost predicate Searched(order: seq<string>, i: nat, bound: string, latest: string) {
    && i <= |order| && ThreeParts(bound) && ThreeParts(latest)
    && WithinBound(order, bound, latest) && AllBelow(order, i, bound, latest)
  }

  ghost predicate WithinBound(order: seq<string>, bound: string, latest: string)
    requires ThreeParts(bound) && ThreeParts(latest)
  {
    && ThreeParts(BASE_VERSION) && AtMost(latest, bound) && AtMost(BASE_VERSION, latest)
    && (latest == BASE_VERSION || (latest in order && Older(BASE_VERSION, latest)))
  }

  ghost predicate AllBelow(order: seq<string>, i: nat, bound: string, latest: string)
    requires ThreeParts(bound) && ThreeParts(latest) && i <= |order|
  {
    forall j :: 0 <= j < i ==> Below(order[j], bound, latest)
  }

  predicate Below(k: string, bound: string, latest: string)
    requires ThreeParts(bound) && ThreeParts(latest)
  {
    IsOperandVersionString(k) && ThreeParts(k) && (AtMost(k, bound) ==> AtMost(k, latest))
  }

  lemma SearchStep(order: seq<string>, i: nat, bound: string, latest: string)
    requires Searched(order, i, bound, latest)
    requires i < |order| && IsOperandVersionString(order[i]) && ThreeParts(order[i])
    ensures Searched(order, i + 1, bound, Advance(latest, order[i], bound))
  {
    StaysWithin(order, i, bound, latest);
    var next := Advance(latest, order[i], bound);
    forall k | Below(k, bound, latest) || k == order[i] ensures Below(k, bound, next) { BelowStays(k, order[i], bound, latest); }
    OneMore(order, i, k => Below(k, bound, latest), k => Below(k, bound, next));
  }

  lemma OneMore(order: seq<string>, i: nat, before: string -> bool, after: string -> bool)
    requires i < |order| && (forall j :: 0 <= j < i ==> before(order[j]))
    requires forall k :: before(k) || k == order[i] ==> after(k)
    ensures forall j :: 0 <= j < i + 1 ==> after(order[j])
  {
  }

  lemma BelowStays(k: string, version: string, bound: string, latest: string)
    requires ThreeParts(latest) && ThreeParts(version) && ThreeParts(bound) && AtMost(latest, bound)
    requires Below(k, bound, latest) || (k == version && IsOperandVersionString(k))
    ensures Below(k, bound, Advance(latest, version, bound))
  {
    EarlierKey(latest, version, bound, k);
  }

  lemma StaysWithin(order: seq<string>, i: nat, bound: string, latest: string)
    requires i < |order| && ThreeParts(bound) && ThreeParts(latest) && ThreeParts(order[i]) && WithinBound(order, bound, latest)
    ensures WithinBound(order, bound, Advance(latest, order[i], bound))
  {
    AdvanceKeeps(latest, order[i], bound, BASE_VERSION);
  }

  lemma EarlierKey(latest: string, version: string, bound: string, k: string)
    requires ThreeParts(latest) && ThreeParts(version) && ThreeParts(bound) && ThreeParts(k) && AtMost(latest, bound)
    requires (AtMost(k, bound) ==> AtMost(k, latest)) || k == version
    ensures AtMost(k, bound) ==> AtMost(k, Advance(latest, version, bound))
  {
    VersionOrder(latest, latest, latest);
    if AtMost(k, bound) {
      if AtMost(k, latest) { AdvanceKeeps(latest, version, bound, k); } else { AdvanceKeeps(latest, version, bound, latest); }
    }
  }

  lemma SearchEnds(order: seq<string>, bound: string, latest: string)
    requires Searched(order, |order|, bound, latest)
    ensures IsLatest((set k | k in order), bound, if latest in order then Some(latest) else None)
  {
    if latest !in order {
      forall k | k in order ensures !Eligible(k, bound) {
        VersionOrder(latest, k, latest);
      }
    }
  }

  /** `order` is the iteration order of the tree map. */
  method GetLatestTreeMapOperandVersion(order: seq<string>, bound: string) returns (r: Option<string>)
    requires ThreeParts(bound)
    ensures IsLatest((set k | k in order), bound, r)
  {
    BaseIsLeast(bound);
    VersionOrder(BASE_VERSION, BASE_VERSION, BASE_VERSION);
    var latest := BASE_VERSION;
    for i := 0 to |order|
      invariant Searched(order, i, bound, latest)
    {
      if !IsOperandVersionString(order[i]) {
        assert order[i] in (set k | k in order);
        return None;
      }
      OperandVersionStringHasThreeParts(order[i]);
      SearchStep(order, i, bound, latest);
      VersionOrder(order[i], bound, order[i]);
      var newer := CompareOperandVersion(latest, order[i]);
      var within := CompareOperandVersion(bound, order[i]);
      if newer < 0 && within >= 0 {
        latest := order[i];
      }
    }
    SearchEnds(order, bound, latest);
    r := if latest in order then Some(latest) else None;
  }

  /** In any iteration order the search finds the same key, when no two keys compare equal. */
  lemma LatestUnique(keys: set<string>, bound: string, r: Option<string>, s: Option<string>)
    requires ThreeParts(bound) && IsLatest(keys, bound, r) && IsLatest(keys, bound, s)
    requires forall k, l :: k in keys && l in keys && ThreeParts(k) && ThreeParts(l) && Parts(k) == Parts(l) ==> k == l
    ensures r == s
  {
    if r.Some? && s.Some? {
      VersionOrder(r.value, s.value, r.value);
    }
  }

  /** A bound that is itself a tree version is found, up to spelling. */
  lemma LatestOfMember(keys: set<string>, bound: string, r: Option<string>)
    requires ThreeParts(bound) && IsLatest(keys, bound, r)
    requires forall k :: k in keys ==> IsOperandVersionString(k)
    requires bound in keys && (bound == BASE_VERSION || Parts(bound) != [0, 0, 0])
    ensures r.Some? && ThreeParts(r.value) && Parts(r.value) == Parts(bound)
  {
    BaseIsLeast(bound);
    VersionOrder(bound, BASE_VERSION, bound);
    BasePartsAreZero();
    VersionOrder(bound, bound, bound);
    assert Eligible(bound, bound);
    VersionOrder(bound, r.value, bound);
  }

  /** Of the keys within the bound, only those spelled differently from v0_0_0 but equal to it are not eligible. */
  lemma EligibleMeans(k: string, bound: string)
    requires ThreeParts(k) && ThreeParts(bound)
    ensures Eligible(k, bound) <==> AtMost(k, bound) && !OtherZero(k)
  {
    BasePartsAreZero();
    BaseIsLeast(k);
    VersionOrder(BASE_VERSION, k, k);
    VersionOrder(k, BASE_VERSION, k);
  }

  predicate OtherZero(k: string) { k != "" && Parts(k) == [0, 0, 0] && k != BASE_VERSION }

  /** On version keys the search fails exactly when every key within the bound is zero in all components but not spelled
      v0_0_0: such keys, v0_0_00 for one, are never found. */
  lemma FailsExactly(keys: set<string>, bound: string, r: Option<string>)
    requires ThreeParts(bound) && IsLatest(keys, bound, r)
    requires forall k :: k in keys ==> IsOperandVersionString(k)
    ensures r.None? <==> forall k :: k in keys && ThreeParts(k) && AtMost(k, bound) ==> OtherZero(k)
  {
    forall k | k in keys ensures ThreeParts(k) && (Eligible(k, bound) <==> AtMost(k, bound) && !OtherZero(k)) {
      OperandVersionStringHasThreeParts(k);
      EligibleMeans(k, bound);
    }
  }

  // ----- which strings are versions -----

  function Spell(x: string, y: string, z: string): string { "v" + x + "_" + y + "_" + z }

  predicate Plain(x: string) { '_' !in x }

  predicate Numbered(x: string) { Plain(x) && LeadingDigits(x) != "" }

  lemma SpellSplits(x: string, y: string, z: string)
    requires Plain(x) && Plain(y) && Plain(z)
    ensures Split(Spell(x, y, z)[1..], '_') == [x, y, z] && Split(Spell(x, y, z), '_') == ["v" + x, y, z]
    ensures Spell(x, y, z)[0] == 'v' && '_' in Spell(x, y, z)[1..]
  {
    SplitSingle(z, '_');
    SplitHead(y, '_', z);
    SplitHead(x, '_', y + "_" + z);
    SplitHead("v" + x, '_', y + "_" + z);
    assert Spell(x, y, z) == ("v" + x) + ['_'] + (y + "_" + z) && y + "_" + z == y + ['_'] + z;
    assert Spell(x, y, z)[1..] == x + ['_'] + (y + "_" + z);
    SplitCount(Spell(x, y, z)[1..], '_');
  }

  lemma ThreePieces(v: string) returns (x: string, y: string, z: string)
    requires v != "" && v[0] == 'v' && |Split(v[1..], '_')| == 3
    ensures v == Spell(x, y, z) && Split(v[1..], '_') == [x, y, z] && Plain(x) && Plain(y) && Plain(z)
  {
    var pieces := Split(v[1..], '_');
    x, y, z := pieces[0], pieces[1], pieces[2];
    SplitFree(v[1..], '_');
    JoinSplit(v[1..], '_');
    assert pieces[1..][1..] == [z] && Join([z], '_') == z;
    assert Join(pieces[1..], '_') == y + ['_'] + z;
    assert v == "v" + v[1..];
  }

  /** A valid operand version is a "v" and three pieces, joined by underscores, that each begin with a digit. */
  lemma ValidExactly(v: string)
    ensures IsValidOperandVersion(v) <==> exists x, y, z {:trigger Spell(x, y, z)} :: Numbered(x) && Numbered(y) && Numbered(z) && v == Spell(x, y, z)
  {
    if IsValidOperandVersion(v) {
      var x, y, z := ThreePieces(v);
      var pieces := Split(v[1..], '_');
      assert pieces[0] == x && pieces[1] == y && pieces[2] == z;
    }
    if x, y, z {:trigger Spell(x, y, z)} :| Numbered(x) && Numbered(y) && Numbered(z) && v == Spell(x, y, z) { SpellSplits(x, y, z); }
  }

  /** What the search for the latest version takes for one is any "v" with three pieces, numbered or not. */
  lemma TreeKeyExactly(v: string)
    ensures IsOperandVersionString(v) <==> exists x, y, z {:trigger Spell(x, y, z)} :: Plain(x) && Plain(y) && Plain(z) && v == Spell(x, y, z)
  {
    if IsOperandVersionString(v) {
      OperandVersionStringHasThreeParts(v);
      var x, y, z := ThreePieces(v);
    }
    if x, y, z {:trigger Spell(x, y, z)} :| Plain(x) && Plain(y) && Plain(z) && v == Spell(x, y, z) { SpellSplits(x, y, z); }
  }

  /** A version written from three numbers is valid, and compares by them. */
  lemma WrittenVersion(a: nat, b: nat, c: nat)
    requires a <= MAX_INT64 && b <= MAX_INT64 && c <= MAX_INT64
    ensures var v := Spell(Decimal(a), Decimal(b), Decimal(c)); IsValidOperandVersion(v) && IsOperandVersionString(v) && Parts(v) == [a, b, c]
  {
    var v := Spell(Decimal(a), Decimal(b), Decimal(c));
    DecimalHasNo(a, '_');
    DecimalHasNo(b, '_');
    DecimalHasNo(c, '_');
    SpellSplits(Decimal(a), Decimal(b), Decimal(c));
    WrittenPart(a);
    WrittenPart(b);
    WrittenPart(c);
    assert Numbered(Decimal(a)) && Numbered(Decimal(b)) && Numbered(Decimal(c));
    ValidExactly(v);
    TreeKeyExactly(v);
    assert |Parts(v)| == 3 && Parts(v)[0] == a && Parts(v)[1] == b && Parts(v)[2] == c;
  }

  lemma WrittenPart(n: nat)
    requires n <= MAX_INT64
    ensures Part(Decimal(n)) == n && LeadingDigits(Decimal(n)) == Decimal(n) != ""
  {
    NumeralOfDecimal(n);
    LeadingDigitsUnique(Decimal(n), Decimal(n));
    PartIsNumeral(Decimal(n));
  }
}
