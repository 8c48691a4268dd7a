/** The parts of Go's `strings` and `strconv` packages that the operator relies on.
    Strings are sequences of characters; separators are single characters. */
module Text {

  datatype Option<+T> = None | Some(value: T)

  // ----- splitting and joining -----

  /** strings.Split(s, sep): n separators give n + 1 pieces. */
  function Split(s: string, sep: char): (parts: seq<string>)
    ensures |parts| >= 1
  {
    if s == "" then [""]
    else
      var rest := Split(s[1..], sep);
      if s[0] == sep then [""] + rest else [[s[0]] + rest[0]] + rest[1..]
  }

  /** strings.Join(parts, sep). */
  function Join(parts: seq<string>, sep: char): string {
    if parts == [] then ""
    else if |parts| == 1 then parts[0]
    else parts[0] + [sep] + Join(parts[1..], sep)
  }

  predicate AllFree(parts: seq<string>, sep: char) {
    forall i :: 0 <= i < |parts| ==> sep !in parts[i]
  }

  lemma {:induction false} SplitFree(s: string, sep: char)
    ensures AllFree(Split(s, sep), sep)
  {
    if s != "" {
      SplitFree(s[1..], sep);
      var rest := Split(s[1..], sep);
      forall i | 0 <= i < |Split(s, sep)| ensures sep !in Split(s, sep)[i] {
        if s[0] == sep {
          if i > 0 { assert Split(s, sep)[i] == rest[i - 1]; }
        } else {
          if i > 0 { assert Split(s, sep)[i] == rest[i]; }
        }
      }
    }
  }

  lemma {:induction false} SplitSingle(s: string, sep: char)
    requires sep !in s
    ensures Split(s, sep) == [s]
  {
    if s != "" {
      SplitSingle(s[1..], sep);
      assert s == [s[0]] + s[1..];
    }
  }

  /** Splitting distributes over a separator. */
  lemma {:induction false} SplitConcat(a: string, sep: char, b: string)
    ensures Split(a + [sep] + b, sep) == Split(a, sep) + Split(b, sep)
  {
    var s := a + [sep] + b;
    if a == "" {
      assert s[1..] == b;
    } else {
      assert s[1..] == a[1..] + [sep] + b;
      SplitConcat(a[1..], sep, b);
    }
  }

  lemma SplitHead(a: string, sep: char, b: string)
    requires sep !in a
    ensures Split(a + [sep] + b, sep) == [a] + Split(b, sep)
  {
    SplitConcat(a, sep, b);
    SplitSingle(a, sep);
  }

  /** A separator occurs exactly when there are two pieces or more. */
  lemma {:induction false} SplitCount(s: string, sep: char)
    ensures |Split(s, sep)| >= 2 <==> sep in s
  {
    if sep !in s {
      SplitSingle(s, sep);
    } else {
      var i :| 0 <= i < |s| && s[i] == sep;
      assert s == s[..i] + [sep] + s[i + 1..];
      SplitConcat(s[..i], sep, s[i + 1..]);
    }
  }

  lemma {:induction false} PiecesComeFrom(s: string, sep: char, i: nat, c: char)
    requires i < |Split(s, sep)| && c in Split(s, sep)[i]
    ensures c in s
  {
    if s != "" {
      var rest := Split(s[1..], sep);
      if s[0] == sep {
        assert i > 0 && Split(s, sep)[i] == rest[i - 1];
        PiecesComeFrom(s[1..], sep, i - 1, c);
      } else if i > 0 {
        assert Split(s, sep)[i] == rest[i];
        PiecesComeFrom(s[1..], sep, i, c);
      } else if c in rest[0] {
        PiecesComeFrom(s[1..], sep, 0, c);
      }
    }
  }

  lemma {:induction false} JoinSplit(s: string, sep: char)
    ensures Join(Split(s, sep), sep) == s
  {
    if s != "" {
      JoinSplit(s[1..], sep);
      var rest := Split(s[1..], sep);
      var parts := Split(s, sep);
      if s[0] == sep {
        assert parts[1..] == rest;
      } else {
        assert parts[1..] == rest[1..];
        if |rest| > 1 {
          assert [s[0]] + (rest[0] + [sep] + Join(rest[1..], sep)) == parts[0] + [sep] + Join(parts[1..], sep);
        }
      }
    }
  }

  lemma {:induction false} SplitJoin(parts: seq<string>, sep: char)
    requires |parts| >= 1 && AllFree(parts, sep)
    ensures Split(Join(parts, sep), sep) == parts
  {
    if |parts| == 1 {
      SplitSingle(parts[0], sep);
    } else {
      SplitHead(parts[0], sep, Join(parts[1..], sep));
      SplitJoin(parts[1..], sep);
    }
  }

  lemma {:induction false} JoinConcat(a: seq<string>, b: seq<string>, sep: char)
    requires a != [] && b != []
    ensures Join(a + b, sep) == Join(a, sep) + [sep] + Join(b, sep)
  {
    if |a| == 1 {
      assert (a + b)[1..] == b;
    } else {
      assert (a + b)[1..] == a[1..] + b;
      JoinConcat(a[1..], b, sep);
    }
  }

  /** If two strings that continue with a separator agree, their separator-free heads agree. */
  lemma HeadsAgree(a: string, x: string, b: string, y: string, sep: char)
    requires sep !in a && sep !in b
    requires a + [sep] + x == b + [sep] + y
    ensures a == b && x == y
  {
    SplitHead(a, sep, x);
    SplitHead(b, sep, y);
    assert a == ([a] + Split(x, sep))[0] == b;
    assert x == (a + [sep] + x)[|a| + 1..] == y;
  }

  /** strings.LastIndex(s, c) for a single character; -1 when it does not occur. */
  function LastIndex(s: string, c: char): (i: int)
    ensures -1 <= i < |s|
    ensures i >= 0 ==> s[i] == c && c !in s[i + 1..]
    ensures i == -1 <==> c !in s
  {
    if s == "" then -1
    else if s[|s| - 1] == c then |s| - 1
    else
      var front, last := s[..|s| - 1], s[|s| - 1];
      var i := LastIndex(front, c);
      assert s == front + [last];
      AppendedIsNot(front, last, i + 1, c);
      i
  }

  lemma AppendedIsNot(s: string, x: char, i: nat, c: char)
    requires i <= |s| && x != c
    ensures c in s + [x] <==> c in s
    ensures c in (s + [x])[i..] <==> c in s[i..]
  {
    assert (s + [x])[i..] == s[i..] + [x];
  }

  /** strings.Trim(s, " "). */
  function TrimSpaces(s: string): string {
    if s != "" && s[0] == ' ' then TrimSpaces(s[1..])
    else if s != "" && s[|s| - 1] == ' ' then TrimSpaces(s[..|s| - 1])
    else s
  }

  // ----- substrings -----

  predicate OccursAt(s: string, sub: string, i: int) {
    0 <= i && i + |sub| <= |s| && s[i..i + |sub|] == sub
  }

  /** strings.Contains(s, sub). */
  predicate Contains(s: string, sub: string) {
    exists i :: 0 <= i <= |s| && OccursAt(s, sub, i)
  }

  /** strings.Index(s, sub) searching from position `from`; -1 when there is no occurrence. */
  function IndexFrom(s: string, sub: string, from: nat): (i: int)
    requires from <= |s|
    ensures i == -1 ==> forall j :: from <= j <= |s| ==> !OccursAt(s, sub, j)
    ensures i != -1 ==> from <= i <= |s| && OccursAt(s, sub, i) && forall j :: from <= j < i ==> !OccursAt(s, sub, j)
    decreases |s| - from
  {
    if OccursAt(s, sub, from) then from
    else if from == |s| then -1
    else IndexFrom(s, sub, from + 1)
  }

  /** strings.Replace(s, old, "", 1). */
  function RemoveFirst(s: string, sub: string): string {
    var i := IndexFrom(s, sub, 0);
    if i == -1 then s else s[..i] + s[i + |sub|..]
  }

  // ----- substrings of joined strings -----

  lemma {:induction false} ElementOccurs(elements: seq<string>, i: nat, sep: char)
    requires i < |elements|
    ensures Contains(Join(elements, sep), elements[i])
  {
    var s := Join(elements, sep);
    if |elements| == 1 {
      assert OccursAt(s, elements[i], 0);
    } else if i == 0 {
      assert s[..|elements[0]|] == elements[0];
      assert OccursAt(s, elements[0], 0);
    } else {
      ElementOccurs(elements[1..], i - 1, sep);
      var rest := Join(elements[1..], sep);
      var j :| 0 <= j <= |rest| && OccursAt(rest, elements[i], j);
      var k := |elements[0]| + 1 + j;
      assert s[k..k + |elements[i]|] == rest[j..j + |elements[i]|];
      assert OccursAt(s, elements[i], k);
    }
  }

  /** Text without separators occurs in a joined string only inside one of the pieces. */
  lemma {:induction false} OccursInsideOne(parts: seq<string>, sub: string, sep: char)
    requires parts != [] && sub != "" && sep !in sub && Contains(Join(parts, sep), sub)
    ensures exists i :: 0 <= i < |parts| && Contains(parts[i], sub)
  {
    var s := Join(parts, sep);
    var k :| 0 <= k <= |s| && OccursAt(s, sub, k);
    if |parts| == 1 {
      assert Contains(parts[0], sub);
    } else {
      var head, rest := parts[0], Join(parts[1..], sep);
      if k + |sub| <= |head| {
        assert head[k..k + |sub|] == s[k..k + |sub|];
        assert OccursAt(head, sub, k);
      } else if k > |head| {
        assert rest[k - |head| - 1..k - |head| - 1 + |sub|] == s[k..k + |sub|];
        assert OccursAt(rest, sub, k - |head| - 1);
        OccursInsideOne(parts[1..], sub, sep);
        var i :| 0 <= i < |parts[1..]| && Contains(parts[1..][i], sub);
        assert Contains(parts[i + 1], sub);
      } else {
        NoStraddle(s, sub, k, |head|, sep);
      }
    }
  }

  lemma NoStraddle(s: string, sub: string, k: nat, p: nat, sep: char)
    requires OccursAt(s, sub, k) && p < |s| && s[p] == sep && sep !in sub
    ensures !(k <= p < k + |sub|)
  {
    assert forall q :: k <= q < k + |sub| ==> s[q] == sub[q - k];
  }

  // ----- the byte-wise order of strings.Compare and sort.Strings -----

  predicate LessEq(a: string, b: string) {
    if a == "" then true
    else if b == "" then false
    else if a[0] == b[0] then LessEq(a[1..], b[1..])
    else a[0] < b[0]
  }

  predicate Less(a: string, b: string) { LessEq(a, b) && a != b }

  lemma {:induction false} OrderTotal(a: string, b: string)
    ensures LessEq(a, b) || LessEq(b, a)
  {
    if a != "" && b != "" && a[0] == b[0] { OrderTotal(a[1..], b[1..]); }
  }

  lemma {:induction false} OrderAntisymmetric(a: string, b: string)
    requires LessEq(a, b) && LessEq(b, a)
    ensures a == b
  {
    if a != "" && b != "" {
      OrderAntisymmetric(a[1..], b[1..]);
      assert a == [a[0]] + a[1..] && b == [b[0]] + b[1..];
    }
  }

  lemma {:induction false} OrderTransitive(a: string, b: string, c: string)
    requires LessEq(a, b) && LessEq(b, c)
    ensures LessEq(a, c)
  {
    if a != "" && b != "" && c != "" && a[0] == b[0] == c[0] { OrderTransitive(a[1..], b[1..], c[1..]); }
  }

  // ----- decimal numerals -----

  const MAX_INT64: int := 0x7fff_ffff_ffff_ffff

  predicate IsDigit(c: char) { '0' <= c <= '9' }

  predicate AllDigits(s: string) { forall i :: 0 <= i < |s| ==> IsDigit(s[i]) }

  function DigitValue(c: char): (d: nat)
    requires IsDigit(c)
    ensures d < 10
  { c as int - '0' as int }

  function DigitChar(d: nat): (c: char)
    requires d < 10
    ensures IsDigit(c) && DigitValue(c) == d
  { ('0' as int + d) as char }

  /** The number a digit string denotes. */
  function Value(s: string): nat
    requires AllDigits(s)
  {
    if s == "" then 0 else Value(s[..|s| - 1]) * 10 + DigitValue(s[|s| - 1])
  }

  /** strconv.Itoa and fmt.Sprint on a number that is not negative. */
  function Decimal(n: nat): (s: string)
    ensures s != "" && AllDigits(s)
  {
    if n < 10 then [DigitChar(n)] else Decimal(n / 10) + [DigitChar(n % 10)]
  }

  lemma {:induction false} ValueOfDecimal(n: nat)
    ensures Value(Decimal(n)) == n
  {
    if n >= 10 {
      ValueOfDecimal(n / 10);
      var s := Decimal(n);
      assert s[..|s| - 1] == Decimal(n / 10);
    } else {
      var s := Decimal(n);
      assert s[..|s| - 1] == "";
    }
  }

  lemma DecimalInjective(a: nat, b: nat)
    requires Decimal(a) == Decimal(b)
    ensures a == b
  {
    ValueOfDecimal(a);
    ValueOfDecimal(b);
  }

  lemma {:induction false} DecimalLength(a: nat, b: nat)
    requires a <= b
    ensures |Decimal(a)| <= |Decimal(b)|
  {
    if a >= 10 { DecimalLength(a / 10, b / 10); }
  }

  /** strconv.FormatInt(i, 10). */
  function FormatInt(i: int): string {
    if i < 0 then "-" + Decimal(-i) else Decimal(i)
  }

  /** The number before range checks: an optional sign and at least one digit. */
  function Numeral(s: string): Option<int> {
    var signed := s != "" && (s[0] == '+' || s[0] == '-');
    var digits := if signed then s[1..] else s;
    if digits == "" || !AllDigits(digits) then None
    else if signed && s[0] == '-' then Some(-(Value(digits) as int))
    else Some(Value(digits) as int)
  }

  /** strconv.Atoi: fails on malformed and on out-of-range input. */
  function Atoi(s: string): Option<int> {
    match Numeral(s)
    case None => None
    case Some(v) => if -MAX_INT64 - 1 <= v <= MAX_INT64 then Some(v) else None
  }

  /** The value strconv.ParseInt(s, 10, 64) returns when its error is ignored. */
  function ParseInt(s: string): int {
    match Numeral(s)
    case None => 0
    case Some(v) => if v > MAX_INT64 then MAX_INT64 else if v < -MAX_INT64 - 1 then -MAX_INT64 - 1 else v
  }

  lemma NumeralOfDecimal(n: nat)
    ensures Numeral(Decimal(n)) == Some(n)
    ensures n <= MAX_INT64 ==> Atoi(Decimal(n)) == Some(n) && ParseInt(Decimal(n)) == n
  {
    ValueOfDecimal(n);
    assert IsDigit(Decimal(n)[0]);
  }

  lemma DecimalHasNo(n: nat, c: char)
    requires !IsDigit(c)
    ensures c !in Decimal(n)
  {
  }
}
