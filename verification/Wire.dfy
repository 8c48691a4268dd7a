/** The line protocol between the controllers and the pod injector (utils/socket/pod_injector.go) and the attribute
    encoding carried in its payloads (utils/utils.go). */
module Wire {
  import opened Text

  // ----- messages -----

  datatype Message = Message(podName: string, podNamespace: string, scriptName: string, action: string, payload: string)

  const BUILD_MESSAGE_LENGTH := 5

  function Fields(m: Message): seq<string> { [m.podName, m.podNamespace, m.scriptName, m.action, m.payload] }

  /** buildMessage, without the newline that ends it. */
  function Line(m: Message): string {
    m.podName + ":" + m.podNamespace + ":" + m.scriptName + ":" + m.action + ":" + m.payload
  }

  function BuildMessage(m: Message): string { Line(m) + "\n" }

  /** What handleConnection does with the lines of one read: the messages it processes, in order, and whether it keeps
      the connection. */
  function Handled(lines: seq<string>): (seq<Message>, bool) {
    if lines == [] then ([], true)
    else
      var line := TrimSpaces(lines[0]);
      if line == "" then Handled(lines[1..])
      else
        var fields := Split(line, ':');
        if |fields| != BUILD_MESSAGE_LENGTH then ([], false)
        else
          var (messages, open) := Handled(lines[1..]);
          ([Message(fields[0], fields[1], fields[2], fields[3], fields[4])] + messages, open)
  }

  /** One iteration of handleConnection's read loop. */
  method HandleRead(data: string) returns (messages: seq<Message>, open: bool)
    ensures (messages, open) == Handled(Split(data, '\n'))
  {
    var lines := Split(data, '\n');
    messages := [];
    assert lines[0..] == lines;
    for i := 0 to |lines|
      invariant Handled(lines).0 == messages + Handled(lines[i..]).0
      invariant Handled(lines).1 == Handled(lines[i..]).1
    {
      assert lines[i..][0] == lines[i] && lines[i..][1..] == lines[i + 1..];
      var line := TrimSpaces(lines[i]);
      if |line| != 0 {
        var fields := Split(line, ':');
        if |fields| != BUILD_MESSAGE_LENGTH {
          assert Handled(lines[i..]) == ([], false);
          assert messages + [] == messages;
          return messages, false;
        }
        var m := Message(fields[0], fields[1], fields[2], fields[3], fields[4]);
        assert messages + ([m] + Handled(lines[i + 1..]).0) == (messages + [m]) + Handled(lines[i + 1..]).0;
        messages := messages + [m];
      }
    }
    assert lines[|lines|..] == [] && messages + [] == messages;
    open := true;
  }

  /** Separators occur in no field, and no space begins the line or ends it. */
  predicate Clean(m: Message) {
    && (forall i :: 0 <= i < 5 ==> ':' !in Fields(m)[i] && '\n' !in Fields(m)[i])
    && (m.podName == "" || m.podName[0] != ' ')
    && (m.payload == "" || m.payload[|m.payload| - 1] != ' ')
  }

  /** The bytes of several messages sent one after another. */
  function Sent(ms: seq<Message>): string {
    if ms == [] then "" else BuildMessage(ms[0]) + Sent(ms[1..])
  }

  lemma LineIsJoin(m: Message)
    ensures Line(m) == Join(Fields(m), ':')
  {
    var f := Fields(m);
    assert f[1..][1..][1..][1..] == [m.payload];
    assert Join(f[1..][1..][1..], ':') == m.action + ":" + m.payload;
    assert Join(f[1..][1..], ':') == m.scriptName + ":" + (m.action + ":" + m.payload);
    assert Join(f[1..], ':') == m.podNamespace + ":" + (m.scriptName + ":" + (m.action + ":" + m.payload));
  }

  lemma LineSplits(m: Message)
    requires Clean(m)
    ensures Split(Line(m), ':') == Fields(m)
  {
    LineIsJoin(m);
    SplitJoin(Fields(m), ':');
  }

  lemma LineStands(m: Message)
    requires Clean(m)
    ensures TrimSpaces(Line(m)) == Line(m) != "" && '\n' !in Line(m)
  {
    var s := Line(m);
    assert s[0] == if m.podName == "" then ':' else m.podName[0];
    assert s[|s| - 1] == if m.payload == "" then ':' else m.payload[|m.payload| - 1];
    forall i | 0 <= i < 5 ensures '\n' !in Fields(m)[i] {}
    assert '\n' !in m.podName && '\n' !in m.podNamespace && '\n' !in m.scriptName && '\n' !in m.action && '\n' !in m.payload by {
      assert Fields(m)[0] == m.podName && Fields(m)[1] == m.podNamespace && Fields(m)[2] == m.scriptName
          && Fields(m)[3] == m.action && Fields(m)[4] == m.payload;
    }
  }

  /** Clean messages delivered in one read are processed as exactly those messages, in order. */
  lemma {:induction false} SentIsHandled(ms: seq<Message>)
    requires forall i :: 0 <= i < |ms| ==> Clean(ms[i])
    ensures Handled(Split(Sent(ms), '\n')) == (ms, true)
  {
    if ms == [] {
      assert Split(Sent(ms), '\n') == [""];
      assert [""][1..] == [];
    } else {
      var m, rest := ms[0], Sent(ms[1..]);
      LineStands(m);
      assert BuildMessage(m) + rest == Line(m) + ['\n'] + rest;
      SplitHead(Line(m), '\n', rest);
      SentIsHandled(ms[1..]);
      assert [m] + ms[1..] == ms;
      HandledFirst(m, Split(rest, '\n'));
    }
  }

  lemma HandledFirst(m: Message, lines: seq<string>)
    requires Clean(m)
    ensures var (messages, open) := Handled(lines); Handled([Line(m)] + lines) == ([m] + messages, open)
  {
    LineStands(m);
    LineSplits(m);
    assert ([Line(m)] + lines)[1..] == lines;
    assert Fields(m)[0] == m.podName && Fields(m)[1] == m.podNamespace && Fields(m)[2] == m.scriptName
        && Fields(m)[3] == m.action && Fields(m)[4] == m.payload;
  }

  /** Trimming leaves no space at either end, and adds nothing. */
  lemma {:induction false} Trimmed(s: string)
    ensures var t := TrimSpaces(s);
            && (t == "" || (t[0] != ' ' && t[|t| - 1] != ' ')) && forall c :: c in t ==> c in s
    decreases |s|
  {
    if s != "" && s[0] == ' ' {
      Trimmed(s[1..]);
    } else if s != "" && s[|s| - 1] == ' ' {
      Trimmed(s[..|s| - 1]);
    }
  }

  /** The first piece starts where the text starts, and the last one ends where it ends. */
  lemma {:induction false} PieceEnds(s: string, sep: char)
    ensures var p := Split(s, sep);
            && (p[0] != "" ==> s != "" && s[0] == p[0][0])
            && (p[|p| - 1] != "" ==> s != "" && s[|s| - 1] == p[|p| - 1][|p[|p| - 1]| - 1])
  {
    if s != "" {
      PieceEnds(s[1..], sep);
      var rest, p := Split(s[1..], sep), Split(s, sep);
      if |s| == 1 {
        assert rest == [""];
      } else if s[0] == sep || |rest| > 1 {
        assert p[|p| - 1] == rest[|rest| - 1];
      }
    }
  }

  /** Whatever is processed is clean, whatever was sent. */
  lemma {:induction false} HandledIsClean(lines: seq<string>, k: nat)
    requires AllFree(lines, '\n') && k < |Handled(lines).0|
    ensures Clean(Handled(lines).0[k])
  {
    var line := TrimSpaces(lines[0]);
    if line == "" {
      HandledIsClean(lines[1..], k);
    } else if k > 0 {
      HandledIsClean(lines[1..], k - 1);
    } else {
      LineIsClean(lines[0]);
    }
  }

  lemma LineIsClean(raw: string)
    requires '\n' !in raw && |Split(TrimSpaces(raw), ':')| == 5
    ensures var f := Split(TrimSpaces(raw), ':'); Clean(Message(f[0], f[1], f[2], f[3], f[4]))
  {
    var line := TrimSpaces(raw);
    Trimmed(raw);
    var f := Split(line, ':');
    var m := Message(f[0], f[1], f[2], f[3], f[4]);
    assert Fields(m) == f;
    SplitFree(line, ':');
    PieceEnds(line, ':');
    forall i | 0 <= i < 5 ensures '\n' !in f[i] {
      if '\n' in f[i] { PiecesComeFrom(line, ':', i, '\n'); }
    }
  }

  /** A message sent alone is processed as itself exactly when it is clean. */
  lemma DeliveredExactly(m: Message)
    ensures Handled(Split(BuildMessage(m), '\n')) == ([m], true) <==> Clean(m)
  {
    if Clean(m) {
      SentIsHandled([m]);
      assert Sent([m]) == BuildMessage(m);
    }
    var lines := Split(BuildMessage(m), '\n');
    SplitFree(BuildMessage(m), '\n');
    if Handled(lines) == ([m], true) {
      HandledIsClean(lines, 0);
    }
  }

  // ----- attributes -----

  datatype Attributes = Attributes(timespan: int, interval: int, uid: string, name: string)

  /** EncodeLinperfAttr. */
  function EncodeLinperfAttr(a: Attributes): string {
    "timespan/" + FormatInt(a.timespan) + "|interval/" + FormatInt(a.interval) + "|uid/" + a.uid + "|name/" + a.name
  }

  /** The attributes found in the pieces, later ones winning. */
  function Decoded(pieces: seq<string>): map<string, string> {
    if pieces == [] then map[]
    else
      var before := Decoded(pieces[..|pieces| - 1]);
      var pair := Split(pieces[|pieces| - 1], '/');
      if |pair| != 2 then before else before[pair[0] := pair[1]]
  }

  /** DecodeLinperfAttr. */
  method DecodeLinperfAttr(encoded: string) returns (attributes: map<string, string>)
    ensures attributes == Decoded(Split(TrimSpaces(encoded), '|'))
  {
    var pieces := Split(TrimSpaces(encoded), '|');
    attributes := map[];
    for i := 0 to |pieces|
      invariant attributes == Decoded(pieces[..i])
    {
      assert pieces[..i + 1][..i] == pieces[..i];
      var pair := Split(pieces[i], '/');
      if |pair| == 2 {
        attributes := attributes[pair[0] := pair[1]];
      }
    }
    assert pieces[..|pieces|] == pieces;
  }

  function AsMap(a: Attributes): map<string, string> {
    map["timespan" := FormatInt(a.timespan), "interval" := FormatInt(a.interval), "uid" := a.uid, "name" := a.name]
  }

  predicate CleanText(s: string) { '|' !in s && '/' !in s }

  /** strings.TrimRight(s, " "). */
  function TrimEnd(s: string): (t: string)
    ensures t == "" || t[|t| - 1] != ' '
    ensures t == s <==> s == "" || s[|s| - 1] != ' '
    ensures forall c :: c in t ==> c in s
  {
    if s != "" && s[|s| - 1] == ' ' then TrimEnd(s[..|s| - 1]) else s
  }

  lemma {:induction false} TrimTail(head: string, s: string)
    requires head != "" && head[0] != ' ' && head[|head| - 1] != ' '
    ensures TrimSpaces(head + s) == head + TrimEnd(s)
    decreases |s|
  {
    if s != "" && s[|s| - 1] == ' ' {
      assert (head + s)[..|head + s| - 1] == head + s[..|s| - 1];
      TrimTail(head, s[..|s| - 1]);
    }
  }

  lemma FormatIntIsClean(n: int)
    ensures CleanText(FormatInt(n))
  {
    var d := if n < 0 then -n else n;
    DecimalHasNo(d, '|');
    DecimalHasNo(d, '/');
  }

  lemma PairSplits(key: string, value: string)
    requires CleanText(key) && CleanText(value)
    ensures Split(key + "/" + value, '/') == [key, value] && '|' !in key + "/" + value
  {
    SplitHead(key, '/', value);
    SplitSingle(value, '/');
  }

  lemma PiecesOf(a: string, b: string, c: string, d: string)
    requires '|' !in a && '|' !in b && '|' !in c && '|' !in d
    ensures Split(a + "|" + b + "|" + c + "|" + d, '|') == [a, b, c, d]
  {
    SplitHead(c, '|', d);
    SplitSingle(d, '|');
    SplitHead(b, '|', c + "|" + d);
    SplitHead(a, '|', b + "|" + (c + "|" + d));
    Regroup(a, b, c, d);
  }

  lemma Regroup(a: string, b: string, c: string, d: string)
    ensures a + "|" + b + "|" + c + "|" + d == a + ['|'] + (b + "|" + (c + "|" + d))
  {
    Shift(a + "|", b + "|", c + "|" + d);
    Shift(a + "|" + b + "|", c + "|", d);
    Shift(a + "|" + b, "|", c + "|" + d);
    Shift(a + "|", b, "|");
  }

  lemma Shift(x: string, y: string, z: string)
    ensures (x + y) + z == x + (y + z)
  {
  }

  /** One more clean pair is one more entry. */
  lemma DecodedPut(pieces: seq<string>, key: string, value: string)
    requires CleanText(key) && CleanText(value)
    ensures Decoded(pieces + [key + "/" + value]) == Decoded(pieces)[key := value]
  {
    PairSplits(key, value);
    assert (pieces + [key + "/" + value])[..|pieces|] == pieces;
  }

  lemma DecodedFour(t: string, i: string, u: string, n: string)
    requires CleanText(t) && CleanText(i) && CleanText(u) && CleanText(n)
    ensures Decoded(["timespan" + "/" + t, "interval" + "/" + i, "uid" + "/" + u, "name" + "/" + n])
         == map["timespan" := t, "interval" := i, "uid" := u, "name" := n]
  {
    var t', i', u', n' := "timespan" + "/" + t, "interval" + "/" + i, "uid" + "/" + u, "name" + "/" + n;
    DecodedPut([], "timespan", t);
    DecodedPut([t'], "interval", i);
    DecodedPut([t', i'], "uid", u);
    DecodedPut([t', i', u'], "name", n);
    assert [] + [t'] == [t'] && [t'] + [i'] == [t', i'] && [t', i'] + [u'] == [t', i', u'] && [t', i', u'] + [n'] == [t', i', u', n'];
  }

  function Pairs(t: string, i: string, u: string, n: string): string {
    "timespan" + "/" + t + "|" + ("interval" + "/" + i) + "|" + ("uid" + "/" + u) + "|" + ("name" + "/" + n)
  }

  lemma PairsDecode(t: string, i: string, u: string, n: string)
    requires CleanText(t) && CleanText(i) && CleanText(u) && CleanText(n)
    ensures Decoded(Split(Pairs(t, i, u, n), '|')) == map["timespan" := t, "interval" := i, "uid" := u, "name" := n]
  {
    PairSplits("timespan", t);
    PairSplits("interval", i);
    PairSplits("uid", u);
    PairSplits("name", n);
    PiecesOf("timespan" + "/" + t, "interval" + "/" + i, "uid" + "/" + u, "name" + "/" + n);
    DecodedFour(t, i, u, n);
  }

  lemma PairsTrim(t: string, i: string, u: string, n: string)
    ensures TrimSpaces(Pairs(t, i, u, n)) == Pairs(t, i, u, TrimEnd(n))
  {
    var head := Pairs(t, i, u, "");
    assert Pairs(t, i, u, n) == head + n && Pairs(t, i, u, TrimEnd(n)) == head + TrimEnd(n);
    assert head[0] == 't' && head[|head| - 1] == '/';
    TrimTail(head, n);
  }

  lemma CleanDecodes(a: Attributes)
    requires CleanText(a.uid) && CleanText(a.name)
    ensures Decoded(Split(TrimSpaces(EncodeLinperfAttr(a)), '|')) == AsMap(a.(name := TrimEnd(a.name)))
  {
    FormatIntIsClean(a.timespan);
    FormatIntIsClean(a.interval);
    assert EncodeLinperfAttr(a) == Pairs(FormatInt(a.timespan), FormatInt(a.interval), a.uid, a.name);
    PairsTrim(FormatInt(a.timespan), FormatInt(a.interval), a.uid, a.name);
    PairsDecode(FormatInt(a.timespan), FormatInt(a.interval), a.uid, TrimEnd(a.name));
  }

  lemma {:induction false} DecodedValuesAreClean(pieces: seq<string>, key: string)
    requires AllFree(pieces, '|') && key in Decoded(pieces)
    ensures CleanText(Decoded(pieces)[key])
  {
    var n := |pieces| - 1;
    var pair := Split(pieces[n], '/');
    if |pair| == 2 && key == pair[0] {
      SplitFree(pieces[n], '/');
      if '|' in pair[1] { PiecesComeFrom(pieces[n], '/', 1, '|'); }
    } else {
      DecodedValuesAreClean(pieces[..n], key);
    }
  }

  /** Decoding gives back the encoded values exactly when uid and name hold no '|' and no '/' and the name does not end
      in a space. */
  lemma AttributesRoundTrip(a: Attributes)
    ensures Decoded(Split(TrimSpaces(EncodeLinperfAttr(a)), '|')) == AsMap(a)
            <==> CleanText(a.uid) && CleanText(a.name) && (a.name == "" || a.name[|a.name| - 1] != ' ')
  {
    var pieces := Split(TrimSpaces(EncodeLinperfAttr(a)), '|');
    if Decoded(pieces) == AsMap(a) {
      SplitFree(TrimSpaces(EncodeLinperfAttr(a)), '|');
      DecodedValuesAreClean(pieces, "uid");
      DecodedValuesAreClean(pieces, "name");
      assert AsMap(a)["uid"] == a.uid && AsMap(a)["name"] == a.name;
    }
    if CleanText(a.uid) && CleanText(a.name) {
      CleanDecodes(a);
      assert AsMap(a.(name := TrimEnd(a.name)))["name"] == TrimEnd(a.name);
    }
  }

  // ----- worker keys -----

  /** The key of a pod, a namespace and the decoded uid ("" when the payload has none). */
  function PodKey(podName: string, podNamespace: string, uid: string): string {
    podNamespace + ":" + podName + ":" + uid
  }

  /** Messages with different pods, namespaces or uids have different keys, since processed fields hold no colon. */
  lemma KeysDiffer(p: string, n: string, u: string, p': string, n': string, u': string)
    requires ':' !in p && ':' !in n && ':' !in p' && ':' !in n'
    ensures PodKey(p, n, u) == PodKey(p', n', u') <==> p == p' && n == n' && u == u'
  {
    assert PodKey(p, n, u) == n + [':'] + (p + [':'] + u);
    assert PodKey(p', n', u') == n' + [':'] + (p' + [':'] + u');
    if PodKey(p, n, u) == PodKey(p', n', u') {
      HeadsAgree(n, p + [':'] + u, n', p' + [':'] + u', ':');
      HeadsAgree(p, u, p', u', ':');
    }
  }

  // ----- malformed lines -----

  /** A line without text, or one of five fields. */
  predicate Accepts(line: string) { TrimSpaces(line) == "" || |Split(TrimSpaces(line), ':')| == BUILD_MESSAGE_LENGTH }

  function Texts(lines: seq<string>): nat {
    if lines == [] then 0 else (if TrimSpaces(lines[0]) == "" then 0 else 1) + Texts(lines[1..])
  }

  /** Lines that are all well formed are all processed, one message for each with text, and the connection stays. */
  lemma {:induction false} AllHandled(lines: seq<string>)
    requires forall i :: 0 <= i < |lines| ==> Accepts(lines[i])
    ensures Handled(lines).1 && |Handled(lines).0| == Texts(lines)
  {
    if lines != [] { AllHandled(lines[1..]); }
  }

  /** The first malformed line ends the connection: what stands before it is processed, and nothing after it. */
  lemma {:induction false} StopsAtMalformed(lines: seq<string>, k: nat)
    requires k < |lines| && !Accepts(lines[k]) && forall i :: 0 <= i < k ==> Accepts(lines[i])
    ensures Handled(lines) == (Handled(lines[..k]).0, false)
  {
    if k > 0 {
      assert lines[..k][1..] == lines[1..][..k - 1];
      StopsAtMalformed(lines[1..], k - 1);
    }
  }
}
