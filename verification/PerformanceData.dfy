/** The performance-data controller (internal/controller/openlibertyperformancedata_controller.go): the status
    transitions of one custom resource, with one injector pool behind them. */
module PerformanceData {
  import opened Text
  import I = Injector

  datatype Kind = Started | Completed | Failed

  /** A status condition; its message and times are left out. */
  datatype Condition = Condition(kind: Kind, status: bool, reason: string)

  // ----- conditions -----

  function Get(cs: seq<Condition>, kind: Kind): (c: Option<Condition>)
    ensures c.Some? ==> c.value in cs && c.value.kind == kind
    ensures c.None? ==> forall i :: 0 <= i < |cs| ==> cs[i].kind != kind
  {
    if cs == [] then None
    else if cs[0].kind == kind then Some(cs[0])
    else Get(cs[1..], kind)
  }

  /** SetCondition: updates the first condition of the kind, or appends. */
  function Put(cs: seq<Condition>, c: Condition): seq<Condition> {
    if cs == [] then [c]
    else if cs[0].kind == c.kind then [c] + cs[1..]
    else [cs[0]] + Put(cs[1..], c)
  }

  predicate Distinct(cs: seq<Condition>) {
    forall i, j :: 0 <= i < j < |cs| ==> cs[i].kind != cs[j].kind
  }

  lemma {:induction false} PutGet(cs: seq<Condition>, c: Condition, kind: Kind)
    ensures Get(Put(cs, c), kind) == if kind == c.kind then Some(c) else Get(cs, kind)
  {
    if cs != [] && cs[0].kind != c.kind { PutGet(cs[1..], c, kind); }
  }

  lemma {:induction false} PutDistinct(cs: seq<Condition>, c: Condition)
    requires Distinct(cs)
    ensures Distinct(Put(cs, c)) && forall d :: d in Put(cs, c) ==> d == c || d in cs
  {
    if cs != [] && cs[0].kind != c.kind {
      PutDistinct(cs[1..], c);
      forall i | 0 <= i < |Put(cs[1..], c)| ensures Put(cs[1..], c)[i].kind != cs[0].kind {
        var d := Put(cs[1..], c)[i];
        assert d in Put(cs[1..], c);
      }
    }
  }

  predicate IsTrue(cs: seq<Condition>, kind: Kind) { Get(cs, kind).Some? && Get(cs, kind).value.status }

  predicate InProgress(cs: seq<Condition>) {
    Get(cs, Completed).Some? && !Get(cs, Completed).value.status && Get(cs, Completed).value.reason == "InProgress"
  }

  /** isPerformanceDataRunning on conditions of distinct kinds. */
  predicate Running(cs: seq<Condition>) { IsTrue(cs, Started) && InProgress(cs) && !IsTrue(cs, Failed) }

  // ----- the transitions -----

  datatype Pod = Missing | NotRunning | Up

  /** From the start of a reconcile to the connection: the new conditions, and whether the reconcile goes on. */
  function Begun(cs: seq<Condition>, pod: Pod, connected: bool): (seq<Condition>, bool) {
    if IsTrue(cs, Completed) then (cs, false)
    else
      match pod
      case Missing => (Put(Put(cs, Condition(Started, true, "")), Condition(Completed, false, "Error")), false)
      case NotRunning => (Put(cs, Condition(Started, false, "Error")), false)
      case Up =>
        if connected then (Put(cs, Condition(Started, true, "")), true)
        else (Put(cs, Condition(Started, false, "Error")), false)
  }

  function FailedWith(cs: seq<Condition>, reason: string): seq<Condition> {
    Put(Put(cs, Condition(Completed, false, "")), Condition(Failed, true, reason))
  }

  datatype Outcome = Failing | Waiting(sent: bool)

  /** After a status other than "done": the new conditions, and whether a start was sent. */
  function Answered(cs: seq<Condition>, reply: I.Reply): (seq<Condition>, Outcome) {
    if reply.Failure? then (FailedWith(cs, "Error"), Failing)
    else if reply != I.Writing && Running(cs) then (FailedWith(cs, "ConnectionLost"), Failing)
    else (Put(cs, Condition(Completed, false, if reply == I.TooManyWorkers then "TooManyWorkers" else "InProgress")),
          Waiting(reply == I.Idle))
  }

  /** After "done" and the question for the file name. */
  function Finished(cs: seq<Condition>): seq<Condition> { Put(cs, Condition(Completed, true, "")) }

  /** The file name taken from the injector's answer. */
  function FileFrom(reply: I.Reply): string { if reply.FileName? then reply.name else "" }

  lemma PutGets(cs: seq<Condition>, c: Condition)
    ensures forall kind :: Get(Put(cs, c), kind) == if kind == c.kind then Some(c) else Get(cs, kind)
  {
    forall kind ensures Get(Put(cs, c), kind) == if kind == c.kind then Some(c) else Get(cs, kind) { PutGet(cs, c, kind); }
  }

  /** The connection to the injector is taken for lost: a collection shows in progress and the injector is not writing. */
  predicate Lost(cs: seq<Condition>, reply: I.Reply) { !reply.Failure? && reply != I.Writing && Running(cs) }

  /** After an answer other than "done": Failed becomes true exactly on a failure or a lost connection, and says which;
      Completed is false, and says what the collection waits for; Started stays. */
  lemma AnsweredExactly(cs: seq<Condition>, reply: I.Reply)
    ensures var r := Answered(cs, reply).0;
            && Get(r, Failed) == (if reply.Failure? then Some(Condition(Failed, true, "Error"))
                                  else if Lost(cs, reply) then Some(Condition(Failed, true, "ConnectionLost"))
                                  else Get(cs, Failed))
            && Get(r, Completed) == Some(Condition(Completed, false,
                                       if reply.Failure? || Lost(cs, reply) then ""
                                       else if reply == I.TooManyWorkers then "TooManyWorkers" else "InProgress"))
            && Get(r, Started) == Get(cs, Started)
  {
    if reply.Failure? {
      FailedExactly(cs, "Error");
    } else if Lost(cs, reply) {
      FailedExactly(cs, "ConnectionLost");
    } else {
      PutGets(cs, Condition(Completed, false, if reply == I.TooManyWorkers then "TooManyWorkers" else "InProgress"));
    }
  }

  lemma FailedExactly(cs: seq<Condition>, reason: string)
    ensures var r := FailedWith(cs, reason);
            && Get(r, Failed) == Some(Condition(Failed, true, reason)) && Get(r, Completed) == Some(Condition(Completed, false, ""))
            && Get(r, Started) == Get(cs, Started)
  {
    PutGets(cs, Condition(Completed, false, ""));
    PutGets(Put(cs, Condition(Completed, false, "")), Condition(Failed, true, reason));
  }

  /** At the start of a reconcile that is not complete yet: a missing pod ends the collection with an error, a pod that does
      not run or cannot be reached leaves it not started, and otherwise it is started; a failure stays as it is. */
  lemma BegunExactly(cs: seq<Condition>, pod: Pod, connected: bool)
    ensures var (r, goOn) := Begun(cs, pod, connected);
            && (IsTrue(cs, Completed) ==> r == cs && !goOn)
            && (!IsTrue(cs, Completed) ==>
                  && (goOn <==> pod == Up && connected)
                  && Get(r, Started) == Some(if goOn || pod == Missing then Condition(Started, true, "") else Condition(Started, false, "Error"))
                  && Get(r, Completed) == (if pod == Missing then Some(Condition(Completed, false, "Error")) else Get(cs, Completed))
                  && Get(r, Failed) == Get(cs, Failed))
  {
    PutGets(cs, Condition(Started, true, ""));
    PutGets(cs, Condition(Started, false, "Error"));
    PutGets(Put(cs, Condition(Started, true, "")), Condition(Completed, false, "Error"));
  }

  /** At the end of a reconcile that was told "done" Completed is true and nothing else changes. */
  lemma FinishedExactly(cs: seq<Condition>)
    ensures Get(Finished(cs), Completed) == Some(Condition(Completed, true, ""))
    ensures Get(Finished(cs), Started) == Get(cs, Started) && Get(Finished(cs), Failed) == Get(cs, Failed)
  {
    PutGets(cs, Condition(Completed, true, ""));
  }

  /** No transition duplicates a condition, so the scan of isPerformanceDataRunning sees one condition of each kind. */
  lemma TransitionsKeepDistinct(cs: seq<Condition>, pod: Pod, connected: bool, reply: I.Reply)
    requires Distinct(cs)
    ensures Distinct(Begun(cs, pod, connected).0) && Distinct(Answered(cs, reply).0) && Distinct(Finished(cs))
  {
    var started := Condition(Started, true, "");
    PutDistinct(cs, started);
    PutDistinct(cs, Condition(Started, false, "Error"));
    PutDistinct(cs, Condition(Completed, true, ""));
    PutDistinct(Put(cs, started), Condition(Completed, false, "Error"));
    AnsweredDistinct(cs, reply);
  }

  lemma AnsweredDistinct(cs: seq<Condition>, reply: I.Reply)
    requires Distinct(cs)
    ensures Distinct(Answered(cs, reply).0)
  {
    var incomplete := Condition(Completed, false, "");
    PutDistinct(cs, incomplete);
    PutDistinct(Put(cs, incomplete), Condition(Failed, true, "Error"));
    PutDistinct(Put(cs, incomplete), Condition(Failed, true, "ConnectionLost"));
    PutDistinct(cs, Condition(Completed, false, "TooManyWorkers"));
    PutDistinct(cs, Condition(Completed, false, "InProgress"));
  }

  /** The status of one custom resource, changed in place by a reconcile. */
  class Instance {
    var conditions: seq<Condition>
    var performanceDataFile: string

    constructor ()
      ensures conditions == [] && performanceDataFile == ""
    {
      conditions, performanceDataFile := [], "";
    }

    method SetCondition(c: Condition)
      modifies this`conditions
      ensures conditions == Put(old(conditions), c)
    {
      var i := 0;
      assert conditions[..0] + Put(conditions[0..], c) == Put(conditions, c);
      while i < |conditions| && conditions[i].kind != c.kind
        invariant 0 <= i <= |conditions| && conditions == old(conditions)
        invariant Put(conditions, c) == conditions[..i] + Put(conditions[i..], c)
      {
        PutStep(conditions, c, i);
        i := i + 1;
      }
      if i < |conditions| {
        assert conditions[i..][0] == conditions[i] && conditions[i..][1..] == conditions[i + 1..];
        conditions := conditions[i := c];
      } else {
        assert conditions[i..] == [];
        conditions := conditions + [c];
      }
    }

    /** isPerformanceDataRunning. */
    method IsPerformanceDataRunning() returns (running: bool)
      requires Distinct(conditions)
      ensures running == Running(conditions)
    {
      var isStarted, isWorking, isFailed := false, false, false;
      for i := 0 to |conditions|
        invariant isStarted == IsTrue(conditions[..i], Started)
        invariant isWorking == InProgress(conditions[..i])
        invariant isFailed == IsTrue(conditions[..i], Failed)
      {
        var c := conditions[i];
        NextCondition(conditions, i, Started);
        NextCondition(conditions, i, Completed);
        NextCondition(conditions, i, Failed);
        if c.kind == Started && c.status { isStarted := true; }
        if c.kind == Completed && !c.status && c.reason == "InProgress" { isWorking := true; }
        if c.kind == Failed && c.status { isFailed := true; }
      }
      assert conditions[..|conditions|] == conditions;
      running := isStarted && isWorking && !isFailed;
    }

    /** The first part of a reconcile, with what it found out about the pod and the injector. */
    method Begin(pod: Pod, connected: bool) returns (goOn: bool)
      modifies this`conditions
      ensures (conditions, goOn) == Begun(old(conditions), pod, connected)
    {
      var completed := Get(conditions, Completed);
      if completed.Some? && completed.value.status { return false; }
      match pod
      case Missing =>
        SetCondition(Condition(Started, true, ""));
        SetCondition(Condition(Completed, false, "Error"));
        goOn := false;
      case NotRunning =>
        SetCondition(Condition(Started, false, "Error"));
        goOn := false;
      case Up =>
        if !connected {
          SetCondition(Condition(Started, false, "Error"));
          return false;
        }
        SetCondition(Condition(Started, true, ""));
        goOn := true;
    }

    /** What a reconcile does after a status other than "done". */
    method OnStatus(reply: I.Reply) returns (outcome: Outcome)
      requires Distinct(conditions)
      modifies this`conditions
      ensures (conditions, outcome) == Answered(old(conditions), reply)
    {
      if reply.Failure? {
        SetCondition(Condition(Completed, false, ""));
        SetCondition(Condition(Failed, true, "Error"));
        return Failing;
      }
      var running := IsPerformanceDataRunning();
      if reply != I.Writing && running {
        SetCondition(Condition(Completed, false, ""));
        SetCondition(Condition(Failed, true, "ConnectionLost"));
        return Failing;
      }
      var sent := reply == I.Idle;
      var reason := "InProgress";
      if reply == I.TooManyWorkers { reason := "TooManyWorkers"; }
      SetCondition(Condition(Completed, false, reason));
      outcome := Waiting(sent);
    }

    method OnDone(fileName: I.Reply)
      modifies this
      ensures conditions == Finished(old(conditions)) && performanceDataFile == FileFrom(fileName)
    {
      performanceDataFile := "";
      if fileName.FileName? { performanceDataFile := fileName.name; }
      SetCondition(Condition(Completed, true, ""));
    }
  }

  lemma PutStep(cs: seq<Condition>, c: Condition, i: nat)
    requires i < |cs| && cs[i].kind != c.kind && Put(cs, c) == cs[..i] + Put(cs[i..], c)
    ensures Put(cs, c) == cs[..i + 1] + Put(cs[i + 1..], c)
  {
    assert cs[i..][0] == cs[i] && cs[i..][1..] == cs[i + 1..];
    assert cs[..i] + ([cs[i]] + Put(cs[i + 1..], c)) == cs[..i + 1] + Put(cs[i + 1..], c);
  }

  lemma {:induction false} GetSnoc(cs: seq<Condition>, c: Condition, kind: Kind)
    ensures Get(cs + [c], kind) == if Get(cs, kind).Some? then Get(cs, kind) else if c.kind == kind then Some(c) else None
  {
    if cs == [] {
      assert cs + [c] == [c];
    } else {
      assert (cs + [c])[1..] == cs[1..] + [c];
      GetSnoc(cs[1..], c, kind);
    }
  }

  lemma NextCondition(cs: seq<Condition>, i: nat, kind: Kind)
    requires Distinct(cs) && i < |cs|
    ensures Get(cs[..i + 1], kind) == if cs[i].kind == kind then Some(cs[i]) else Get(cs[..i], kind)
  {
    GetSnoc(cs[..i], cs[i], kind);
    assert cs[..i + 1] == cs[..i] + [cs[i]];
    if Get(cs[..i], kind).Some? {
      var j :| 0 <= j < i && cs[..i][j] == Get(cs[..i], kind).value;
      assert cs[j].kind != cs[i].kind;
    }
  }
}
