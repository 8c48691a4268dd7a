/** Whole runs of the performance-data controller against the injector, with arbitrary injector events between the steps
    of a reconcile. */
module PerformanceDataRuns {
  import opened Text
  import opened PerformanceData
  import I = Injector
  import L = InjectorLaws

  /** Where the reconcile in progress stands; it works on its own copy of the conditions. */
  datatype Phase =
    | Resting
    | Connected(local: seq<Condition>)
    | Polled(local: seq<Condition>, reply: I.Reply)
    | Named(local: seq<Condition>, file: string)

  /** The stored status, the phase, and how many starts were sent and failures stored so far. */
  datatype System = System(pool: I.Pool, stored: seq<Condition>, file: string, phase: Phase, starts: nat, failures: nat)

  /** `saved` says whether the status update of the step succeeded. A start or complete that was sent is delivered as
      some later injector event. */
  datatype Step =
    | Inject(event: I.Event)
    | Begin(pod: Pod, connected: bool, saved: bool)
    | Poll
    | Decide(saved: bool)
    | AskFile
    | Finish(saved: bool)

  const INITIAL: System := System(I.INITIAL, [], "", Resting, 0, 0)

  function AfterBegin(s: System, pod: Pod, connected: bool, saved: bool): System {
    var (cs, goOn) := Begun(s.stored, pod, connected);
    s.(stored := if saved then cs else s.stored,
       phase := if goOn then Connected(cs) else Resting,
       failures := s.failures + if saved && !IsTrue(s.stored, Completed) && pod == Missing then 1 else 0)
  }

  function AfterDecide(s: System, saved: bool): System
    requires s.phase.Polled?
  {
    var (cs, outcome) := Answered(s.phase.local, s.phase.reply);
    s.(stored := if saved then cs else s.stored, phase := Resting,
       starts := s.starts + if outcome == Waiting(true) then 1 else 0,
       failures := s.failures + if saved && outcome == Failing then 1 else 0)
  }

  function AfterFinish(s: System, saved: bool): System
    requires s.phase.Named?
  {
    if saved then s.(stored := Finished(s.phase.local), file := s.phase.file, phase := Resting) else s.(phase := Resting)
  }

  /** A step that does not fit the phase, or that needs the mutex while a start holds it, does nothing. */
  function Next(s: System, step: Step, key: string): System {
    match step
    case Inject(e) => s.(pool := I.After(s.pool, e))
    case Begin(pod, connected, saved) => if s.phase.Resting? then AfterBegin(s, pod, connected, saved) else s
    case Poll =>
      if s.phase.Connected? && s.pool.starting.None?
      then s.(phase := Polled(s.phase.local, I.Answer(s.pool, I.Status(key)))) else s
    case Decide(saved) => if s.phase.Polled? && s.phase.reply != I.Done then AfterDecide(s, saved) else s
    case AskFile =>
      if s.phase.Polled? && s.phase.reply == I.Done && s.pool.starting.None?
      then s.(phase := Named(s.phase.local, FileFrom(I.Answer(s.pool, I.LinperfFileName(key))))) else s
    case Finish(saved) => if s.phase.Named? then AfterFinish(s, saved) else s
  }

  function Run(steps: seq<Step>, key: string): System {
    if steps == [] then INITIAL else Next(Run(steps[..|steps| - 1], key), steps[|steps| - 1], key)
  }

  /** The injector events among the steps. */
  function Injected(steps: seq<Step>): seq<I.Event> {
    if steps == [] then []
    else
      var last := steps[|steps| - 1];
      Injected(steps[..|steps| - 1]) + if last.Inject? then [last.event] else []
  }

  lemma NextPool(s: System, step: Step, key: string)
    ensures Next(s, step, key).pool == if step.Inject? then I.After(s.pool, step.event) else s.pool
  {
  }

  lemma {:induction false} PoolIsRun(steps: seq<Step>, key: string)
    ensures Run(steps, key).pool == L.Run(Injected(steps))
  {
    if steps != [] {
      var n := |steps| - 1;
      PoolIsRun(steps[..n], key);
      NextPool(Run(steps[..n], key), steps[n], key);
      var before := Injected(steps[..n]);
      if steps[n].Inject? {
        assert (before + [steps[n].event])[..|before|] == before;
      } else {
        assert before + [] == before;
      }
    }
  }

  // ----- completion -----

  /** At some moment of the run the controller polled the injector when a successful completion callback for the key was
      later than every start and complete the injector had accepted for it. */
  ghost predicate SawCompletion(steps: seq<Step>, key: string) {
    exists n :: 0 <= n < |steps| && CompletionAt(steps, n, key)
  }

  ghost predicate CompletionAt(steps: seq<Step>, n: nat, key: string)
    requires n < |steps|
  {
    steps[n] == Poll && L.CompletedSince(Injected(steps[..n]), key)
  }

  lemma SawGrows(steps: seq<Step>, step: Step, key: string)
    requires SawCompletion(steps, key)
    ensures SawCompletion(steps + [step], key)
  {
    var n :| 0 <= n < |steps| && CompletionAt(steps, n, key);
    assert (steps + [step])[..n] == steps[..n];
    assert CompletionAt(steps + [step], n, key);
  }

  lemma SawNow(steps: seq<Step>, key: string)
    requires L.CompletedSince(Injected(steps), key)
    ensures SawCompletion(steps + [Poll], key)
  {
    assert (steps + [Poll])[..|steps|] == steps;
    assert CompletionAt(steps + [Poll], |steps|, key);
  }

  /** The stored status or the reconcile in progress rests on a completion. */
  predicate Claims(s: System) {
    IsTrue(s.stored, Completed) || s.phase.Named? || (s.phase.Polled? && s.phase.reply == I.Done)
  }

  /** The copy a reconcile works on never says that it is complete, nor does the stored status meanwhile. */
  predicate Unfinished(s: System) {
    !s.phase.Resting? ==> !IsTrue(s.phase.local, Completed) && !IsTrue(s.stored, Completed)
  }

  lemma BegunIncomplete(cs: seq<Condition>, pod: Pod, connected: bool)
    requires !IsTrue(cs, Completed)
    ensures !IsTrue(Begun(cs, pod, connected).0, Completed)
  {
    PutGet(cs, Condition(Started, true, ""), Completed);
    PutGet(cs, Condition(Started, false, "Error"), Completed);
    PutGet(Put(cs, Condition(Started, true, "")), Condition(Completed, false, "Error"), Completed);
  }

  lemma AnsweredIncomplete(cs: seq<Condition>, reply: I.Reply)
    ensures !IsTrue(Answered(cs, reply).0, Completed)
  {
    PutGet(cs, Condition(Completed, false, ""), Completed);
    PutGet(Put(cs, Condition(Completed, false, "")), Condition(Failed, true, "Error"), Completed);
    PutGet(Put(cs, Condition(Completed, false, "")), Condition(Failed, true, "ConnectionLost"), Completed);
    PutGet(cs, Condition(Completed, false, "TooManyWorkers"), Completed);
    PutGet(cs, Condition(Completed, false, "InProgress"), Completed);
  }

  lemma StepFresh(s: System, step: Step, key: string)
    requires Unfinished(s)
    ensures Unfinished(Next(s, step, key))
  {
    if step.Begin? && !IsTrue(s.stored, Completed) { BegunIncomplete(s.stored, step.pod, step.connected); }
  }

  lemma {:induction false} AlwaysFresh(steps: seq<Step>, key: string)
    ensures Unfinished(Run(steps, key))
  {
    if steps != [] {
      AlwaysFresh(steps[..|steps| - 1], key);
      StepFresh(Run(steps[..|steps| - 1], key), steps[|steps| - 1], key);
    }
  }

  /** A step starts to claim a completion only by polling. */
  lemma ClaimsFromPoll(s: System, step: Step, key: string)
    requires Unfinished(s) && Claims(Next(s, step, key)) && !Claims(s)
    ensures step == Poll && I.Answer(s.pool, I.Status(key)) == I.Done
  {
    if step.Begin? { BegunIncomplete(s.stored, step.pod, step.connected); }
    if step.Decide? && s.phase.Polled? { AnsweredIncomplete(s.phase.local, s.phase.reply); }
  }

  /** The status says Completed only after a poll at which a successful completion callback for the resource was later
      than the last start or complete the injector had accepted for it, whatever else happened in between. */
  lemma {:induction false} CompletedAfterCallback(steps: seq<Step>, key: string)
    requires Claims(Run(steps, key))
    ensures SawCompletion(steps, key)
  {
    if steps != [] {
      var n := |steps| - 1;
      var s := Run(steps[..n], key);
      assert steps[..n] + [steps[n]] == steps;
      if Claims(s) {
        CompletedAfterCallback(steps[..n], key);
        SawGrows(steps[..n], steps[n], key);
      } else {
        AlwaysFresh(steps[..n], key);
        ClaimsFromPoll(s, steps[n], key);
        PoolIsRun(steps[..n], key);
        L.DoneExactly(Injected(steps[..n]), key);
        SawNow(steps[..n], key);
      }
    }
  }

  /** Once the status says Completed, no step of any reconcile changes it or sends anything. */
  lemma CompletedIsFinal(steps: seq<Step>, step: Step, key: string)
    requires IsTrue(Run(steps, key).stored, Completed)
    ensures var s, t := Run(steps, key), Next(Run(steps, key), step, key);
            t.stored == s.stored && t.file == s.file && t.starts == s.starts && t.failures == s.failures && t.phase == Resting
  {
    AlwaysFresh(steps, key);
  }

  // ----- starts -----

  predicate AllSaved(steps: seq<Step>) {
    forall i :: 0 <= i < |steps| ==> Saved(steps[i])
  }

  predicate Saved(step: Step) {
    match step
    case Begin(_, _, saved) => saved
    case Decide(saved) => saved
    case Finish(saved) => saved
    case _ => true
  }

  /** With every update stored: a reconcile in progress works on the stored conditions, which say Started; while no
      failure is stored none is reported, and a start that was sent shows. */
  predicate Accounted(s: System) {
    && (!s.phase.Resting? ==> s.phase.local == s.stored && IsTrue(s.stored, Started))
    && (s.failures == 0 ==> !IsTrue(s.stored, Failed) && s.starts <= 1
                            && (s.starts == 1 ==> InProgress(s.stored) || IsTrue(s.stored, Completed)))
  }

  lemma BegunGets(cs: seq<Condition>, pod: Pod, connected: bool)
    requires !IsTrue(cs, Completed)
    ensures var (r, goOn) := Begun(cs, pod, connected);
            && (goOn ==> IsTrue(r, Started)) && Get(r, Failed) == Get(cs, Failed)
            && (pod != Missing ==> Get(r, Completed) == Get(cs, Completed))
  {
    var a, b, c := Condition(Started, true, ""), Condition(Started, false, "Error"), Condition(Completed, false, "Error");
    PutGet(cs, a, Started);
    PutGet(cs, a, Completed);
    PutGet(cs, a, Failed);
    PutGet(cs, b, Completed);
    PutGet(cs, b, Failed);
    PutGet(Put(cs, a), c, Failed);
  }

  lemma BeginAccounted(s: System, pod: Pod, connected: bool)
    requires Accounted(s) && s.phase.Resting?
    ensures Accounted(AfterBegin(s, pod, connected, true))
  {
    if !IsTrue(s.stored, Completed) { BegunGets(s.stored, pod, connected); }
  }

  lemma AnsweredGets(cs: seq<Condition>, reply: I.Reply)
    ensures var (r, outcome) := Answered(cs, reply);
            && (outcome.Waiting? ==> Get(r, Failed) == Get(cs, Failed) && (reply != I.TooManyWorkers ==> InProgress(r)))
            && (outcome == Waiting(true) ==> reply == I.Idle && !Running(cs))
            && (outcome.Waiting? && reply != I.Writing ==> !Running(cs))
  {
    PutGet(cs, Condition(Completed, false, "TooManyWorkers"), Failed);
    PutGet(cs, Condition(Completed, false, "InProgress"), Failed);
    PutGet(cs, Condition(Completed, false, "InProgress"), Completed);
  }

  lemma DecideAccounted(s: System)
    requires Accounted(s) && Unfinished(s) && s.phase.Polled?
    ensures Accounted(AfterDecide(s, true))
  {
    AnsweredGets(s.phase.local, s.phase.reply);
  }

  lemma FinishAccounted(s: System)
    requires Accounted(s) && s.phase.Named?
    ensures Accounted(AfterFinish(s, true))
  {
    PutGet(s.phase.local, Condition(Completed, true, ""), Failed);
    PutGet(s.phase.local, Condition(Completed, true, ""), Completed);
  }

  lemma StepAccounted(s: System, step: Step, key: string)
    requires Accounted(s) && Unfinished(s) && Saved(step)
    ensures Accounted(Next(s, step, key))
  {
    if step.Begin? && s.phase.Resting? { BeginAccounted(s, step.pod, step.connected); }
    if step.Decide? && s.phase.Polled? { DecideAccounted(s); }
    if step.Finish? && s.phase.Named? { FinishAccounted(s); }
  }

  lemma {:induction false} AlwaysAccounted(steps: seq<Step>, key: string)
    requires AllSaved(steps)
    ensures Accounted(Run(steps, key))
  {
    if steps != [] {
      var n := |steps| - 1;
      AlwaysAccounted(steps[..n], key);
      AlwaysFresh(steps[..n], key);
      StepAccounted(Run(steps[..n], key), steps[n], key);
    }
  }

  /** With every status update stored, no second start is sent before a failure was stored. */
  lemma NoSecondStartBeforeFailure(steps: seq<Step>, key: string)
    requires AllSaved(steps) && Run(steps, key).starts >= 2
    ensures Run(steps, key).failures >= 1
  {
    AlwaysAccounted(steps, key);
  }

  /** With every status update stored: a step sends a start exactly when it decides on an answer "idle" while the stored
      status either shows no collection in progress or a failure, which is never cleared. */
  lemma StartIsSentExactly(steps: seq<Step>, step: Step, key: string)
    requires AllSaved(steps)
    ensures var s := Run(steps, key);
            Next(s, step, key).starts == s.starts +
              if step.Decide? && s.phase.Polled? && s.phase.reply == I.Idle && (!InProgress(s.stored) || IsTrue(s.stored, Failed))
              then 1 else 0
  {
    AlwaysAccounted(steps, key);
    var s := Run(steps, key);
    if step.Decide? && s.phase.Polled? { AnsweredGets(s.phase.local, s.phase.reply); }
  }

  /** In every run with all updates stored, a decision counts a failure exactly when the injector answered one or the
      connection was lost; the stored status then says Failed for that reason, and otherwise what it said before. */
  lemma FailureIsStoredExactly(steps: seq<Step>, key: string)
    requires AllSaved(steps) && Run(steps, key).phase.Polled? && Run(steps, key).phase.reply != I.Done
    ensures var s := Run(steps, key); var t := Next(s, Decide(true), key); var reply := s.phase.reply;
            && t.failures == s.failures + (if reply.Failure? || Lost(s.stored, reply) then 1 else 0)
            && Get(t.stored, Failed) == (if reply.Failure? then Some(Condition(Failed, true, "Error"))
                                         else if Lost(s.stored, reply) then Some(Condition(Failed, true, "ConnectionLost"))
                                         else Get(s.stored, Failed))
  {
    AlwaysAccounted(steps, key);
    AnsweredExactly(Run(steps, key).stored, Run(steps, key).phase.reply);
  }

  // ----- where that ends -----

  function Continued(s: System, steps: seq<Step>, key: string): System
    decreases |steps|
  {
    if steps == [] then s else Continued(Next(s, steps[0], key), steps[1..], key)
  }

  lemma {:induction false} RunContinues(steps: seq<Step>, more: seq<Step>, key: string)
    ensures Run(steps + more, key) == Continued(Run(steps, key), more, key)
    decreases |more|
  {
    if more == [] {
      assert steps + more == steps;
    } else {
      var first := steps + [more[0]];
      assert first[..|steps|] == steps;
      assert first + more[1..] == steps + more;
      RunContinues(first, more[1..], key);
    }
  }

  lemma Unroll(s: System, step: Step, rest: seq<Step>, key: string)
    ensures Continued(s, [step] + rest, key) == Continued(Next(s, step, key), rest, key)
  {
    assert ([step] + rest)[1..] == rest;
  }

  /** A whole reconcile of a running pod that gets no "done". */
  function Reconcile(saved: bool): seq<Step> { [Begin(Up, true, true)] + ([Poll] + ([Decide(saved)] + [])) }

  /** The start that was sent arrives, and the copy to the pod fails at once. */
  function FailedStart(key: string): seq<Step> { [Inject(I.Start(key))] + ([Inject(I.Started(false))] + []) }

  /** The controller rests, the injector is idle, and the status does not say Completed. */
  predicate Ready(s: System, key: string) {
    && s.phase == Resting && s.pool.starting.None? && I.Answer(s.pool, I.Status(key)) == I.Idle
    && !IsTrue(s.stored, Completed)
  }

  function StartedIn(cs: seq<Condition>): seq<Condition> { Put(cs, Condition(Started, true, "")) }

  lemma BegunAndPolled(s: System, key: string)
    requires Ready(s, key)
    ensures Next(Next(s, Begin(Up, true, true), key), Poll, key)
         == s.(stored := StartedIn(s.stored), phase := Polled(StartedIn(s.stored), I.Idle))
  {
  }

  lemma ReconcileOnce(s: System, saved: bool, key: string)
    requires Ready(s, key)
    ensures var (cs, outcome) := Answered(StartedIn(s.stored), I.Idle);
            Continued(s, Reconcile(saved), key)
            == s.(stored := if saved then cs else StartedIn(s.stored),
                  starts := s.starts + if outcome == Waiting(true) then 1 else 0,
                  failures := s.failures + if saved && outcome == Failing then 1 else 0)
  {
    var s1 := Next(s, Begin(Up, true, true), key);
    var s2 := Next(s1, Poll, key);
    BegunAndPolled(s, key);
    Unroll(s, Begin(Up, true, true), [Poll] + ([Decide(saved)] + []), key);
    Unroll(s1, Poll, [Decide(saved)] + [], key);
    Unroll(s2, Decide(saved), [], key);
  }

  lemma FailedStartLeavesIdle(s: System, key: string)
    requires Ready(s, key)
    ensures var t := Continued(s, FailedStart(key), key); Ready(t, key) && t == s.(pool := t.pool)
  {
    var s1 := Next(s, Inject(I.Start(key)), key);
    Unroll(s, Inject(I.Start(key)), [Inject(I.Started(false))] + [], key);
    Unroll(s1, Inject(I.Started(false)), [], key);
    assert s1.pool == s.pool.(completed := s.pool.completed[key := false], files := s.pool.files - {key}, starting := Some(key));
  }

  lemma RunningOnceStarted(cs: seq<Condition>)
    ensures Running(StartedIn(cs)) <==> InProgress(cs) && !IsTrue(cs, Failed)
  {
    PutGet(cs, Condition(Started, true, ""), Started);
    PutGet(cs, Condition(Started, true, ""), Completed);
    PutGet(cs, Condition(Started, true, ""), Failed);
  }

  lemma ReconcileSends(s: System, key: string)
    requires Ready(s, key) && (!InProgress(s.stored) || IsTrue(s.stored, Failed))
    ensures var t := Continued(s, Reconcile(true), key);
            && Ready(t, key) && t.starts == s.starts + 1 && t.failures == s.failures
            && InProgress(t.stored) && Get(t.stored, Failed) == Get(s.stored, Failed)
  {
    RunningOnceStarted(s.stored);
    ReconcileOnce(s, true, key);
    AnsweredGets(StartedIn(s.stored), I.Idle);
    AnsweredIncomplete(StartedIn(s.stored), I.Idle);
    PutGet(s.stored, Condition(Started, true, ""), Failed);
  }

  /** With nothing in progress, or after a stored failure, a reconcile of an idle injector sends a start; if that start
      fails the next reconcile finds the injector idle again. */
  lemma RoundSends(s: System, key: string)
    requires Ready(s, key) && (!InProgress(s.stored) || IsTrue(s.stored, Failed))
    ensures var t := Continued(Continued(s, Reconcile(true), key), FailedStart(key), key);
            && Ready(t, key) && t.starts == s.starts + 1 && t.failures == s.failures
            && InProgress(t.stored) && Get(t.stored, Failed) == Get(s.stored, Failed)
  {
    ReconcileSends(s, key);
    FailedStartLeavesIdle(Continued(s, Reconcile(true), key), key);
  }

  /** A collection in progress and an idle injector: the connection is reported as lost. */
  lemma RoundFails(s: System, key: string)
    requires Ready(s, key) && InProgress(s.stored) && !IsTrue(s.stored, Failed)
    ensures var t := Continued(s, Reconcile(true), key);
            Ready(t, key) && t.starts == s.starts && t.failures == s.failures + 1 && IsTrue(t.stored, Failed)
  {
    RunningOnceStarted(s.stored);
    ReconcileOnce(s, true, key);
    AnsweredIncomplete(StartedIn(s.stored), I.Idle);
    PutGet(Put(StartedIn(s.stored), Condition(Completed, false, "")), Condition(Failed, true, "ConnectionLost"), Failed);
  }

  lemma SavedConcat(a: seq<Step>, b: seq<Step>)
    requires AllSaved(a) && AllSaved(b)
    ensures AllSaved(a + b)
  {
  }

  lemma RoundsSaved(key: string)
    ensures AllSaved(Reconcile(true)) && AllSaved(FailedStart(key))
  {
  }

  lemma OneMoreStart(before: seq<Step>, key: string) returns (steps: seq<Step>)
    requires AllSaved(before) && Ready(Run(before, key), key)
    requires !InProgress(Run(before, key).stored) || IsTrue(Run(before, key).stored, Failed)
    ensures AllSaved(steps) && Ready(Run(steps, key), key) && InProgress(Run(steps, key).stored)
    ensures Get(Run(steps, key).stored, Failed) == Get(Run(before, key).stored, Failed)
    ensures Run(steps, key).starts == Run(before, key).starts + 1 && Run(steps, key).failures == Run(before, key).failures
  {
    RoundsSaved(key);
    SavedConcat(before, Reconcile(true));
    SavedConcat(before + Reconcile(true), FailedStart(key));
    RoundSends(Run(before, key), key);
    RunContinues(before, Reconcile(true), key);
    RunContinues(before + Reconcile(true), FailedStart(key), key);
    steps := before + Reconcile(true) + FailedStart(key);
  }

  lemma OneFailure(key: string) returns (steps: seq<Step>)
    ensures AllSaved(steps) && Ready(Run(steps, key), key) && IsTrue(Run(steps, key).stored, Failed)
    ensures Run(steps, key).failures == 1 && Run(steps, key).starts == 1
  {
    var before := OneMoreStart([], key);
    RoundsSaved(key);
    SavedConcat(before, Reconcile(true));
    RoundFails(Run(before, key), key);
    RunContinues(before, Reconcile(true), key);
    steps := before + Reconcile(true);
  }

  /** One stored failure is enough for any number of starts: the Failed condition is never cleared, so that the check for
      a lost connection does not fire again. */
  lemma {:induction false} AnyNumberOfStarts(n: nat, key: string) returns (steps: seq<Step>)
    ensures AllSaved(steps) && Ready(Run(steps, key), key) && IsTrue(Run(steps, key).stored, Failed)
    ensures Run(steps, key).failures == 1 && Run(steps, key).starts == n + 1
  {
    if n == 0 {
      steps := OneFailure(key);
    } else {
      steps := AnyNumberOfStarts(n - 1, key);
      steps := OneMoreStart(steps, key);
    }
  }

  lemma UnsavedRound(s: System, key: string)
    requires Ready(s, key) && !InProgress(s.stored)
    ensures var t := Continued(s, Reconcile(false), key);
            Ready(t, key) && !InProgress(t.stored) && t.starts == s.starts + 1 && t.failures == s.failures
  {
    RunningOnceStarted(s.stored);
    ReconcileOnce(s, false, key);
    PutGet(s.stored, Condition(Started, true, ""), Completed);
  }

  lemma RunTwo(a: seq<Step>, b: seq<Step>, key: string)
    ensures Run(a + b, key) == Continued(Continued(INITIAL, a, key), b, key)
  {
    assert [] + a == a;
    RunContinues([], a, key);
    RunContinues(a, b, key);
  }

  lemma InitiallyReady(key: string)
    ensures Ready(INITIAL, key) && !InProgress(INITIAL.stored)
  {
  }

  /** Without the stored update two starts need no failure. */
  lemma UnsavedUpdateRestarts(key: string)
    ensures var s := Run(Reconcile(false) + Reconcile(false), key); s.starts == 2 && s.failures == 0
  {
    RunTwo(Reconcile(false), Reconcile(false), key);
    InitiallyReady(key);
    UnsavedRound(INITIAL, key);
    UnsavedRound(Continued(INITIAL, Reconcile(false), key), key);
  }

  // ----- between the poll and the status update -----

  /** A reconcile was told "done" and has not stored that yet. */
  predicate Told(s: System) { s.phase.Named? || (s.phase.Polled? && s.phase.reply == I.Done) }

  /** Step n is the poll that told the reconcile under way at step m "done". */
  ghost predicate ToldBy(steps: seq<Step>, n: nat, m: nat, key: string) {
    && n < m <= |steps| && CompletionAt(steps, n, key)
    && !Told(Run(steps[..n], key)) && forall k :: n < k <= m ==> Told(Run(steps[..k], key))
  }

  /** A reconcile is told only by a poll. */
  lemma ToldByPoll(s: System, step: Step, key: string)
    requires Told(Next(s, step, key)) && !Told(s)
    ensures step == Poll && I.Answer(s.pool, I.Status(key)) == I.Done
  {
  }

  lemma {:induction false} PollOf(steps: seq<Step>, m: nat, key: string) returns (n: nat)
    requires m <= |steps| && Told(Run(steps[..m], key))
    ensures ToldBy(steps, n, m, key)
  {
    assert steps[..m][..m - 1] == steps[..m - 1];
    if Told(Run(steps[..m - 1], key)) {
      n := PollOf(steps, m - 1, key);
    } else {
      n := m - 1;
      ToldByPoll(Run(steps[..n], key), steps[n], key);
      PoolIsRun(steps[..n], key);
      L.DoneExactly(Injected(steps[..n]), key);
    }
  }

  /** Only the end of a reconcile that was told stores the status. */
  lemma StoredByFinish(s: System, step: Step, key: string)
    requires Unfinished(s) && !IsTrue(s.stored, Completed) && IsTrue(Next(s, step, key).stored, Completed)
    ensures step == Finish(true) && s.phase.Named?
  {
    if step.Begin? { BegunIncomplete(s.stored, step.pod, step.connected); }
    if step.Decide? && s.phase.Polled? { AnsweredIncomplete(s.phase.local, s.phase.reply); }
  }

  lemma {:induction false} InjectedConcat(a: seq<Step>, b: seq<Step>)
    ensures Injected(a + b) == Injected(a) + Injected(b)
  {
    if b == [] {
      assert a + b == a;
    } else {
      var n := |b| - 1;
      InjectedConcat(a, b[..n]);
      assert (a + b)[..|a| + n] == a + b[..n] && (a + b)[|a| + n] == b[n];
    }
  }

  lemma SinceExactly(steps: seq<Step>, n: nat, m: nat, key: string)
    requires n <= m <= |steps| && L.CompletedSince(Injected(steps[..n]), key)
    ensures L.CompletedSince(Injected(steps[..m]), key) <==> L.Redone(Run(steps[..n], key).pool, Injected(steps[n..m]), key)
  {
    assert steps[..n] + steps[n..m] == steps[..m];
    InjectedConcat(steps[..n], steps[n..m]);
    PoolIsRun(steps[..n], key);
    L.CompletedSinceExactly(Injected(steps[..n]), Injected(steps[n..m]), key);
  }

  lemma FinishInjectsNothing(steps: seq<Step>, m: nat)
    requires m < |steps| && steps[m].Finish?
    ensures Injected(steps[..m + 1]) == Injected(steps[..m])
  {
    assert steps[..m + 1][..m] == steps[..m];
    assert Injected(steps[..m]) + [] == Injected(steps[..m]);
  }

  /** Completed is stored after a poll that said "done". At the moment it is stored a successful completion callback is
      later than every start and complete the injector accepted exactly when each of those it accepted since that poll was
      followed by another successful callback. */
  lemma StoredCompletionExactly(steps: seq<Step>, m: nat, key: string) returns (n: nat)
    requires m < |steps| && !IsTrue(Run(steps[..m], key).stored, Completed) && IsTrue(Run(steps[..m + 1], key).stored, Completed)
    ensures steps[m] == Finish(true) && ToldBy(steps, n, m, key)
    ensures L.CompletedSince(Injected(steps[..m + 1]), key) <==> L.Redone(Run(steps[..n], key).pool, Injected(steps[n..m]), key)
  {
    assert steps[..m + 1][..m] == steps[..m];
    AlwaysFresh(steps[..m], key);
    StoredByFinish(Run(steps[..m], key), steps[m], key);
    n := PollOf(steps, m, key);
    SinceExactly(steps, n, m, key);
    FinishInjectsNothing(steps, m);
  }

  /** A start that was sent earlier and arrives after the poll undoes the completion the controller then stores. */
  lemma LateStartIsOverlooked(s: System, key: string)
    requires s.phase.Polled? && s.phase.reply == I.Done && I.Accepted(s.pool, key)
    ensures var t := Continued(s, [Inject(I.Start(key))] + ([Inject(I.Started(true))] + ([AskFile] + ([Finish(true)] + []))), key);
            IsTrue(t.stored, Completed) && !L.Marked(t.pool, key) && key in t.pool.workers
  {
    var s1 := Next(s, Inject(I.Start(key)), key);
    var s2 := Next(s1, Inject(I.Started(true)), key);
    var s3 := Next(s2, AskFile, key);
    Unroll(s, Inject(I.Start(key)), [Inject(I.Started(true))] + ([AskFile] + ([Finish(true)] + [])), key);
    Unroll(s1, Inject(I.Started(true)), [AskFile] + ([Finish(true)] + []), key);
    Unroll(s2, AskFile, [Finish(true)] + [], key);
    Unroll(s3, Finish(true), [], key);
    StartTakesPlace(s.pool, key);
    assert s3.phase.Named? && s3.phase.local == s.phase.local;
    PutGet(s.phase.local, Condition(Completed, true, ""), Completed);
  }

  lemma StartTakesPlace(p: I.Pool, key: string)
    requires I.Accepted(p, key)
    ensures var q := L.WholeStart(p, key); q.starting.None? && !L.Marked(q, key) && key in q.workers
  {
    L.AppendLeaves(I.After(p, I.Start(key)), key);
  }

  // ----- a run that gets there -----

  /** How many starts of the key have reached the injector. */
  function Delivered(steps: seq<Step>, key: string): nat {
    if steps == [] then 0 else (if steps[0] == Inject(I.Start(key)) then 1 else 0) + Delivered(steps[1..], key)
  }

  lemma {:induction false} DeliveredConcat(a: seq<Step>, b: seq<Step>, key: string)
    ensures Delivered(a + b, key) == Delivered(a, key) + Delivered(b, key)
  {
    if a == [] {
      assert a + b == b;
    } else {
      assert (a + b)[1..] == a[1..] + b;
      DeliveredConcat(a[1..], b, key);
    }
  }

  lemma DeliveredFirst(step: Step, rest: seq<Step>, key: string)
    ensures Delivered([step] + rest, key) == (if step == Inject(I.Start(key)) then 1 else 0) + Delivered(rest, key)
  {
    assert ([step] + rest)[1..] == rest;
  }

  lemma DeliveredParts(key: string)
    ensures Delivered(Reconcile(true), key) == 0 && Delivered(FailedStart(key), key) == 1 && Delivered(Collected(key), key) == 1
    ensures Delivered(PollOnly(), key) == 0
  {
    DeliveredFirst(Begin(Up, true, true), [Poll] + ([Decide(true)] + []), key);
    DeliveredFirst(Poll, [Decide(true)] + [], key);
    DeliveredFirst(Decide(true), [], key);
    DeliveredFirst(Inject(I.Start(key)), [Inject(I.Started(false))] + [], key);
    DeliveredFirst(Inject(I.Started(false)), [], key);
    DeliveredFirst(Inject(I.Start(key)),
                   [Inject(I.Started(true))] + ([Inject(I.WorkerRemoved(key))] + ([Inject(I.CompletionStored(key))] + [])), key);
    DeliveredFirst(Inject(I.Started(true)), [Inject(I.WorkerRemoved(key))] + ([Inject(I.CompletionStored(key))] + []), key);
    DeliveredFirst(Inject(I.WorkerRemoved(key)), [Inject(I.CompletionStored(key))] + [], key);
    DeliveredFirst(Inject(I.CompletionStored(key)), [], key);
    DeliveredFirst(Begin(Up, true, true), [Poll] + [], key);
    DeliveredFirst(Poll, [], key);
  }

  /** A start arrives, and its collection succeeds. */
  function Collected(key: string): seq<Step> {
    [Inject(I.Start(key))] + ([Inject(I.Started(true))] + ([Inject(I.WorkerRemoved(key))] + ([Inject(I.CompletionStored(key))] + [])))
  }

  function PollOnly(): seq<Step> { [Begin(Up, true, true)] + ([Poll] + []) }

  lemma {:induction false} ContinuedConcat(s: System, a: seq<Step>, b: seq<Step>, key: string)
    ensures Continued(s, a + b, key) == Continued(Continued(s, a, key), b, key)
    decreases |a|
  {
    if a == [] {
      assert a + b == b;
    } else {
      assert (a + b)[1..] == a[1..] + b;
      ContinuedConcat(Next(s, a[0], key), a[1..], b, key);
    }
  }

  lemma {:induction false} ContinuedBounded(s: System, steps: seq<Step>, key: string)
    requires L.Bounded(s.pool)
    ensures L.Bounded(Continued(s, steps, key).pool)
    decreases |steps|
  {
    if steps != [] {
      NextPool(s, steps[0], key);
      if steps[0].Inject? { L.StepKeepsBounds(s.pool, steps[0].event); }
      ContinuedBounded(Next(s, steps[0], key), steps[1..], key);
    }
  }

  lemma CollectedPool(s: System, key: string)
    ensures Continued(s, Collected(key), key)
         == s.(pool := I.After(I.After(L.WholeStart(s.pool, key), I.WorkerRemoved(key)), I.CompletionStored(key)))
  {
    var e1, e2, e3, e4 := Inject(I.Start(key)), Inject(I.Started(true)), Inject(I.WorkerRemoved(key)), Inject(I.CompletionStored(key));
    var s1 := Next(s, e1, key);
    var s2 := Next(s1, e2, key);
    var s3 := Next(s2, e3, key);
    Unroll(s, e1, [e2] + ([e3] + ([e4] + [])), key);
    Unroll(s1, e2, [e3] + ([e4] + []), key);
    Unroll(s2, e3, [e4] + [], key);
    Unroll(s3, e4, [], key);
  }

  lemma CollectedLeaves(p: I.Pool, key: string)
    requires I.Accepted(p, key) && L.Bounded(p)
    ensures var q := I.After(I.After(L.WholeStart(p, key), I.WorkerRemoved(key)), I.CompletionStored(key));
            |q.workers| == |p.workers| && key !in q.workers && q.limit == p.limit && q.starting.None?
  {
    L.StartLeaves(p, key);
    StartCounts(p, key);
    L.WithoutShrinks(L.WholeStart(p, key).workers, key);
  }

  /** After a collection the injector says "done", and has room for the next start. */
  lemma CollectedAnswers(s: System, key: string)
    requires Ready(s, key) && L.Bounded(s.pool)
    ensures var t := Continued(s, Collected(key), key);
            I.Answer(t.pool, I.Status(key)) == I.Done && I.Accepted(t.pool, key) && t == s.(pool := t.pool)
  {
    CollectedPool(s, key);
    CollectedLeaves(s.pool, key);
    L.StartLeaves(s.pool, key);
    L.CallbackAnswers(L.WholeStart(s.pool, key), key, "");
  }

  lemma StartCounts(p: I.Pool, key: string)
    requires I.Accepted(p, key)
    ensures var q := L.WholeStart(p, key); q.workers == p.workers + [key] && q.limit == p.limit && q.starting.None?
  {
  }

  lemma PollsDone(s: System, key: string)
    requires s.phase == Resting && s.pool.starting.None? && I.Answer(s.pool, I.Status(key)) == I.Done && !IsTrue(s.stored, Completed)
    ensures Continued(s, PollOnly(), key) == s.(stored := StartedIn(s.stored), phase := Polled(StartedIn(s.stored), I.Done))
  {
    var s1 := Next(s, Begin(Up, true, true), key);
    assert s1 == s.(stored := StartedIn(s.stored), phase := Connected(StartedIn(s.stored)));
    Unroll(s, Begin(Up, true, true), [Poll] + [], key);
    Unroll(s1, Poll, [], key);
  }

  /** A start fails, the connection is reported as lost, two more starts are sent; the first of them is delivered and its
      collection succeeds. */
  function LateStory(key: string): seq<Step> {
    Reconcile(true) + (FailedStart(key) + (Reconcile(true) + (Reconcile(true) + (Reconcile(true) + (Collected(key) + PollOnly())))))
  }

  lemma StoryDelivers(key: string)
    ensures Delivered(LateStory(key), key) == 2
  {
    DeliveredParts(key);
    var e5 := Collected(key) + PollOnly();
    var e4 := Reconcile(true) + e5;
    var e3 := Reconcile(true) + e4;
    var e2 := Reconcile(true) + e3;
    var e1 := FailedStart(key) + e2;
    DeliveredConcat(Collected(key), PollOnly(), key);
    DeliveredConcat(Reconcile(true), e5, key);
    DeliveredConcat(Reconcile(true), e4, key);
    DeliveredConcat(Reconcile(true), e3, key);
    DeliveredConcat(FailedStart(key), e2, key);
    DeliveredConcat(Reconcile(true), e1, key);
  }

  /** The state after the first four rounds: a failure is stored, three starts were sent, the injector is idle. */
  lemma StoryReady(key: string) returns (s: System)
    ensures var t := Collected(key) + PollOnly();
            Continued(INITIAL, LateStory(key), key) == Continued(s, t, key)
    ensures Ready(s, key) && s.starts == 3 && L.Bounded(s.pool)
  {
    var e5 := Collected(key) + PollOnly();
    var e4 := Reconcile(true) + e5;
    var e3 := Reconcile(true) + e4;
    var e2 := Reconcile(true) + e3;
    InitiallyReady(key);
    RoundSends(INITIAL, key);
    ContinuedConcat(INITIAL, Reconcile(true), FailedStart(key) + e2, key);
    var s1 := Continued(INITIAL, Reconcile(true), key);
    ContinuedConcat(s1, FailedStart(key), e2, key);
    var s2 := Continued(s1, FailedStart(key), key);
    ContinuedBounded(INITIAL, Reconcile(true), key);
    ContinuedBounded(s1, FailedStart(key), key);
    RoundFailsAgain(s2, key);
    ContinuedConcat(s2, Reconcile(true), e3, key);
    var s3 := Continued(s2, Reconcile(true), key);
    ReconcileSends(s3, key);
    ContinuedConcat(s3, Reconcile(true), e4, key);
    var s4 := Continued(s3, Reconcile(true), key);
    ReconcileSends(s4, key);
    ContinuedConcat(s4, Reconcile(true), e5, key);
    s := Continued(s4, Reconcile(true), key);
    ContinuedBounded(s2, Reconcile(true), key);
    ContinuedBounded(s3, Reconcile(true), key);
    ContinuedBounded(s4, Reconcile(true), key);
  }

  lemma RoundFailsAgain(s: System, key: string)
    requires Ready(s, key) && InProgress(s.stored) && Get(s.stored, Failed).None?
    ensures var t := Continued(s, Reconcile(true), key); Ready(t, key) && t.starts == s.starts && IsTrue(t.stored, Failed)
  {
    RoundFails(s, key);
  }

  /** That run ends at a poll that says "done" while one of the starts sent has not arrived: the state of
      LateStartIsOverlooked. */
  lemma LateStartIsReached(key: string)
    ensures var s := Run(LateStory(key), key);
            && s.phase.Polled? && s.phase.reply == I.Done && I.Accepted(s.pool, key)
            && s.starts == Delivered(LateStory(key), key) + 1
  {
    StoryDelivers(key);
    var s := StoryReady(key);
    assert [] + LateStory(key) == LateStory(key);
    RunContinues([], LateStory(key), key);
    ContinuedConcat(s, Collected(key), PollOnly(), key);
    CollectedAnswers(s, key);
    PollsDone(Continued(s, Collected(key), key), key);
  }

  // ----- conditions of distinct kinds -----

  predicate AllDistinct(s: System) { Distinct(s.stored) && (!s.phase.Resting? ==> Distinct(s.phase.local)) }

  lemma StepDistinct(s: System, step: Step, key: string)
    requires AllDistinct(s)
    ensures AllDistinct(Next(s, step, key))
  {
    match step
    case Begin(pod, connected, _) => TransitionsKeepDistinct(s.stored, pod, connected, I.Idle);
    case Decide(_) => if s.phase.Polled? { TransitionsKeepDistinct(s.phase.local, Up, true, s.phase.reply); }
    case Finish(_) => if s.phase.Named? { TransitionsKeepDistinct(s.phase.local, Up, true, I.Idle); }
    case _ =>
  }

  /** In every run the stored conditions, and those a reconcile works on, are of distinct kinds, as the check for a running
      collection needs. */
  lemma {:induction false} AlwaysDistinct(steps: seq<Step>, key: string)
    ensures AllDistinct(Run(steps, key))
  {
    if steps != [] {
      AlwaysDistinct(steps[..|steps| - 1], key);
      StepDistinct(Run(steps[..|steps| - 1], key), steps[|steps| - 1], key);
    }
  }

  // ----- the file name -----

  lemma FileTaken(s: System, key: string)
    requires s.phase.Polled? && s.phase.reply == I.Done && s.pool.starting.None?
    ensures Next(s, AskFile, key)
            == s.(phase := Named(s.phase.local, if key in s.pool.files then s.pool.files[key] else ""))
  {
  }

  lemma FileKept(s: System, key: string)
    requires s.phase.Named?
    ensures var t := Next(s, Finish(true), key);
            t.file == s.phase.file && t.phase == Resting && IsTrue(t.stored, Completed) && t.stored == Finished(s.phase.local)
  {
    FinishedExactly(s.phase.local);
  }

  /** The file name taken by a reconcile that was told "done" is the one the injector had filed at that moment for the key;
      the end of the reconcile stores it. */
  lemma FileIsStored(s: System, key: string)
    requires s.phase.Polled? && s.phase.reply == I.Done && s.pool.starting.None?
    ensures var t := Next(Next(s, AskFile, key), Finish(true), key);
            && t.file == (if key in s.pool.files then s.pool.files[key] else "") && t.phase == Resting
            && IsTrue(t.stored, Completed) && t.stored == Finished(s.phase.local)
  {
    FileTaken(s, key);
    FileKept(Next(s, AskFile, key), key);
  }
}
