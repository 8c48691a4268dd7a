/** What holds of the worker pool in every interleaving of actions and callback steps. */
module InjectorLaws {
  import opened Text
  import opened Injector

  function RunFrom(p: Pool, events: seq<Event>): Pool {
    if events == [] then p else After(RunFrom(p, events[..|events| - 1]), events[|events| - 1])
  }

  function Run(events: seq<Event>): Pool { RunFrom(INITIAL, events) }

  /** A start, from the request to the append of its worker, when nothing intervenes. */
  function WholeStart(p: Pool, key: string): Pool { After(After(p, Start(key)), Started(true)) }

  /** All the steps of a successful completion callback. */
  function WholeCallback(p: Pool, key: string, file: string): Pool {
    After(After(After(p, WorkerRemoved(key)), CompletionStored(key)), FileNameStored(key, file))
  }

  // ----- bounds -----

  predicate Distinct(workers: seq<string>) {
    forall i, j :: 0 <= i < j < |workers| ==> workers[i] != workers[j]
  }

  /** A start in progress already has its place. */
  predicate Bounded(p: Pool) {
    && MIN_WORKERS <= p.limit <= MAX_WORKERS
    && |p.workers| + (if p.starting.Some? then 1 else 0) <= p.limit
    && Distinct(p.workers)
    && (p.starting.Some? ==> p.starting.value !in p.workers)
  }

  lemma {:induction false} WithoutShrinks(workers: seq<string>, key: string)
    requires Distinct(workers)
    ensures var w := Without(workers, key);
            && Distinct(w) && |w| == |workers| - (if key in workers then 1 else 0)
            && forall k :: k in w <==> k in workers && k != key
  {
    if workers != [] {
      var head, rest := workers[0], workers[1..];
      assert forall k :: k in workers <==> k == head || k in rest;
      assert head !in rest;
      WithoutShrinks(rest, key);
    }
  }

  lemma StepKeepsBounds(p: Pool, e: Event)
    requires Bounded(p)
    ensures Bounded(After(p, e))
  {
    if (e.Complete? || e.Stop? || e.WorkerRemoved?) && !Waits(p, e) { WithoutShrinks(p.workers, e.key); }
  }

  /** In every interleaving, a callback possibly preceding the append of its worker: the limit is between 1 and 100, no
      more workers are active than it allows, and no key has two workers. */
  lemma {:induction false} AlwaysBounded(events: seq<Event>)
    ensures Bounded(Run(events))
  {
    if events != [] {
      AlwaysBounded(events[..|events| - 1]);
      StepKeepsBounds(Run(events[..|events| - 1]), events[|events| - 1]);
    }
  }

  // ----- changing the limit -----

  /** A valid request sets the limit to the larger of the number asked for and the active workers, and reports success
      exactly when the active workers allow the number asked for; an invalid one changes nothing. */
  lemma ResizeExactly(p: Pool, payload: string)
    requires Bounded(p) && p.starting.None?
    ensures var e := SetMaxWorkers(payload); var d := Desired(payload);
            && After(p, e) == p.(limit := if d.None? then p.limit else Max(|p.workers|, d.value))
            && (Answer(p, e) == UpdateSuccess <==> d.Some? && |p.workers| <= d.value)
            && (Answer(p, e) == UpdateBusy <==> d.Some? && |p.workers| > d.value)
            && (Answer(p, e) == InvalidArgument <==> d.None?)
  {
  }

  predicate AsksOnly(events: seq<Event>, d: int) {
    forall i :: 0 <= i < |events| && events[i].SetMaxWorkers? ==> Desired(events[i].payload) in {None, Some(d)}
  }

  /** While everybody asks for the same number, a larger limit only comes down, never below that number, and the active
      workers stay within it: a number below the active count takes effect as workers drain. */
  lemma {:induction false} LimitComesDown(p: Pool, d: int, events: seq<Event>)
    requires Bounded(p) && d <= p.limit && AsksOnly(events, d)
    ensures var q := RunFrom(p, events); Bounded(q) && d <= q.limit <= p.limit
  {
    if events != [] {
      var n := |events| - 1;
      assert AsksOnly(events[..n], d) by {
        forall i | 0 <= i < n && events[..n][i].SetMaxWorkers? ensures Desired(events[..n][i].payload) in {None, Some(d)} {
          assert events[..n][i] == events[i];
        }
      }
      LimitComesDown(p, d, events[..n]);
      StepKeepsBounds(RunFrom(p, events[..n]), events[n]);
    }
  }

  /** Draining is not guaranteed: a start between a departure and the next request takes the free place again. */
  lemma FreePlaceIsRefilled(p: Pool, a: string, b: string, c: string, payload: string)
    requires Bounded(p) && p.starting.None? && p.workers == [a, b] && c !in [a, b] && Desired(payload) == Some(1)
    ensures var q := WholeStart(After(After(p, SetMaxWorkers(payload)), WorkerRemoved(a)), c);
            q.workers == [b, c] && q.limit == 2 && Answer(q, SetMaxWorkers(payload)) == UpdateBusy
  {
    var q1 := After(p, SetMaxWorkers(payload));
    assert q1 == p.(limit := 2);
    assert p.workers[1..] == [b];
    var q2 := After(q1, WorkerRemoved(a));
    assert q2 == p.(limit := 2, workers := [b]);
    assert Accepted(q2, c);
    assert WholeStart(q2, c).workers == [b] + [c];
  }

  // ----- what a status means -----

  /** The event makes the injector forget an earlier completion of the key: a start it accepts, or a complete. */
  predicate Resets(p: Pool, e: Event, key: string) {
    !Waits(p, e) && (e == Complete(key) || (e == Start(key) && Accepted(p, key)))
  }

  /** A successful completion callback for the key was recorded later than the last accepted start or complete. */
  ghost predicate CompletedSince(events: seq<Event>, key: string) {
    exists i :: 0 <= i < |events| && events[i] == CompletionStored(key) && Undisturbed(events, i, key)
  }

  ghost predicate Undisturbed(events: seq<Event>, i: nat, key: string) {
    forall j :: i < j < |events| ==> !ResetAt(events, j, key)
  }

  predicate ResetAt(events: seq<Event>, j: nat, key: string)
    requires j < |events|
  { Resets(Run(events[..j]), events[j], key) }

  lemma ResetAtPrefix(events: seq<Event>, e: Event, j: nat, key: string)
    requires j < |events|
    ensures ResetAt(events + [e], j, key) == ResetAt(events, j, key)
  {
    assert (events + [e])[..j] == events[..j];
  }

  lemma ResetAtEnd(events: seq<Event>, e: Event, key: string)
    ensures ResetAt(events + [e], |events|, key) == Resets(Run(events), e, key)
  {
    assert (events + [e])[..|events|] == events;
  }

  lemma UndisturbedGrows(events: seq<Event>, i: nat, e: Event, key: string)
    requires i < |events|
    ensures Undisturbed(events + [e], i, key) <==> Undisturbed(events, i, key) && !Resets(Run(events), e, key)
  {
    forall j | 0 <= j < |events| ensures ResetAt(events + [e], j, key) == ResetAt(events, j, key) { ResetAtPrefix(events, e, j, key); }
    ResetAtEnd(events, e, key);
  }

  lemma CompletedSinceGrows(events: seq<Event>, e: Event, key: string)
    ensures CompletedSince(events + [e], key)
            <==> e == CompletionStored(key) || (CompletedSince(events, key) && !Resets(Run(events), e, key))
  {
    var all := events + [e];
    if e == CompletionStored(key) {
      assert all[|events|] == e && Undisturbed(all, |events|, key);
    } else {
      if CompletedSince(all, key) {
        var i :| 0 <= i < |all| && all[i] == CompletionStored(key) && Undisturbed(all, i, key);
        assert events[i] == CompletionStored(key);
        UndisturbedGrows(events, i, e, key);
      }
      if CompletedSince(events, key) && !Resets(Run(events), e, key) {
        var i :| 0 <= i < |events| && events[i] == CompletionStored(key) && Undisturbed(events, i, key);
        UndisturbedGrows(events, i, e, key);
        assert all[i] == events[i];
      }
    }
  }

  predicate Marked(p: Pool, key: string) { key in p.completed && p.completed[key] }

  lemma MarkedAfter(p: Pool, e: Event, key: string)
    ensures Marked(After(p, e), key) <==> e == CompletionStored(key) || (Marked(p, key) && !Resets(p, e, key))
  {
  }

  lemma {:induction false} MarkedExactly(events: seq<Event>, key: string)
    ensures Marked(Run(events), key) <==> CompletedSince(events, key)
  {
    if events != [] {
      var n := |events| - 1;
      MarkedExactly(events[..n], key);
      MarkedAfter(Run(events[..n]), events[n], key);
      CompletedSinceGrows(events[..n], events[n], key);
      assert events[..n] + [events[n]] == events;
    }
  }

  /** Event j, in a run from pool p, makes the injector forget a completion of the key. */
  predicate UndoneAt(p: Pool, events: seq<Event>, j: nat, key: string)
    requires j < |events|
  { Resets(RunFrom(p, events[..j]), events[j], key) }

  /** Each accepted start and each complete among the events is followed by a successful callback. */
  ghost predicate Redone(p: Pool, events: seq<Event>, key: string) {
    forall j :: 0 <= j < |events| && UndoneAt(p, events, j, key) ==> CompletionStored(key) in events[j + 1..]
  }

  lemma UndoneAtPrefix(p: Pool, events: seq<Event>, e: Event, j: nat, key: string)
    requires j < |events|
    ensures UndoneAt(p, events + [e], j, key) == UndoneAt(p, events, j, key)
    ensures (events + [e])[j + 1..] == events[j + 1..] + [e]
  {
    assert (events + [e])[..j] == events[..j];
  }

  lemma UndoneAtEnd(p: Pool, events: seq<Event>, e: Event, key: string)
    ensures UndoneAt(p, events + [e], |events|, key) == Resets(RunFrom(p, events), e, key)
  {
    assert (events + [e])[..|events|] == events;
  }

  lemma RedoneGrows(p: Pool, events: seq<Event>, e: Event, key: string)
    ensures Redone(p, events + [e], key)
            <==> e == CompletionStored(key) || (Redone(p, events, key) && !Resets(RunFrom(p, events), e, key))
  {
    var all := events + [e];
    UndoneAtEnd(p, events, e, key);
    forall j | 0 <= j < |events|
      ensures UndoneAt(p, all, j, key) == UndoneAt(p, events, j, key) && all[j + 1..] == events[j + 1..] + [e]
    {
      UndoneAtPrefix(p, events, e, j, key);
    }
  }

  /** A completion that is there at the beginning is there at the end exactly when whatever undid it was followed by
      another successful callback. */
  lemma {:induction false} MarkLastsExactly(p: Pool, events: seq<Event>, key: string)
    requires Marked(p, key)
    ensures Marked(RunFrom(p, events), key) <==> Redone(p, events, key)
  {
    if events != [] {
      var n := |events| - 1;
      MarkLastsExactly(p, events[..n], key);
      MarkedAfter(RunFrom(p, events[..n]), events[n], key);
      RedoneGrows(p, events[..n], events[n], key);
      assert events[..n] + [events[n]] == events;
    }
  }

  lemma {:induction false} RunsOn(a: seq<Event>, b: seq<Event>)
    ensures Run(a + b) == RunFrom(Run(a), b)
  {
    if b == [] {
      assert a + b == a;
    } else {
      var n := |b| - 1;
      RunsOn(a, b[..n]);
      assert (a + b)[..|a| + n] == a + b[..n] && (a + b)[|a| + n] == b[n];
    }
  }

  /** So a successful callback that is later than every accepted start and every complete stays so exactly when the later
      ones of these are followed by another. */
  lemma CompletedSinceExactly(a: seq<Event>, b: seq<Event>, key: string)
    requires CompletedSince(a, key)
    ensures CompletedSince(a + b, key) <==> Redone(Run(a), b, key)
  {
    MarkedExactly(a, key);
    MarkedExactly(a + b, key);
    RunsOn(a, b);
    MarkLastsExactly(Run(a), b, key);
  }

  /** The injector answers "done" exactly when the key has no worker and no recorded error, and a successful completion
      callback was recorded later than the last start it accepted for the key and the last complete. */
  lemma DoneExactly(events: seq<Event>, key: string)
    ensures var p := Run(events);
            Answer(p, Status(key)) == Done <==> key !in p.workers && key !in p.erroring && CompletedSince(events, key)
  {
    MarkedExactly(events, key);
  }

  predicate Never(events: seq<Event>, bad: set<Event>) {
    forall i :: 0 <= i < |events| ==> events[i] !in bad
  }

  lemma NeverSplits(events: seq<Event>, bad: set<Event>)
    requires events != [] && Never(events, bad)
    ensures Never(events[..|events| - 1], bad) && events[|events| - 1] !in bad
  {
  }

  /** A recorded error stays until a complete: a new start and a successful run in between change nothing, the key is
      reported as writing or failed. */
  lemma {:induction false} ErrorSticks(p: Pool, key: string, events: seq<Event>)
    requires key in p.erroring && Never(events, {Complete(key)})
    ensures var q := RunFrom(p, events);
            key in q.erroring && (Answer(q, Status(key)) == Writing || Answer(q, Status(key)).Failure?)
  {
    if events != [] {
      NeverSplits(events, {Complete(key)});
      ErrorSticks(p, key, events[..|events| - 1]);
      ErrorStays(RunFrom(p, events[..|events| - 1]), key, events[|events| - 1]);
    }
  }

  lemma ErrorStays(p: Pool, key: string, e: Event)
    requires key in p.erroring && e != Complete(key)
    ensures key in After(p, e).erroring
  {
  }

  lemma {:induction false} KeptBy(workers: seq<string>, k: string, key: string)
    requires k in workers && k != key
    ensures k in Without(workers, key)
  {
    if workers[0] == key {
      assert k in workers[1..];
    } else if workers[0] != k {
      KeptBy(workers[1..], k, key);
    }
  }

  /** Only a complete, a stop or a completion callback for its key ends a worker. */
  lemma {:induction false} WorkerStays(p: Pool, key: string, events: seq<Event>)
    requires key in p.workers && Never(events, {Complete(key), Stop(key), WorkerRemoved(key)})
    ensures key in RunFrom(p, events).workers
  {
    if events != [] {
      var n := |events| - 1;
      NeverSplits(events, {Complete(key), Stop(key), WorkerRemoved(key)});
      WorkerStays(p, key, events[..n]);
      var q, e := RunFrom(p, events[..n]), events[n];
      if e.Complete? || e.Stop? || e.WorkerRemoved? { KeptBy(q.workers, key, e.key); }
    }
  }

  lemma CallbackLeaves(p: Pool, key: string, file: string)
    ensures var q := WholeCallback(p, key, file); q.starting == p.starting && Marked(q, key)
  {
  }

  lemma AppendLeaves(p: Pool, key: string)
    requires p.starting == Some(key)
    ensures var q := After(p, Started(true)); q.completed == p.completed && key in q.workers
  {
    assert (p.workers + [key])[|p.workers|] == key;
  }

  function EarlyCallback(p: Pool, key: string, file: string): Pool {
    After(WholeCallback(After(p, Start(key)), key, file), Started(true))
  }

  lemma EarlyCallbackLeaves(p: Pool, key: string, file: string)
    requires Accepted(p, key)
    ensures Marked(EarlyCallback(p, key, file), key) && key in EarlyCallback(p, key, file).workers
  {
    var q := After(p, Start(key));
    assert q.starting == Some(key);
    CallbackLeaves(q, key, file);
    AppendLeaves(WholeCallback(q, key, file), key);
  }

  /** A callback that finishes before its worker is appended leaves that worker for good: whatever follows, short of a
      complete, a stop or the callback of another start of the same key, the injector answers "writing" although the
      collection succeeded. */
  lemma EarlyCallbackHidesCompletion(p: Pool, key: string, file: string, later: seq<Event>)
    requires Accepted(p, key) && Never(later, {Complete(key), Stop(key), WorkerRemoved(key)})
    ensures Marked(EarlyCallback(p, key, file), key)
    ensures Answer(RunFrom(EarlyCallback(p, key, file), later), Status(key)) == Writing
  {
    EarlyCallbackLeaves(p, key, file);
    WorkerStays(EarlyCallback(p, key, file), key, later);
  }

  lemma StartLeaves(p: Pool, key: string)
    requires Bounded(p) && Accepted(p, key)
    ensures var q := WholeStart(p, key); Bounded(q) && key !in q.files && q.erroring == p.erroring
  {
    StepKeepsBounds(p, Start(key));
    StepKeepsBounds(After(p, Start(key)), Started(true));
  }

  /** In the usual order, the injector says "done" between the two stores of the callback but knows no file name; after
      the second store it does. */
  lemma FileNameComesLast(p: Pool, key: string, file: string)
    requires Bounded(p) && Accepted(p, key) && key !in p.erroring
    ensures var q := After(After(WholeStart(p, key), WorkerRemoved(key)), CompletionStored(key));
            && Answer(q, Status(key)) == Done && Answer(q, LinperfFileName(key)) == NotFound
            && Answer(After(q, FileNameStored(key, file)), LinperfFileName(key)) == FileName(file)
  {
    StartLeaves(p, key);
    CallbackAnswers(WholeStart(p, key), key, file);
  }

  lemma CallbackAnswers(p: Pool, key: string, file: string)
    requires Bounded(p) && key !in p.erroring && key !in p.files
    ensures var q := After(After(p, WorkerRemoved(key)), CompletionStored(key));
            && Answer(q, Status(key)) == Done && Answer(q, LinperfFileName(key)) == NotFound
            && Answer(After(q, FileNameStored(key, file)), LinperfFileName(key)) == FileName(file)
  {
    WithoutShrinks(p.workers, key);
  }
}
