/** When a worker is active, failed or done, told by the events of a run: what starts and ends it in the injector's pool. */
module WorkerLaws {
  import opened Text
  import opened Injector
  import opened InjectorLaws
  import opened Moments

  // ----- departures -----

  /** The other workers, in their order. */
  function Others(workers: seq<string>, key: string): seq<string> {
    if workers == [] then []
    else (if workers[0] == key then [] else [workers[0]]) + Others(workers[1..], key)
  }

  lemma {:induction false} AbsentOthers(workers: seq<string>, key: string)
    requires key !in workers
    ensures Others(workers, key) == workers
  {
    if workers != [] { AbsentOthers(workers[1..], key); }
  }

  lemma {:induction false} WithoutIsOthers(workers: seq<string>, key: string)
    requires Distinct(workers)
    ensures Without(workers, key) == Others(workers, key)
  {
    if workers != [] {
      if workers[0] == key {
        assert key !in workers[1..];
        AbsentOthers(workers[1..], key);
      } else {
        WithoutIsOthers(workers[1..], key);
      }
    }
  }

  /** A complete leaves nothing of its key but a file name: no worker, no error, no completion. The others keep their order,
      and where the key had a worker its place is free, so that a start is accepted. */
  lemma CompleteFrees(p: Pool, key: string)
    requires Bounded(p) && p.starting.None?
    ensures var q := After(p, Complete(key));
            && q.workers == Others(p.workers, key) && key !in q.workers && key !in q.erroring && key !in q.completed
            && (key in p.workers ==> |q.workers| + 1 == |p.workers| && Accepted(q, key))
            && q.limit == p.limit && q.files == p.files && q.starting.None?
            && (forall k :: k != key ==> (k in q.erroring <==> k in p.erroring) && (k in q.completed <==> k in p.completed))
  {
    WithoutShrinks(p.workers, key);
    WithoutIsOthers(p.workers, key);
  }

  /** A stop frees the place too, and leaves what is known of the key. */
  lemma StopFrees(p: Pool, key: string)
    requires Bounded(p) && p.starting.None?
    ensures var q := After(p, Stop(key));
            && q == p.(workers := Others(p.workers, key)) && key !in q.workers
            && (key in p.workers ==> |q.workers| + 1 == |p.workers| && Accepted(q, key))
  {
    WithoutShrinks(p.workers, key);
    WithoutIsOthers(p.workers, key);
  }

  /** So does the first step of a callback, which does not wait for a start in progress. */
  lemma CallbackFrees(p: Pool, key: string)
    requires Bounded(p)
    ensures var q := After(p, WorkerRemoved(key));
            q == p.(workers := Others(p.workers, key)) && key !in q.workers && (key in p.workers ==> |q.workers| + 1 == |p.workers|)
  {
    WithoutShrinks(p.workers, key);
    WithoutIsOthers(p.workers, key);
  }

  /** While a start is in progress, the actions that need the mutex wait: they change nothing. */
  lemma MutexWaits(p: Pool, e: Event)
    requires p.starting.Some? && (e.SetMaxWorkers? || e.Start? || e.Complete? || e.Stop?)
    ensures After(p, e) == p
  {
  }

  /** A start is answered by silence exactly when it is accepted; otherwise the key is active already, or there is no place. */
  lemma StartAnswers(p: Pool, key: string)
    requires p.starting.None?
    ensures Answer(p, Start(key)) == Silence <==> Accepted(p, key)
    ensures Answer(p, Start(key)) == Writing <==> key in p.workers
    ensures Answer(p, Start(key)) == TooManyWorkers <==> key !in p.workers && |p.workers| >= p.limit
    ensures Accepted(p, key) <==> After(p, Start(key)).starting == Some(key)
    ensures !Accepted(p, key) ==> After(p, Start(key)) == p
  {
  }

  /** A start that was accepted ends with one more worker at the end, when the copy to the pod was launched, or with none. */
  lemma LaunchAppends(p: Pool, copied: bool)
    requires p.starting.Some?
    ensures After(p, Started(copied)) == p.(workers := p.workers + (if copied then [p.starting.value] else []), starting := None)
    ensures Answer(p, Started(copied)) == Writing
  {
    assert p.workers + [] == p.workers;
  }

  // ----- what starts and ends what -----

  predicate Launches(p: Pool, e: Event, key: string) { e == Started(true) && p.starting == Some(key) }

  predicate Ends(p: Pool, e: Event, key: string) {
    e == WorkerRemoved(key) || (!Waits(p, e) && (e == Complete(key) || e == Stop(key)))
  }

  predicate Forgets(p: Pool, e: Event, key: string) { !Waits(p, e) && e == Complete(key) }

  predicate Restarts(p: Pool, e: Event, key: string) { !Waits(p, e) && e == Start(key) && Accepted(p, key) }

  lemma WorkerAfter(p: Pool, e: Event, key: string)
    requires Bounded(p)
    ensures key in After(p, e).workers <==> Launches(p, e, key) || (key in p.workers && !Ends(p, e, key))
  {
    if e.Complete? || e.Stop? || e.WorkerRemoved? { WithoutShrinks(p.workers, e.key); }
  }

  lemma StartingAfter(p: Pool, e: Event, key: string)
    ensures After(p, e).starting == Some(key) <==> Restarts(p, e, key) || (p.starting == Some(key) && !e.Started?)
  {
  }

  predicate HasError(p: Pool, key: string, message: string) { key in p.erroring && p.erroring[key] == message }

  lemma ErrorAfter(p: Pool, e: Event, key: string, message: string)
    ensures HasError(After(p, e), key, message)
            <==> e == ErrorStored(key, message)
                 || (HasError(p, key, message) && !(Forgets(p, e, key) || (e.ErrorStored? && e.key == key)))
  {
  }

  predicate HasFile(p: Pool, key: string, name: string) { key in p.files && p.files[key] == name }

  lemma FileAfter(p: Pool, e: Event, key: string, name: string)
    ensures HasFile(After(p, e), key, name)
            <==> e == FileNameStored(key, name)
                 || (HasFile(p, key, name) && !(Restarts(p, e, key) || (e.FileNameStored? && e.key == key)))
  {
  }

  // ----- over runs -----

  function PoolAt(events: seq<Event>, n: nat): Pool { if n <= |events| then Run(events[..n]) else INITIAL }

  lemma NextPool(events: seq<Event>, n: nat)
    requires n < |events|
    ensures PoolAt(events, n + 1) == After(PoolAt(events, n), events[n])
  {
    assert events[..n + 1][..n] == events[..n];
  }

  lemma WholePool(events: seq<Event>)
    ensures PoolAt(events, |events|) == Run(events)
  {
    assert events[..|events|] == events;
  }

  ghost predicate ActiveSince(events: seq<Event>, key: string) {
    Since((j: nat) => j < |events| && Launches(PoolAt(events, j), events[j], key),
          (j: nat) => j < |events| && Ends(PoolAt(events, j), events[j], key), |events|)
  }

  /** A key has a worker exactly when a start of it was launched and, since then, no complete or stop of it was carried out
      and no callback of it ran. */
  lemma WorkerExactly(events: seq<Event>, key: string)
    ensures key in Run(events).workers <==> ActiveSince(events, key)
  {
    var sets := (j: nat) => j < |events| && Launches(PoolAt(events, j), events[j], key);
    var unsets := (j: nat) => j < |events| && Ends(PoolAt(events, j), events[j], key);
    var holds := (j: nat) => key in PoolAt(events, j).workers;
    forall k: nat | k < |events| ensures holds(k + 1) <==> sets(k) || (holds(k) && !unsets(k)) {
      NextPool(events, k);
      AlwaysBounded(events[..k]);
      WorkerAfter(PoolAt(events, k), events[k], key);
    }
    WholePool(events);
    HoldsSince(holds, sets, unsets, |events|);
  }

  ghost predicate FailedSince(events: seq<Event>, key: string, message: string) {
    Since((j: nat) => j < |events| && events[j] == ErrorStored(key, message),
          (j: nat) => j < |events| && (Forgets(PoolAt(events, j), events[j], key) || (events[j].ErrorStored? && events[j].key == key)),
          |events|)
  }

  /** The recorded error of a key is the last one stored, unless a complete was carried out since. */
  lemma ErrorExactly(events: seq<Event>, key: string, message: string)
    ensures HasError(Run(events), key, message) <==> FailedSince(events, key, message)
  {
    var sets := (j: nat) => j < |events| && events[j] == ErrorStored(key, message);
    var unsets := (j: nat) => j < |events| && (Forgets(PoolAt(events, j), events[j], key) || (events[j].ErrorStored? && events[j].key == key));
    var holds := (j: nat) => HasError(PoolAt(events, j), key, message);
    forall k: nat | k < |events| ensures holds(k + 1) <==> sets(k) || (holds(k) && !unsets(k)) {
      NextPool(events, k);
      ErrorAfter(PoolAt(events, k), events[k], key, message);
    }
    WholePool(events);
    HoldsSince(holds, sets, unsets, |events|);
  }

  ghost predicate FiledSince(events: seq<Event>, key: string, name: string) {
    Since((j: nat) => j < |events| && events[j] == FileNameStored(key, name),
          (j: nat) => j < |events| && (Restarts(PoolAt(events, j), events[j], key) || (events[j].FileNameStored? && events[j].key == key)),
          |events|)
  }

  /** The file name of a key is the last one stored, unless a start was accepted since; a complete leaves it. */
  lemma FileExactly(events: seq<Event>, key: string, name: string)
    ensures HasFile(Run(events), key, name) <==> FiledSince(events, key, name)
  {
    var sets := (j: nat) => j < |events| && events[j] == FileNameStored(key, name);
    var unsets := (j: nat) => j < |events| && (Restarts(PoolAt(events, j), events[j], key) || (events[j].FileNameStored? && events[j].key == key));
    var holds := (j: nat) => HasFile(PoolAt(events, j), key, name);
    forall k: nat | k < |events| ensures holds(k + 1) <==> sets(k) || (holds(k) && !unsets(k)) {
      NextPool(events, k);
      FileAfter(PoolAt(events, k), events[k], key, name);
    }
    WholePool(events);
    HoldsSince(holds, sets, unsets, |events|);
  }

  ghost predicate StartingSince(events: seq<Event>, key: string) {
    Since((j: nat) => j < |events| && Restarts(PoolAt(events, j), events[j], key), (j: nat) => j < |events| && events[j].Started?, |events|)
  }

  /** A start is in progress exactly when one was accepted and its outcome is not known yet. */
  lemma StartingExactly(events: seq<Event>, key: string)
    ensures Run(events).starting == Some(key) <==> StartingSince(events, key)
  {
    var sets := (j: nat) => j < |events| && Restarts(PoolAt(events, j), events[j], key);
    var unsets := (j: nat) => j < |events| && events[j].Started?;
    var holds := (j: nat) => PoolAt(events, j).starting == Some(key);
    forall k: nat | k < |events| ensures holds(k + 1) <==> sets(k) || (holds(k) && !unsets(k)) {
      NextPool(events, k);
      StartingAfter(PoolAt(events, k), events[k], key);
    }
    WholePool(events);
    HoldsSince(holds, sets, unsets, |events|);
  }

  // ----- what a client is told -----

  /** The answer to a status request, by what happened to the key: active, failed, done, or neither. */
  lemma StatusExactly(events: seq<Event>, key: string)
    ensures var r := Answer(Run(events), Status(key)); var full := |Run(events).workers| >= Run(events).limit;
            && (r == Writing <==> ActiveSince(events, key))
            && (forall m :: r == Failure(m) <==> !ActiveSince(events, key) && FailedSince(events, key, m))
            && (r == Done <==> !ActiveSince(events, key) && (forall m :: !FailedSince(events, key, m)) && CompletedSince(events, key))
            && (r == TooManyWorkers || r == Idle
                <==> !ActiveSince(events, key) && (forall m :: !FailedSince(events, key, m)) && !CompletedSince(events, key))
            && (r == TooManyWorkers ==> full) && (r == Idle ==> !full)
  {
    WorkerExactly(events, key);
    forall m ensures HasError(Run(events), key, m) <==> FailedSince(events, key, m) { ErrorExactly(events, key, m); }
    MarkedExactly(events, key);
    ByPool(Run(events), key);
  }

  lemma ByPool(p: Pool, key: string)
    ensures var r := Answer(p, Status(key)); var full := |p.workers| >= p.limit;
            && (r == Writing <==> key in p.workers) && (forall m :: r == Failure(m) <==> key !in p.workers && HasError(p, key, m))
            && (key !in p.erroring <==> forall m :: !HasError(p, key, m))
            && (r == Done <==> key !in p.workers && key !in p.erroring && Marked(p, key))
            && (r == TooManyWorkers || r == Idle <==> key !in p.workers && key !in p.erroring && !Marked(p, key))
            && (r == TooManyWorkers ==> full) && (r == Idle ==> !full)
  {
    if key in p.erroring { assert HasError(p, key, p.erroring[key]); }
  }

  /** The answer to the question for the file name. */
  lemma FileAnswerExactly(events: seq<Event>, key: string, name: string)
    ensures Answer(Run(events), LinperfFileName(key)) == FileName(name) <==> FiledSince(events, key, name)
  {
    FileExactly(events, key, name);
  }

  // ----- the limit -----

  /** No request among the events asks for a number within the bounds. */
  predicate NobodyResizes(events: seq<Event>) {
    forall i :: 0 <= i < |events| && events[i].SetMaxWorkers? ==> Desired(events[i].payload).None?
  }

  /** Until a valid request the limit is 10. */
  lemma {:induction false} LimitIsTen(events: seq<Event>)
    requires NobodyResizes(events)
    ensures Run(events).limit == 10
  {
    if events != [] {
      var n := |events| - 1;
      assert forall i :: 0 <= i < n ==> events[..n][i] == events[i];
      LimitIsTen(events[..n]);
    }
  }
}
