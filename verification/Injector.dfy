/** The pod injector's worker pool (utils/socket/pod_injector.go): actions processed under a mutex, and completion
    callbacks that run outside it. */
module Injector {
  import opened Text
  import Wire

  const MIN_WORKERS := 1
  const MAX_WORKERS := 100

  /** `starting` is the key of the start action that holds the mutex while the pod copy is being launched; the callback
      of that very start may run before its worker is appended. */
  datatype Pool = Pool(workers: seq<string>, limit: int, completed: map<string, bool>, erroring: map<string, string>,
                       files: map<string, string>, starting: Option<string>)

  datatype Reply =
    | Writing | Idle | Done | TooManyWorkers | Failure(message: string)
    | UpdateSuccess | UpdateBusy | InvalidArgument | FileName(name: string) | NotFound | Silence

  datatype Event =
    // actions, processed while holding the mutex; a start ends with a separate step
    | SetMaxWorkers(payload: string) | Start(key: string) | Started(copied: bool) | Complete(key: string)
    | Stop(key: string) | Status(key: string) | LinperfFileName(key: string) | Ignored
    // the steps of completion callbacks, which do not take the mutex
    | WorkerRemoved(key: string) | CompletionStored(key: string) | FileNameStored(key: string, name: string)
    | ErrorStored(key: string, message: string)

  const INITIAL: Pool := Pool([], 10, map[], map[], map[], None)

  // ----- what each step does -----

  /** removeWorker: the first worker with the key goes. */
  function Without(workers: seq<string>, key: string): seq<string> {
    if workers == [] then []
    else if workers[0] == key then workers[1..]
    else [workers[0]] + Without(workers[1..], key)
  }

  function Max(a: int, b: int): int { if a >= b then a else b }

  /** The limit a payload asks for, if it is a number within bounds. */
  function Desired(payload: string): Option<int> {
    match Atoi(payload)
    case Some(d) => if MIN_WORKERS <= d <= MAX_WORKERS then Some(d) else None
    case None => None
  }

  predicate Waits(p: Pool, e: Event) { p.starting.Some? && (e.SetMaxWorkers? || e.Start? || e.Complete? || e.Stop?) }

  predicate Accepted(p: Pool, key: string) { p.starting.None? && key !in p.workers && |p.workers| < p.limit }

  function After(p: Pool, e: Event): Pool {
    if Waits(p, e) then p
    else
      match e
      case SetMaxWorkers(payload) =>
        (match Desired(payload)
         case Some(d) => if d == p.limit then p else p.(limit := Max(|p.workers|, d))
         case None => p)
      case Start(key) =>
        if !Accepted(p, key) then p
        else p.(completed := p.completed[key := false], files := p.files - {key}, starting := Some(key))
      case Started(copied) =>
        if p.starting.None? then p
        else p.(workers := if copied then p.workers + [p.starting.value] else p.workers, starting := None)
      case Complete(key) =>
        p.(workers := Without(p.workers, key), completed := p.completed - {key}, erroring := p.erroring - {key})
      case Stop(key) => p.(workers := Without(p.workers, key))
      case Status(_) => p
      case LinperfFileName(_) => p
      case Ignored => p
      case WorkerRemoved(key) => p.(workers := Without(p.workers, key))
      case CompletionStored(key) => p.(completed := p.completed[key := true])
      case FileNameStored(key, name) => p.(files := p.files[key := name])
      case ErrorStored(key, message) => p.(erroring := p.erroring[key := message])
  }

  /** The line written back to the client. */
  function Answer(p: Pool, e: Event): Reply {
    match e
    case SetMaxWorkers(payload) =>
      if Desired(payload).None? then InvalidArgument
      else if Desired(payload).value == After(p, e).limit then UpdateSuccess else UpdateBusy
    case Start(key) =>
      if key in p.workers then Writing else if |p.workers| >= p.limit then TooManyWorkers else Silence
    case Started(_) => if p.starting.Some? then Writing else Silence
    case Status(key) =>
      if key in p.workers then Writing
      else if key in p.erroring then Failure(p.erroring[key])
      else if key in p.completed && p.completed[key] then Done
      else if |p.workers| >= p.limit then TooManyWorkers
      else Idle
    case LinperfFileName(key) => if key in p.files then FileName(p.files[key]) else NotFound
    case _ => Silence
  }

  /** The event a message stands for: nothing happens without a pod name and a namespace, or for an unknown action. */
  function EventOf(m: Wire.Message): Event {
    if m.podName == "" || m.podNamespace == "" then Ignored
    else
      var attributes := Wire.Decoded(Split(TrimSpaces(m.payload), '|'));
      var key := Wire.PodKey(m.podName, m.podNamespace, if "uid" in attributes then attributes["uid"] else "");
      if m.action == "setMaxWorkers" then SetMaxWorkers(m.payload)
      else if m.action == "start" then Start(key)
      else if m.action == "complete" then Complete(key)
      else if m.action == "status" then Status(key)
      else if m.action == "linperfFileName" then LinperfFileName(key)
      else if m.action == "stop" then Stop(key)
      else Ignored
  }

  // ----- the server -----

  lemma {:induction false} WithoutAt(workers: seq<string>, i: nat, key: string)
    requires i < |workers| && workers[i] == key && key !in workers[..i]
    ensures Without(workers, key) == workers[..i] + workers[i + 1..]
  {
    if i > 0 {
      assert workers[0] == workers[..i][0];
      assert workers[1..][..i - 1] == workers[..i][1..];
      WithoutAt(workers[1..], i - 1, key);
      assert [workers[0]] + (workers[1..i] + workers[i + 1..]) == workers[..i] + workers[i + 1..];
    }
  }

  lemma {:induction false} WithoutAbsent(workers: seq<string>, key: string)
    requires key !in workers
    ensures Without(workers, key) == workers
  {
    if workers != [] { WithoutAbsent(workers[1..], key); }
  }

  class Server {
    var workers: seq<string>
    var currentMaxWorkers: int
    var completedPods: map<string, bool>
    var erroringPods: map<string, string>
    var linperfFileNames: map<string, string>
    var starting: Option<string>

    function State(): Pool
      reads this
    { Pool(workers, currentMaxWorkers, completedPods, erroringPods, linperfFileNames, starting) }

    constructor ()
      ensures State() == INITIAL
    {
      workers, currentMaxWorkers, starting := [], 10, None;
      completedPods, erroringPods, linperfFileNames := map[], map[], map[];
    }

    method HasWorker(podKey: string) returns (found: bool)
      ensures found == (podKey in workers)
    {
      for i := 0 to |workers|
        invariant podKey !in workers[..i]
      {
        if workers[i] == podKey { return true; }
      }
      found := false;
    }

    method RemoveWorker(podKey: string)
      modifies this`workers
      ensures workers == Without(old(workers), podKey)
    {
      var deleteIndex := -1;
      var i := 0;
      while i < |workers| && deleteIndex == -1
        invariant 0 <= i <= |workers|
        invariant deleteIndex == -1 ==> podKey !in workers[..i]
        invariant deleteIndex != -1 ==> 0 <= deleteIndex < |workers| && workers[deleteIndex] == podKey && podKey !in workers[..deleteIndex]
      {
        if workers[i] == podKey { deleteIndex := i; }
        i := i + 1;
      }
      if deleteIndex == -1 {
        WithoutAbsent(workers, podKey);
        return;
      }
      WithoutAt(workers, deleteIndex, podKey);
      workers := workers[..deleteIndex] + workers[deleteIndex + 1..];
    }

    method SetMaxWorkers(payload: string) returns (reply: Reply)
      requires starting.None?
      modifies this`currentMaxWorkers
      ensures State() == After(old(State()), Event.SetMaxWorkers(payload))
      ensures reply == Answer(old(State()), Event.SetMaxWorkers(payload))
    {
      var desiredWorkers := Atoi(payload);
      if desiredWorkers.None? || desiredWorkers.value < MIN_WORKERS || desiredWorkers.value > MAX_WORKERS {
        return InvalidArgument;
      }
      if desiredWorkers.value != currentMaxWorkers {
        var activeWorkers := |workers|;
        currentMaxWorkers := Max(activeWorkers, desiredWorkers.value);
      }
      reply := if desiredWorkers.value == currentMaxWorkers then UpdateSuccess else UpdateBusy;
    }

    /** A start up to the launch of the copy, and the rest of it, which still holds the mutex. */
    method Start(podKey: string) returns (reply: Reply)
      requires starting.None?
      modifies this
      ensures State() == After(old(State()), Event.Start(podKey)) && reply == Answer(old(State()), Event.Start(podKey))
    {
      var present := HasWorker(podKey);
      if present {
        return Writing;
      } else if |workers| >= currentMaxWorkers {
        return TooManyWorkers;
      }
      completedPods := completedPods[podKey := false];
      linperfFileNames := linperfFileNames - {podKey};
      starting := Some(podKey);
      reply := Silence;
    }

    method FinishStart(copied: bool) returns (reply: Reply)
      requires starting.Some?
      modifies this`workers, this`starting
      ensures State() == After(old(State()), Started(copied)) && reply == Writing
    {
      if copied {
        workers := workers + [starting.value];
      }
      starting := None;
      reply := Writing;
    }

    method Complete(podKey: string)
      requires starting.None?
      modifies this
      ensures State() == After(old(State()), Event.Complete(podKey))
    {
      RemoveWorker(podKey);
      completedPods := completedPods - {podKey};
      erroringPods := erroringPods - {podKey};
    }

    method GetStatus(podKey: string) returns (reply: Reply)
      ensures reply == Answer(State(), Event.Status(podKey))
    {
      var present := HasWorker(podKey);
      if present {
        return Writing;
      } else if podKey in erroringPods {
        return Failure(erroringPods[podKey]);
      } else if podKey in completedPods && completedPods[podKey] {
        return Done;
      } else if |workers| >= currentMaxWorkers {
        return TooManyWorkers;
      }
      reply := Idle;
    }

    /** processAction; a start that is accepted goes on with FinishStart. */
    method ProcessAction(m: Wire.Message) returns (reply: Reply)
      requires starting.None?
      modifies this
      ensures State() == After(old(State()), EventOf(m)) && reply == Answer(old(State()), EventOf(m))
    {
      reply := Silence;
      if |m.podName| == 0 || |m.podNamespace| == 0 { return; }
      var decoded := Wire.DecodeLinperfAttr(m.payload);
      var podKey := Wire.PodKey(m.podName, m.podNamespace, if "uid" in decoded then decoded["uid"] else "");
      if m.action == "setMaxWorkers" {
        reply := SetMaxWorkers(m.payload);
      } else if m.action == "start" {
        reply := Start(podKey);
      } else if m.action == "complete" {
        Complete(podKey);
      } else if m.action == "status" {
        reply := GetStatus(podKey);
      } else if m.action == "linperfFileName" {
        reply := if podKey in linperfFileNames then FileName(linperfFileNames[podKey]) else NotFound;
      } else if m.action == "stop" {
        RemoveWorker(podKey);
      }
    }
  }
}
