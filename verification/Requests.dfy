/** What the messages of the controllers ask of the injector: the line protocol, the attribute encoding and the dispatch of
    the actions together. */
module Requests {
  import opened Text
  import opened Wire
  import opened Injector

  /** A request about a pod, with its attributes. */
  function Request(podName: string, podNamespace: string, script: string, action: string, a: Attributes): Message {
    Message(podName, podNamespace, script, action, EncodeLinperfAttr(a))
  }

  lemma UidArrives(a: Attributes)
    requires CleanText(a.uid) && CleanText(a.name)
    ensures var d := Decoded(Split(TrimSpaces(EncodeLinperfAttr(a)), '|')); "uid" in d && d["uid"] == a.uid
  {
    CleanDecodes(a);
  }

  /** Each action reaches the worker key of the pod, the namespace and the uid in the attributes; an action by another name
      is ignored. */
  lemma ActionReachesKey(podName: string, podNamespace: string, script: string, action: string, a: Attributes)
    requires podName != "" && podNamespace != "" && CleanText(a.uid) && CleanText(a.name)
    ensures var key := PodKey(podName, podNamespace, a.uid); var e := EventOf(Request(podName, podNamespace, script, action, a));
            && (e == Start(key) <==> action == "start") && (e == Complete(key) <==> action == "complete")
            && (e == Stop(key) <==> action == "stop") && (e == Status(key) <==> action == "status")
            && (e == LinperfFileName(key) <==> action == "linperfFileName")
            && (e.SetMaxWorkers? <==> action == "setMaxWorkers")
            && (e == Ignored <==> action !in {"start", "complete", "stop", "status", "linperfFileName", "setMaxWorkers"})
  {
    UidArrives(a);
  }

  /** A resize request asks for the number it was sent with, when that is between the bounds. */
  lemma ResizeArrives(podName: string, podNamespace: string, script: string, n: int)
    requires podName != "" && podNamespace != "" && -MAX_INT64 <= n <= MAX_INT64
    ensures EventOf(Message(podName, podNamespace, script, "setMaxWorkers", FormatInt(n))) == SetMaxWorkers(FormatInt(n))
    ensures Desired(FormatInt(n)) == if 1 <= n <= 100 then Some(n) else None
  {
    NumeralOfDecimal(if n < 0 then -n else n);
  }

  /** Without a pod name or a namespace nothing is asked. */
  lemma NobodyIsIgnored(m: Message)
    requires m.podName == "" || m.podNamespace == ""
    ensures EventOf(m) == Ignored
  {
  }
}
