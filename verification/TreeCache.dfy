/** The in-memory cache of parsed decision trees (utils/tree/cache.go) and its use by ParseDecisionTree
    (utils/tree/tree.go). Maps are heap objects, since clearing the cache empties maps handed out earlier. */
module TreeCache {
  import opened Text
  import DecisionTree
  import Migration
  import opened Moments

  class TreeMap {
    var entries: DecisionTree.Tree

    constructor (t: DecisionTree.Tree)
      ensures entries == t
    { entries := t; }
  }

  class ReplaceMap {
    var entries: Migration.ReplaceMap

    constructor (r: Migration.ReplaceMap)
      ensures entries == r
    { entries := r; }
  }

  datatype CacheRecord = CacheRecord(fileName: string, lastModifiedTime: int)

  /** The maps of one decision tree; either may be nil. */
  datatype CachedTree = CachedTree(treeMap: TreeMap?, replaceMap: ReplaceMap?)

  /** What reading, unmarshalling, casting and validating a file gives. */
  datatype Parsed = Parsed(tree: DecisionTree.Tree, replace: Migration.ReplaceMap)

  ghost function Objects(t: CachedTree): set<object> {
    (if t.treeMap == null then {} else {t.treeMap as object}) + (if t.replaceMap == null then {} else {t.replaceMap as object})
  }

  ghost predicate Holds(t: CachedTree, p: Parsed)
    reads Objects(t)
  {
    (t.treeMap != null ==> t.treeMap.entries == p.tree) && (t.replaceMap != null ==> t.replaceMap.entries == p.replace)
  }

  const NOTHING: Parsed := Parsed([], map[])

  /** decisionTree.clear: deletes every key of both maps, in place. */
  method ClearTree(t: CachedTree)
    modifies Objects(t)
    ensures Holds(t, NOTHING)
  {
    if t.treeMap != null { t.treeMap.entries := []; }
    if t.replaceMap != null { t.replaceMap.entries := map[]; }
  }

  /** Reading the file, into new maps; nothing on an error. */
  method ReadTree(parse: (string, int) -> Option<Parsed>, treeFileName: string, lastModifiedTime: int) returns (t: CachedTree)
    ensures fresh(Objects(t))
    ensures Answers(t, parse(treeFileName, lastModifiedTime))
  {
    var parsed := parse(treeFileName, lastModifiedTime);
    if parsed.None? { return CachedTree(null, null); }
    var treeMap := new TreeMap(parsed.value.tree);
    var replaceMap := new ReplaceMap(parsed.value.replace);
    t := CachedTree(treeMap, replaceMap);
  }

  /** The maps are there and hold the parsed tree, or there is neither. */
  ghost predicate Answers(t: CachedTree, u: Option<Parsed>)
    reads Objects(t)
  {
    if u.Some? then t.treeMap != null && t.replaceMap != null && Holds(t, u.value) else t == CachedTree(null, null)
  }

  class DecisionTreeCache {
    var decisionTrees: map<string, CachedTree>
    var decisionTreeRecords: map<string, CacheRecord>

    /** The map objects the cache refers to. */
    ghost function Maps(): set<object>
      reads this
    {
      set k, o | k in decisionTrees && o in Objects(decisionTrees[k]) :: o
    }

    /** Every cached tree has a record, and its maps hold what parsing the recorded file gives. */
    ghost predicate Valid(parse: (string, int) -> Option<Parsed>)
      reads this, Maps()
    {
      forall k :: k in decisionTrees ==> k in decisionTreeRecords && Matches(k, parse)
    }

    ghost predicate Matches(k: string, parse: (string, int) -> Option<Parsed>)
      requires k in decisionTrees && k in decisionTreeRecords
      reads this, Objects(decisionTrees[k])
    {
      var r := decisionTreeRecords[k];
      parse(r.fileName, r.lastModifiedTime).Some? && Holds(decisionTrees[k], parse(r.fileName, r.lastModifiedTime).value)
    }

    constructor ()
      ensures decisionTrees == map[] && decisionTreeRecords == map[]
    {
      decisionTrees, decisionTreeRecords := map[], map[];
    }

    /** Empties every cached map, whoever else holds it, and forgets the trees; the records stay. */
    method PerformCacheClear()
      modifies this`decisionTrees, Maps()
      ensures decisionTrees == map[] && Maps() == {}
      ensures forall k :: k in old(decisionTrees) ==> Holds(old(decisionTrees)[k], NOTHING)
    {
      var keys := decisionTrees.Keys;
      while keys != {}
        invariant keys <= decisionTrees.Keys
        invariant forall k :: k in decisionTrees && k !in keys ==> Holds(decisionTrees[k], NOTHING)
        invariant decisionTrees == old(decisionTrees)
      {
        var key :| key in keys;
        ClearTree(decisionTrees[key]);
        keys := keys - {key};
      }
      decisionTrees := map[];
    }

    ghost predicate Recorded(key: string, treeFileName: string, lastModifiedTime: int)
      reads this
    { key in decisionTreeRecords && decisionTreeRecords[key] == CacheRecord(treeFileName, lastModifiedTime) }

    /** Maps: with a matching record, the cached maps themselves; with another record, nothing, and the whole cache is
        cleared. What a hit returns holds exactly what a fresh parse would give. */
    method Lookup(ghost parse: (string, int) -> Option<Parsed>, key: string, treeFileName: string, lastModifiedTime: int)
      returns (t: CachedTree)
      requires Valid(parse)
      modifies this`decisionTrees, Maps()
      ensures Valid(parse) && Maps() <= old(Maps()) && Objects(t) <= Maps()
      ensures t == if old(Recorded(key, treeFileName, lastModifiedTime)) && key in old(decisionTrees)
                   then old(decisionTrees)[key] else CachedTree(null, null)
      ensures if key in decisionTreeRecords && !old(Recorded(key, treeFileName, lastModifiedTime))
              then decisionTrees == map[] && forall k :: k in old(decisionTrees) ==> Holds(old(decisionTrees)[k], NOTHING)
              else decisionTrees == old(decisionTrees)
      ensures t != CachedTree(null, null)
              ==> parse(treeFileName, lastModifiedTime).Some? && Holds(t, parse(treeFileName, lastModifiedTime).value)
    {
      t := CachedTree(null, null);
      if key !in decisionTreeRecords { return; }
      var r := decisionTreeRecords[key];
      if r.fileName != treeFileName || r.lastModifiedTime != lastModifiedTime {
        PerformCacheClear();
        return;
      }
      if key in decisionTrees {
        t := decisionTrees[key];
      }
    }

    method SetDecisionTree(ghost parse: (string, int) -> Option<Parsed>, key: string, t: CachedTree, treeFileName: string, lastModifiedTime: int)
      requires Valid(parse)
      requires parse(treeFileName, lastModifiedTime).Some? && Holds(t, parse(treeFileName, lastModifiedTime).value)
      modifies this
      ensures decisionTrees == old(decisionTrees)[key := t]
      ensures decisionTreeRecords == old(decisionTreeRecords)[key := CacheRecord(treeFileName, lastModifiedTime)]
      ensures Valid(parse) && Maps() <= old(Maps()) + Objects(t)
    {
      decisionTrees := decisionTrees[key := t];
      decisionTreeRecords := decisionTreeRecords[key := CacheRecord(treeFileName, lastModifiedTime)];
    }

    method ReadIntoCache(parse: (string, int) -> Option<Parsed>, key: string, treeFileName: string, lastModifiedTime: int)
      returns (t: CachedTree)
      requires Valid(parse)
      modifies this
      ensures Valid(parse) && fresh(Objects(t)) && Maps() <= old(Maps()) + Objects(t)
      ensures Answers(t, parse(treeFileName, lastModifiedTime))
      ensures t != CachedTree(null, null)
              ==> key in decisionTrees && decisionTrees[key] == t && Recorded(key, treeFileName, lastModifiedTime)
    {
      t := ReadTree(parse, treeFileName, lastModifiedTime);
      if t.treeMap != null {
        SetDecisionTree(parse, key, t, treeFileName, lastModifiedTime);
      }
    }

    /** The part of ParseDecisionTree for a file whose modification time is known. */
    method ParseThroughCache(parse: (string, int) -> Option<Parsed>, key: string, treeFileName: string, lastModifiedTime: int)
      returns (t: CachedTree)
      requires Valid(parse)
      modifies this, Maps()
      ensures Valid(parse) && fresh(Maps() - old(Maps()))
      ensures Answers(t, parse(treeFileName, lastModifiedTime))
      ensures t != CachedTree(null, null)
              ==> key in decisionTrees && decisionTrees[key] == t && Recorded(key, treeFileName, lastModifiedTime)
    {
      t := Lookup(parse, key, treeFileName, lastModifiedTime);
      ghost var maps := Maps();
      if t.treeMap == null || t.replaceMap == null {
        t := ReadIntoCache(parse, key, treeFileName, lastModifiedTime);
        assert Maps() <= maps + Objects(t);
      }
    }

    /** ParseDecisionTree: `stat` is what asking for the modification time of a named file gives. */
    method ParseDecisionTree(parse: (string, int) -> Option<Parsed>, leaderTrackerType: string, fileName: Option<string>, stat: Option<int>)
      returns (t: CachedTree)
      requires Valid(parse)
      modifies this, Maps()
      ensures Valid(parse) && fresh(Maps() - old(Maps()))
      ensures Answers(t, Uncached(parse, Parse(leaderTrackerType, fileName, stat)))
      ensures stat.Some? && fileName.Some? && stat.value != -1 && t != CachedTree(null, null)
              ==> leaderTrackerType in decisionTrees && decisionTrees[leaderTrackerType] == t
                  && Recorded(leaderTrackerType, fileName.value, stat.value)
    {
      t := CachedTree(null, null);
      var treeFileName := if fileName.Some? then fileName.value else DefaultFileName(leaderTrackerType);
      var lastModifiedTime := -1;
      if fileName.Some? {
        if stat.None? { return; }
        lastModifiedTime := stat.value;
      }
      if lastModifiedTime != -1 {
        t := ParseThroughCache(parse, leaderTrackerType, treeFileName, lastModifiedTime);
      } else {
        t := ReadTree(parse, treeFileName, lastModifiedTime);
      }
    }

    /** One request against the cache, with the contents of the maps it gets. */
    method Answer(parse: (string, int) -> Option<Parsed>, r: Request) returns (answer: Option<Parsed>)
      requires Valid(parse)
      modifies this, Maps()
      ensures Valid(parse) && fresh(Maps() - old(Maps())) && answer == Uncached(parse, r)
    {
      match r
      case Clear =>
        PerformCacheClear();
        answer := None;
      case Parse(kind, fileName, stat) =>
        var t := ParseDecisionTree(parse, kind, fileName, stat);
        if t.treeMap == null || t.replaceMap == null { return None; }
        answer := Some(Parsed(t.treeMap.entries, t.replaceMap.entries));
    }
  }

  // ----- runs -----

  datatype Request = Parse(leaderTrackerType: string, fileName: Option<string>, stat: Option<int>) | Clear

  function DefaultFileName(leaderTrackerType: string): string {
    "internal/controller/assets/" + leaderTrackerType + "-decision-tree.yaml"
  }

  /** What a request gives without a cache. */
  function Uncached(parse: (string, int) -> Option<Parsed>, r: Request): Option<Parsed> {
    match r
    case Clear => None
    case Parse(kind, None, _) => parse(DefaultFileName(kind), -1)
    case Parse(_, Some(_), None) => None
    case Parse(_, Some(f), Some(time)) => parse(f, time)
  }

  /** Over any run of requests, every answer holds what parsing afresh would give at that moment. */
  method Serve(parse: (string, int) -> Option<Parsed>, requests: seq<Request>) returns (answers: seq<Option<Parsed>>)
    ensures |answers| == |requests|
    ensures forall i :: 0 <= i < |requests| ==> answers[i] == Uncached(parse, requests[i])
  {
    var cache := new DecisionTreeCache();
    answers := [];
    for i := 0 to |requests|
      invariant fresh(cache) && fresh(cache.Maps()) && cache.Valid(parse)
      invariant |answers| == i && forall j :: 0 <= j < i ==> answers[j] == Uncached(parse, requests[j])
    {
      var answer := cache.Answer(parse, requests[i]);
      answers := answers + [answer];
    }
  }

  // ----- interleaved parses -----

  /** The steps of many parses at once: a parse locks the cache for its lookup, reads the file without the lock on a miss,
      and locks it again to store what it read. Clears come in between. */
  datatype Step =
    | Look(worker: nat, key: string, fileName: string, time: int)
    | Store(worker: nat)
    | ClearAll

  /** What a step gives its worker: the contents of its maps at that moment, nothing yet, or an error. */
  datatype Progress = Contents(fileName: string, time: int, parsed: Parsed) | Reading | Failed | Idle

  datatype Miss = Miss(key: string, fileName: string, time: int)

  /** The cache without its maps: the records, the keys with a cached tree, and what each worker has read and not stored. */
  datatype View = View(records: map<string, CacheRecord>, cached: set<string>, waiting: map<nat, Miss>)

  const NOTHING_SEEN: View := View(map[], {}, map[])

  predicate Hits(v: View, key: string, fileName: string, time: int) {
    key in v.cached && key in v.records && v.records[key] == CacheRecord(fileName, time)
  }

  /** A lookup with another record than the one of its key. */
  predicate Mismatch(v: View, key: string, fileName: string, time: int) {
    key in v.records && v.records[key] != CacheRecord(fileName, time)
  }

  /** The step empties the cache. */
  predicate Clears(v: View, step: Step) {
    step.ClearAll? || (step.Look? && Mismatch(v, step.key, step.fileName, step.time))
  }

  function Fresh(parse: (string, int) -> Option<Parsed>, fileName: string, time: int): Progress {
    match parse(fileName, time)
    case Some(parsed) => Contents(fileName, time, parsed)
    case None => Failed
  }

  /** What each step answers. */
  function Reply(v: View, step: Step, parse: (string, int) -> Option<Parsed>): Progress {
    match step
    case Look(_, key, fileName, time) =>
      if Hits(v, key, fileName, time) || Fresh(parse, fileName, time).Failed? then Fresh(parse, fileName, time) else Reading
    case Store(w) => if w in v.waiting then Fresh(parse, v.waiting[w].fileName, v.waiting[w].time) else Idle
    case ClearAll => Idle
  }

  function Moved(v: View, step: Step, parse: (string, int) -> Option<Parsed>): View {
    match step
    case Look(w, key, fileName, time) =>
      View(v.records, if Clears(v, step) then {} else v.cached,
           if Reply(v, step, parse) == Reading then v.waiting[w := Miss(key, fileName, time)] else v.waiting)
    case Store(w) =>
      if w !in v.waiting then v
      else
        var m := v.waiting[w];
        View(v.records[m.key := CacheRecord(m.fileName, m.time)], v.cached + {m.key}, v.waiting - {w})
    case ClearAll => v.(cached := {})
  }

  function ViewAt(steps: seq<Step>, n: nat, parse: (string, int) -> Option<Parsed>): View
    requires n <= |steps|
  {
    if n == 0 then NOTHING_SEEN else Moved(ViewAt(steps, n - 1, parse), steps[n - 1], parse)
  }

  function ReplyAt(steps: seq<Step>, n: nat, parse: (string, int) -> Option<Parsed>): Progress
    requires n < |steps|
  { Reply(ViewAt(steps, n, parse), steps[n], parse) }

  // ----- the maps behind the view -----

  /** A worker that has read a file and not stored it yet; nobody else holds its maps. */
  datatype Pending = Pending(miss: Miss, t: CachedTree)

  ghost function PendingObjects(pending: map<nat, Pending>): set<object> {
    set w, o | w in pending && o in Objects(pending[w].t) :: o
  }

  ghost predicate Waits(p: Pending, parse: (string, int) -> Option<Parsed>)
    reads Objects(p.t)
  { Answers(p.t, parse(p.miss.fileName, p.miss.time)) && p.t.treeMap != null }

  ghost predicate Apart(pending: map<nat, Pending>) {
    forall v, w :: v in pending && w in pending && v != w ==> Objects(pending[v].t) !! Objects(pending[w].t)
  }

  ghost predicate PendingOk(pending: map<nat, Pending>, parse: (string, int) -> Option<Parsed>)
    reads PendingObjects(pending)
  {
    (forall w :: w in pending ==> Waits(pending[w], parse)) && Apart(pending)
  }

  /** The view is that of the cache and of the workers that wait. */
  ghost predicate Shows(cache: DecisionTreeCache, pending: map<nat, Pending>, v: View)
    reads cache
  {
    CacheShows(cache, v) && WaitersShow(pending, v.waiting)
  }

  ghost predicate WaitersShow(pending: map<nat, Pending>, waiting: map<nat, Miss>) {
    pending.Keys == waiting.Keys && forall w :: w in pending ==> pending[w].miss == waiting[w]
  }

  lemma WaitersChange(pending: map<nat, Pending>, waiting: map<nat, Miss>, w: nat, p: Pending)
    requires WaitersShow(pending, waiting)
    ensures WaitersShow(pending[w := p], waiting[w := p.miss]) && WaitersShow(pending - {w}, waiting - {w})
  {
  }

  ghost predicate CacheShows(cache: DecisionTreeCache, v: View)
    reads cache
  {
    && cache.decisionTreeRecords == v.records && cache.decisionTrees.Keys == v.cached
    && forall k :: k in cache.decisionTrees ==> cache.decisionTrees[k].treeMap != null && cache.decisionTrees[k].replaceMap != null
  }

  /** A lookup under the lock, with the contents of the maps it hits. */
  method LookupContents(cache: DecisionTreeCache, parse: (string, int) -> Option<Parsed>, key: string, fileName: string, time: int,
                        ghost v: View)
    returns (found: Option<Parsed>)
    requires cache.Valid(parse) && CacheShows(cache, v)
    modifies cache`decisionTrees, cache.Maps()
    ensures cache.Valid(parse) && cache.Maps() <= old(cache.Maps())
    ensures found == if Hits(v, key, fileName, time) then parse(fileName, time) else None
    ensures Hits(v, key, fileName, time) ==> found.Some?
    ensures CacheShows(cache, v.(cached := if Mismatch(v, key, fileName, time) then {} else v.cached))
  {
    var t := cache.Lookup(parse, key, fileName, time);
    if t.treeMap == null || t.replaceMap == null { return None; }
    found := Some(Parsed(t.treeMap.entries, t.replaceMap.entries));
  }

  lemma InPending(pending: map<nat, Pending>, w: nat)
    requires w in pending
    ensures Objects(pending[w].t) <= PendingObjects(pending)
  {
    forall o | o in Objects(pending[w].t) ensures o in PendingObjects(pending) {}
  }

  lemma ObjectsGrow(pending: map<nat, Pending>, w: nat, p: Pending)
    ensures PendingObjects(pending[w := p]) <= PendingObjects(pending) + Objects(p.t)
  {
    forall o | o in PendingObjects(pending[w := p]) ensures o in PendingObjects(pending) + Objects(p.t) {
      var v :| v in pending[w := p] && o in Objects(pending[w := p][v].t);
      if v != w { InPending(pending, v); }
    }
  }

  lemma AllApart(pending: map<nat, Pending>, w: nat, p: Pending, u: nat, v: nat)
    requires Apart(pending) && Objects(p.t) !! PendingObjects(pending)
    requires u in pending[w := p] && v in pending[w := p] && u != v
    ensures Objects(pending[w := p][u].t) !! Objects(pending[w := p][v].t)
  {
    if u == w {
      InPending(pending, v);
    } else if v == w {
      InPending(pending, u);
    } else {
      assert pending[w := p][u] == pending[u] && pending[w := p][v] == pending[v];
    }
  }

  /** New maps nobody else holds may wait beside the others. */
  lemma PendingGrows(pending: map<nat, Pending>, w: nat, p: Pending, parse: (string, int) -> Option<Parsed>)
    requires PendingOk(pending, parse) && Objects(p.t) !! PendingObjects(pending) && Waits(p, parse)
    ensures PendingOk(pending[w := p], parse) && PendingObjects(pending[w := p]) <= PendingObjects(pending) + Objects(p.t)
  {
    ObjectsGrow(pending, w, p);
    var grown := pending[w := p];
    forall u, v | u in grown && v in grown && u != v ensures Objects(grown[u].t) !! Objects(grown[v].t) {
      AllApart(pending, w, p, u, v);
    }
  }

  /** A lookup, and on a miss the reading of the file into new maps. */
  method LookStep(cache: DecisionTreeCache, parse: (string, int) -> Option<Parsed>, key: string, fileName: string, time: int,
                  ghost v: View, ghost w: nat)
    returns (a: Progress, p: Pending)
    requires cache.Valid(parse) && CacheShows(cache, v)
    modifies cache`decisionTrees, cache.Maps()
    ensures cache.Valid(parse) && cache.Maps() <= old(cache.Maps())
    ensures a == Reply(v, Look(w, key, fileName, time), parse)
    ensures CacheShows(cache, Moved(v, Look(w, key, fileName, time), parse))
    ensures a == Reading ==> Waits(p, parse) && fresh(Objects(p.t)) && p.miss == Miss(key, fileName, time)
  {
    p := Pending(Miss(key, fileName, time), CachedTree(null, null));
    var found := LookupContents(cache, parse, key, fileName, time, v);
    if found.Some? { return Contents(fileName, time, found.value), p; }
    var t := ReadTree(parse, fileName, time);
    if t.treeMap == null { return Failed, p; }
    a, p := Reading, Pending(Miss(key, fileName, time), t);
  }

  /** Storing what a worker has read. */
  method StoreStep(cache: DecisionTreeCache, parse: (string, int) -> Option<Parsed>, p: Pending, ghost v: View, ghost w: nat)
    returns (a: Progress)
    requires cache.Valid(parse) && Waits(p, parse) && cache !in Objects(p.t)
    requires CacheShows(cache, v) && w in v.waiting && v.waiting[w] == p.miss
    modifies cache
    ensures cache.Valid(parse) && cache.Maps() <= old(cache.Maps()) + Objects(p.t)
    ensures a == Reply(v, Store(w), parse) && CacheShows(cache, Moved(v, Store(w), parse))
  {
    var m := p.miss;
    a := Contents(m.fileName, m.time, Parsed(p.t.treeMap.entries, p.t.replaceMap.entries));
    cache.SetDecisionTree(parse, m.key, p.t, m.fileName, m.time);
  }

  /** The cache is valid, and the maps of the workers that wait are nobody else's. */
  ghost predicate Sound(cache: DecisionTreeCache, pending: map<nat, Pending>, parse: (string, int) -> Option<Parsed>)
    reads cache, cache.Maps(), PendingObjects(pending)
  {
    cache.Valid(parse) && PendingOk(pending, parse) && PendingObjects(pending) !! cache.Maps() && cache !in PendingObjects(pending)
  }

  lemma StoredApart(pending: map<nat, Pending>, w: nat)
    requires Apart(pending) && w in pending
    ensures Objects(pending[w].t) <= PendingObjects(pending) && PendingObjects(pending - {w}) <= PendingObjects(pending)
    ensures PendingObjects(pending - {w}) !! Objects(pending[w].t)
  {
    InPending(pending, w);
    forall o | o in PendingObjects(pending - {w}) ensures o in PendingObjects(pending) && o !in Objects(pending[w].t) {
      var v :| v in pending - {w} && o in Objects((pending - {w})[v].t);
      InPending(pending, v);
    }
  }

  /** As Sound, with the map objects of the cache and of the waiting workers among `held`. */
  ghost predicate SoundWithin(cache: DecisionTreeCache, pending: map<nat, Pending>, held: set<object>, parse: (string, int) -> Option<Parsed>)
    reads cache, held
  {
    cache.Maps() <= held && PendingObjects(pending) <= held && cache !in held && Sound(cache, pending, parse)
  }

  method LookOne(cache: DecisionTreeCache, parse: (string, int) -> Option<Parsed>, pending: map<nat, Pending>, step: Step,
                 ghost held: set<object>, ghost v: View)
    returns (a: Progress, pending': map<nat, Pending>, ghost held': set<object>)
    requires SoundWithin(cache, pending, held, parse) && Shows(cache, pending, v) && step.Look?
    modifies cache, cache.Maps()
    ensures SoundWithin(cache, pending', held', parse) && held <= held' && fresh(held' - held)
    ensures a == Reply(v, step, parse) && Shows(cache, pending', Moved(v, step, parse))
  {
    var p;
    a, p := LookStep(cache, parse, step.key, step.fileName, step.time, v, step.worker);
    assert PendingOk(pending, parse);
    if a != Reading { return a, pending, held; }
    assert Objects(p.t) !! held;
    PendingGrows(pending, step.worker, p, parse);
    WaitersChange(pending, v.waiting, step.worker, p);
    pending' := pending[step.worker := p];
    held' := held + Objects(p.t);
  }

  method StoreOne(cache: DecisionTreeCache, parse: (string, int) -> Option<Parsed>, pending: map<nat, Pending>, step: Step,
                  ghost held: set<object>, ghost v: View)
    returns (a: Progress, pending': map<nat, Pending>)
    requires SoundWithin(cache, pending, held, parse) && Shows(cache, pending, v) && step.Store?
    modifies cache
    ensures SoundWithin(cache, pending', held, parse)
    ensures a == Reply(v, step, parse) && Shows(cache, pending', Moved(v, step, parse))
  {
    if step.worker !in pending { return Idle, pending; }
    StoredApart(pending, step.worker);
    WaitersChange(pending, v.waiting, step.worker, pending[step.worker]);
    a := StoreStep(cache, parse, pending[step.worker], v, step.worker);
    assert PendingOk(pending, parse);
    pending' := pending - {step.worker};
  }

  method OneStep(cache: DecisionTreeCache, parse: (string, int) -> Option<Parsed>, pending: map<nat, Pending>, step: Step,
                 ghost held: set<object>, ghost v: View)
    returns (a: Progress, pending': map<nat, Pending>, ghost held': set<object>)
    requires SoundWithin(cache, pending, held, parse) && Shows(cache, pending, v)
    modifies cache, held
    ensures SoundWithin(cache, pending', held', parse) && held <= held' && fresh(held' - held)
    ensures a == Reply(v, step, parse) && Shows(cache, pending', Moved(v, step, parse))
  {
    match step
    case Look(_, _, _, _) =>
      a, pending', held' := LookOne(cache, parse, pending, step, held, v);
    case Store(_) =>
      a, pending' := StoreOne(cache, parse, pending, step, held, v);
      held' := held;
    case ClearAll =>
      cache.PerformCacheClear();
      return Idle, pending, held;
  }

  /** In every interleaving of lookups, stores and clears, the cache answers as its view does: a lookup that hits and a store
      by a worker that waits get the contents a fresh parse would give, never those of emptied maps. */
  method Interleave(parse: (string, int) -> Option<Parsed>, steps: seq<Step>) returns (answers: seq<Progress>)
    ensures |answers| == |steps|
    ensures forall i :: 0 <= i < |steps| ==> answers[i] == ReplyAt(steps, i, parse)
  {
    var cache := new DecisionTreeCache();
    var pending: map<nat, Pending> := map[];
    answers := [];
    ghost var held: set<object> := {};
    while |answers| < |steps|
      invariant |answers| <= |steps| && fresh(cache) && fresh(held)
      invariant SoundWithin(cache, pending, held, parse) && Shows(cache, pending, ViewAt(steps, |answers|, parse))
      invariant forall i :: 0 <= i < |answers| ==> answers[i] == ReplyAt(steps, i, parse)
      decreases |steps| - |answers|
    {
      var a, pending';
      a, pending', held := OneStep(cache, parse, pending, steps[|answers|], held, ViewAt(steps, |answers|, parse));
      answers, pending := answers + [a], pending';
    }
  }

  // ----- when a lookup hits, and who waits -----

  /** At step j worker w looks that file up and misses. */
  predicate MissesAt(steps: seq<Step>, j: nat, w: nat, m: Miss, parse: (string, int) -> Option<Parsed>) {
    j < |steps| && steps[j] == Look(w, m.key, m.fileName, m.time) && ReplyAt(steps, j, parse) == Reading
  }

  /** At step j worker w stores, or misses. */
  predicate TurnsAt(steps: seq<Step>, j: nat, w: nat, parse: (string, int) -> Option<Parsed>) {
    j < |steps| && (steps[j] == Store(w) || (steps[j].Look? && steps[j].worker == w && ReplyAt(steps, j, parse) == Reading))
  }

  ghost predicate Unanswered(steps: seq<Step>, n: nat, w: nat, m: Miss, parse: (string, int) -> Option<Parsed>) {
    Since((j: nat) => MissesAt(steps, j, w, m, parse), (j: nat) => TurnsAt(steps, j, w, parse), n)
  }

  lemma UnansweredParses(steps: seq<Step>, n: nat, w: nat, m: Miss, parse: (string, int) -> Option<Parsed>)
    requires Unanswered(steps, n, w, m, parse)
    ensures parse(m.fileName, m.time).Some?
  {
  }

  /** A worker waits exactly when it missed and has neither stored nor missed since: with what it missed. */
  lemma {:induction false} WaitsExactly(steps: seq<Step>, n: nat, w: nat, m: Miss, parse: (string, int) -> Option<Parsed>)
    requires n <= |steps|
    ensures var v := ViewAt(steps, n, parse);
            w in v.waiting && v.waiting[w] == m <==> Unanswered(steps, n, w, m, parse)
  {
    if n > 0 {
      WaitsExactly(steps, n - 1, w, m, parse);
      SinceGrows((j: nat) => MissesAt(steps, j, w, m, parse), (j: nat) => TurnsAt(steps, j, w, parse), n - 1);
    }
  }

  /** A store answers nothing exactly when its worker has no miss to answer; otherwise it gives the contents of a fresh
      parse of the file that was missed. */
  lemma StoreAnswersExactly(steps: seq<Step>, n: nat, w: nat, parse: (string, int) -> Option<Parsed>)
    requires n < |steps| && steps[n] == Store(w)
    ensures ReplyAt(steps, n, parse) != Idle
            <==> exists m :: Unanswered(steps, n, w, m, parse)
    ensures forall m :: Unanswered(steps, n, w, m, parse) ==>
              var r := parse(m.fileName, m.time); r.Some? && ReplyAt(steps, n, parse) == Contents(m.fileName, m.time, r.value)
  {
    var v := ViewAt(steps, n, parse);
    forall m ensures w in v.waiting && v.waiting[w] == m <==> Unanswered(steps, n, w, m, parse) { WaitsExactly(steps, n, w, m, parse); }
    if w in v.waiting {
      assert Unanswered(steps, n, w, v.waiting[w], parse);
      UnansweredParses(steps, n, w, v.waiting[w], parse);
    }
  }

  /** At step j some worker stores that file under the key. */
  predicate StoresAt(steps: seq<Step>, j: nat, m: Miss, parse: (string, int) -> Option<Parsed>) {
    j < |steps| && steps[j].Store? && var v := ViewAt(steps, j, parse); steps[j].worker in v.waiting && v.waiting[steps[j].worker] == m
  }

  /** At step j the cache is emptied, or another tree is stored under the key. */
  predicate ReplacesAt(steps: seq<Step>, j: nat, key: string, parse: (string, int) -> Option<Parsed>) {
    j < |steps| &&
    var v := ViewAt(steps, j, parse);
    || Clears(v, steps[j])
    || (steps[j].Store? && steps[j].worker in v.waiting && v.waiting[steps[j].worker].key == key)
  }

  ghost predicate StillStored(steps: seq<Step>, n: nat, m: Miss, parse: (string, int) -> Option<Parsed>) {
    Since((j: nat) => StoresAt(steps, j, m, parse), (j: nat) => ReplacesAt(steps, j, m.key, parse), n)
  }

  /** A lookup hits exactly when its file, as of its time, was stored under its key, and since then nothing else was stored
      there and the cache was not emptied. */
  lemma {:induction false} HitsExactly(steps: seq<Step>, n: nat, m: Miss, parse: (string, int) -> Option<Parsed>)
    requires n <= |steps|
    ensures Hits(ViewAt(steps, n, parse), m.key, m.fileName, m.time) <==> StillStored(steps, n, m, parse)
  {
    if n > 0 {
      HitsExactly(steps, n - 1, m, parse);
      SinceGrows((j: nat) => StoresAt(steps, j, m, parse), (j: nat) => ReplacesAt(steps, j, m.key, parse), n - 1);
      HitsStep(ViewAt(steps, n - 1, parse), steps[n - 1], m, parse);
    }
  }

  lemma HitsStep(v: View, step: Step, m: Miss, parse: (string, int) -> Option<Parsed>)
    ensures Hits(Moved(v, step, parse), m.key, m.fileName, m.time)
            <==> (step.Store? && step.worker in v.waiting && v.waiting[step.worker] == m)
                 || (Hits(v, m.key, m.fileName, m.time) && !Clears(v, step)
                     && !(step.Store? && step.worker in v.waiting && v.waiting[step.worker].key == m.key))
  {
  }

  /** A lookup gives contents exactly when it hits: those of a fresh parse. */
  lemma LookAnswersExactly(steps: seq<Step>, n: nat, w: nat, m: Miss, parse: (string, int) -> Option<Parsed>)
    requires n < |steps| && steps[n] == Look(w, m.key, m.fileName, m.time)
    ensures match parse(m.fileName, m.time)
            case Some(parsed) =>
              ReplyAt(steps, n, parse) == if StillStored(steps, n, m, parse) then Contents(m.fileName, m.time, parsed) else Reading
            case None => ReplyAt(steps, n, parse) == Failed
  {
    HitsExactly(steps, n, m, parse);
  }

  /** A reader that still holds its maps when the file changes finds them emptied by the next lookup. */
  method HeldMapsAreEmptied(parse: (string, int) -> Option<Parsed>, kind: string, file: string, time: int, later: int)
    returns (before: Parsed, after: Parsed)
    requires time != -1 && later != -1 && time != later && parse(file, time).Some?
    ensures before == parse(file, time).value && after == NOTHING
  {
    var cache := new DecisionTreeCache();
    var t := cache.ParseDecisionTree(parse, kind, Some(file), Some(time));
    before := Parsed(t.treeMap.entries, t.replaceMap.entries);
    var missed := cache.Lookup(parse, kind, file, later);
    after := Parsed(t.treeMap.entries, t.replaceMap.entries);
  }
}
