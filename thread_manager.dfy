/** The scheduler: a ready list kept in priority order, a running list, a
    counting gate bounding how many records may be running, and a pause flag
    consulted by the dispatcher. Every critical section the Java ThreadManager
    runs under its registry lock is one method here; the two background loops become one
    method per iteration (DispatchStep, ReapStep). */
module Manager {
  import opened Handle
  import opened Pojo
  import opened Registry

  /** Default bound on concurrently running records. */
  const DefaultMaxConcurrentThreads: int := 5

  /** The handle a dispatch step may start: that of the head of the ready list. */
  ghost function HeadHandle(s: seq<ThreadInfo>): set<Thread>
  {
    if s != [] && s[0].thread != null then {s[0].thread} else {}
  }

  /** The handle that removing `uuid` from `s` may interrupt. */
  ghost function HandleOfId(s: seq<ThreadInfo>, uuid: Id): set<Thread>
  {
    match FindId(s, uuid)
    case None => {}
    case Some(k) => if s[k].thread != null then {s[k].thread} else {}
  }

  /** The handles of `s`, as a set of objects a predicate may read. */
  ghost function HandleSet(s: seq<ThreadInfo>): set<Thread?>
  {
    set i | 0 <= i < |s| :: s[i].thread
  }

  /** Every record of `s` holds a handle that has been started. */
  ghost predicate AllStarted(s: seq<ThreadInfo>)
    reads HandleSet(s)
  {
    forall i :: 0 <= i < |s| ==> s[i].thread != null && s[i].thread.started
  }

  /** Dropping a record keeps every remaining handle started. */
  lemma StartedAfterRemove(s: seq<ThreadInfo>, k: nat)
    requires k < |s| && AllStarted(s)
    ensures AllStarted(RemoveAt(s, k))
  {
    RemoveAtIndex(s, k);
  }

  /** Dropping the finished records keeps every remaining handle started. */
  lemma StartedSurvivors(s: seq<ThreadInfo>, finished: set<Thread>)
    requires AllStarted(s)
    ensures AllStarted(Survivors(s, finished))
  {
    var t := Survivors(s, finished);
    SurvivorsMembers(s, finished);
    forall i | 0 <= i < |t| ensures t[i].thread != null && t[i].thread.started {
      assert t[i] in t;
      var j :| 0 <= j < |s| && s[j] == t[i];
    }
  }

  /** The record a dispatch step appends to the running list. */
  function Promoted(r: ThreadInfo, now: Time): (p: ThreadInfo)
    ensures p.status == Running && p.startTime == Some(now)
    ensures p.(status := r.status, startTime := r.startTime) == r
  {
    r.(status := Running, startTime := Some(now))
  }

  // ---------------------------------------------------------------------------
  // The bookkeeping invariant, on values, and the steps that keep it
  // ---------------------------------------------------------------------------

  /** A ready record: admitted, not yet dispatched, holding a handle and an
      identifier already drawn. */
  predicate IsReady(r: ThreadInfo, nextId: Id)
  {
    r.status == Already && r.thread != null && r.uuid < nextId
  }

  /** A running record: dispatched at a known time, holding a handle and an
      identifier already drawn. */
  predicate IsRunning(r: ThreadInfo, nextId: Id)
  {
    r.status == Running && r.startTime.Some? && r.thread != null && r.uuid < nextId
  }

  /** The two lists are consistent: the ready list is in priority order;
      every record has a handle, the status of its list and an identifier
      already drawn; running records carry a start time; and no identifier
      and no handle occurs twice across both lists (so none is both ready
      and running). */
  ghost predicate Consistent(ready: seq<ThreadInfo>, running: seq<ThreadInfo>, nextId: Id)
  {
    && Sorted(ready)
    && (forall i :: 0 <= i < |ready| ==> IsReady(ready[i], nextId))
    && (forall i :: 0 <= i < |running| ==> IsRunning(running[i], nextId))
    && NoDup(Uuids(ready) + Uuids(running))
    && NoDup(Handles(ready) + Handles(running))
  }

  /** In consistent lists no record is both ready and running: the lists
      share neither an identifier nor a handle. */
  lemma ConsistentDisjoint(ready: seq<ThreadInfo>, running: seq<ThreadInfo>, nextId: Id)
    requires Consistent(ready, running, nextId)
    ensures forall i, j :: 0 <= i < |ready| && 0 <= j < |running| ==>
      ready[i].uuid != running[j].uuid && ready[i].thread != running[j].thread
  {
    UuidsIndex(ready);
    UuidsIndex(running);
    HandlesIndex(ready);
    HandlesIndex(running);
    forall i, j | 0 <= i < |ready| && 0 <= j < |running|
      ensures ready[i].uuid != running[j].uuid && ready[i].thread != running[j].thread
    {
      assert Uuids(ready)[i] == ready[i].uuid && Uuids(ready)[i] in multiset(Uuids(ready));
      assert Uuids(running)[j] == running[j].uuid && Uuids(running)[j] in multiset(Uuids(running));
      NoDupConcatDisjoint(Uuids(ready), Uuids(running), ready[i].uuid);
      assert Handles(ready)[i] == ready[i].thread && Handles(ready)[i] in multiset(Handles(ready));
      assert Handles(running)[j] == running[j].thread && Handles(running)[j] in multiset(Handles(running));
      NoDupConcatDisjoint(Handles(ready), Handles(running), ready[i].thread);
    }
  }

  /** Dropping a record keeps every remaining one ready. */
  lemma ReadyAfterRemove(s: seq<ThreadInfo>, k: nat, nextId: Id)
    requires k < |s| && forall i :: 0 <= i < |s| ==> IsReady(s[i], nextId)
    ensures forall i :: 0 <= i < |RemoveAt(s, k)| ==> IsReady(RemoveAt(s, k)[i], nextId)
  {
    RemoveAtIndex(s, k);
  }

  /** Dropping a record keeps every remaining one running. */
  lemma RunningAfterRemove(s: seq<ThreadInfo>, k: nat, nextId: Id)
    requires k < |s| && forall i :: 0 <= i < |s| ==> IsRunning(s[i], nextId)
    ensures forall i :: 0 <= i < |RemoveAt(s, k)| ==> IsRunning(RemoveAt(s, k)[i], nextId)
  {
    RemoveAtIndex(s, k);
  }

  /** Dropping the finished records keeps every remaining one running. */
  lemma RunningAfterReap(s: seq<ThreadInfo>, finished: set<Thread>, nextId: Id)
    requires forall i :: 0 <= i < |s| ==> IsRunning(s[i], nextId)
    ensures forall i :: 0 <= i < |Survivors(s, finished)| ==> IsRunning(Survivors(s, finished)[i], nextId)
  {
    var t := Survivors(s, finished);
    SurvivorsMembers(s, finished);
    forall i | 0 <= i < |t| ensures IsRunning(t[i], nextId) {
      assert t[i] in t;
    }
  }

  /** Inserting a ready record into a list of ready records. */
  lemma ReadyAfterInsert(s: seq<ThreadInfo>, x: ThreadInfo, nextId: Id)
    requires IsReady(x, nextId) && forall i :: 0 <= i < |s| ==> IsReady(s[i], nextId)
    ensures forall i :: 0 <= i < |Inserted(s, x)| ==> IsReady(Inserted(s, x)[i], nextId)
  {
    InsertedIndex(s, x);
  }

  /** The next identifier to be drawn is carried by no tracked record. */
  lemma FreshIdUnused(ready: seq<ThreadInfo>, running: seq<ThreadInfo>, nextId: Id)
    requires Consistent(ready, running, nextId)
    ensures FindId(ready, nextId).None? && FindId(running, nextId).None?
  {
    match FindId(ready, nextId)
    case Some(k) => assert false;
    case None =>
    match FindId(running, nextId)
    case Some(k) => assert false;
    case None =>
  }

  /** Drawing an identifier without admitting anything keeps the lists consistent. */
  lemma ConsistentGrow(ready: seq<ThreadInfo>, running: seq<ThreadInfo>, nextId: Id)
    requires Consistent(ready, running, nextId)
    ensures Consistent(ready, running, nextId + 1)
  {
    assert forall i :: 0 <= i < |ready| ==> IsReady(ready[i], nextId + 1) by {
      assert forall i :: 0 <= i < |ready| ==> IsReady(ready[i], nextId);
    }
    assert forall i :: 0 <= i < |running| ==> IsRunning(running[i], nextId + 1) by {
      assert forall i :: 0 <= i < |running| ==> IsRunning(running[i], nextId);
    }
  }

  /** Inserting a record whose identifier occurs in neither list keeps the
      identifiers distinct. */
  lemma InsertFreshUuid(ready: seq<ThreadInfo>, running: seq<ThreadInfo>, info: ThreadInfo)
    requires NoDup(Uuids(ready) + Uuids(running))
    requires info.uuid !in multiset(Uuids(ready)) && info.uuid !in multiset(Uuids(running))
    ensures NoDup(Uuids(Inserted(ready, info)) + Uuids(running))
  {
    InsertedContents(ready, info);
    NoDupGrowLeft(Uuids(ready), Uuids(Inserted(ready, info)), Uuids(running), info.uuid);
  }

  /** Inserting a record whose handle occurs in neither list keeps the
      handles distinct. */
  lemma InsertFreshHandle(ready: seq<ThreadInfo>, running: seq<ThreadInfo>, info: ThreadInfo)
    requires NoDup(Handles(ready) + Handles(running))
    requires info.thread !in multiset(Handles(ready)) && info.thread !in multiset(Handles(running))
    ensures NoDup(Handles(Inserted(ready, info)) + Handles(running))
  {
    InsertedContents(ready, info);
    NoDupGrowLeft(Handles(ready), Handles(Inserted(ready, info)), Handles(running), info.thread);
  }

  /** Admitting a record with a fresh identifier and an untracked handle
      keeps the lists consistent. */
  lemma AdmitKeepsConsistent(ready: seq<ThreadInfo>, running: seq<ThreadInfo>, nextId: Id, info: ThreadInfo)
    requires Consistent(ready, running, nextId)
    requires info.uuid == nextId && info.status == Already && info.thread != null
    requires !Holds(ready, info.thread) && !Holds(running, info.thread)
    ensures Consistent(Inserted(ready, info), running, nextId + 1)
  {
    UuidAbsent(ready, nextId);
    UuidAbsent(running, nextId);
    InsertFreshUuid(ready, running, info);
    HandleAbsent(ready, info.thread);
    HandleAbsent(running, info.thread);
    InsertFreshHandle(ready, running, info);
    ConsistentGrow(ready, running, nextId);
    InsertedSorted(ready, info);
    ReadyAfterInsert(ready, info, nextId + 1);
  }

  /** Changing the rank of a ready record keeps the lists consistent. */
  lemma RerankKeepsConsistent(ready: seq<ThreadInfo>, running: seq<ThreadInfo>, nextId: Id, k: nat, newRank: int)
    requires Consistent(ready, running, nextId) && k < |ready|
    ensures Consistent(Reranked(ready, k, newRank), running, nextId)
  {
    var ready' := Reranked(ready, k, newRank);
    RerankedSpec(ready, k, newRank);
    NoDupShrinkLeft(Uuids(ready), Uuids(ready'), Uuids(running));
    NoDupShrinkLeft(Handles(ready), Handles(ready'), Handles(running));
    ReadyAfterRemove(ready, k, nextId);
    ReadyAfterInsert(RemoveAt(ready, k), ready[k].(rank := newRank), nextId);
  }

  /** Dropping a ready record keeps the lists consistent. */
  lemma RemoveReadyKeepsConsistent(ready: seq<ThreadInfo>, running: seq<ThreadInfo>, nextId: Id, k: nat)
    requires Consistent(ready, running, nextId) && k < |ready|
    ensures Consistent(RemoveAt(ready, k), running, nextId)
  {
    var ready' := RemoveAt(ready, k);
    RemoveAtSorted(ready, k);
    RemoveAtShrinks(ready, k);
    NoDupShrinkLeft(Uuids(ready), Uuids(ready'), Uuids(running));
    NoDupShrinkLeft(Handles(ready), Handles(ready'), Handles(running));
    ReadyAfterRemove(ready, k, nextId);
  }

  /** Dropping a running record keeps the lists consistent. */
  lemma RemoveRunningKeepsConsistent(ready: seq<ThreadInfo>, running: seq<ThreadInfo>, nextId: Id, k: nat)
    requires Consistent(ready, running, nextId) && k < |running|
    ensures Consistent(ready, RemoveAt(running, k), nextId)
  {
    var running' := RemoveAt(running, k);
    RemoveAtShrinks(running, k);
    NoDupShrinkRight(Uuids(ready), Uuids(running), Uuids(running'));
    NoDupShrinkRight(Handles(ready), Handles(running), Handles(running'));
    RunningAfterRemove(running, k, nextId);
  }

  /** Moving the head of the ready list, promoted, to the end of the running
      list keeps the lists consistent. */
  lemma DispatchKeepsConsistent(ready: seq<ThreadInfo>, running: seq<ThreadInfo>, nextId: Id, now: Time)
    requires Consistent(ready, running, nextId) && ready != []
    ensures Consistent(ready[1..], running + [Promoted(ready[0], now)], nextId)
  {
    var y := Promoted(ready[0], now);
    var ready', running' := ready[1..], running + [y];
    assert Uuids(ready') + Uuids(running') == Uuids(ready)[1..] + (Uuids(running) + [Uuids(ready)[0]]) by {
      UuidsConcat(running, [y]);
    }
    NoDupMoveHead(Uuids(ready), Uuids(running));
    assert Handles(ready') + Handles(running') == Handles(ready)[1..] + (Handles(running) + [Handles(ready)[0]]) by {
      HandlesConcat(running, [y]);
    }
    NoDupMoveHead(Handles(ready), Handles(running));
    assert Sorted(ready') by {
      assert forall i :: 0 <= i < |ready'| ==> ready'[i] == ready[i + 1];
    }
    assert forall i :: 0 <= i < |ready'| ==> IsReady(ready'[i], nextId) by {
      assert forall i :: 0 <= i < |ready'| ==> ready'[i] == ready[i + 1];
    }
    assert forall i :: 0 <= i < |running'| ==> IsRunning(running'[i], nextId) by {
      assert IsReady(ready[0], nextId);
    }
  }

  /** Dropping the finished records keeps the lists consistent. */
  lemma ReapKeepsConsistent(ready: seq<ThreadInfo>, running: seq<ThreadInfo>, nextId: Id, finished: set<Thread>)
    requires Consistent(ready, running, nextId)
    ensures Consistent(ready, Survivors(running, finished), nextId)
  {
    var running' := Survivors(running, finished);
    SurvivorsProjections(running, finished);
    NoDupShrinkRight(Uuids(ready), Uuids(running), Uuids(running'));
    NoDupShrinkRight(Handles(ready), Handles(running), Handles(running'));
    RunningAfterReap(running, finished, nextId);
  }

  /** The watcher's scan: the running records whose handle is in `finished`,
      in list order. */
  method CollectFinished(running: seq<ThreadInfo>, finished: set<Thread>) returns (removeList: seq<ThreadInfo>)
    ensures removeList == Finished(running, finished)
  {
    removeList := [];
    for i := 0 to |running|
      invariant removeList == Finished(running[..i], finished)
    {
      var e := running[i];
      FinishedConcat(running[..i], [e], finished);
      assert running[..i + 1] == running[..i] + [e];
      if e.thread in finished {
        removeList := removeList + [e];
      }
    }
    assert running[..|running|] == running;
  }

  class ThreadManager {
    /** Records admitted but not yet dispatched, highest rank first. */
    var alreadyList: seq<ThreadInfo>
    /** Records dispatched and not yet reaped or removed. */
    var runningList: seq<ThreadInfo>
    /** Free permits of the concurrency gate. */
    var permits: int
    /** The gate's initial permit count. */
    const maxConcurrentThreads: int
    /** False while the dispatcher is paused. */
    var isRunning: bool
    /** Source of fresh identifiers. */
    var nextId: Id

    /** The scheduler's invariant: consistent lists, every running handle
        started, and the gate accounting for every running record. */
    ghost predicate Valid()
      reads this, HandleSet(runningList)
    {
      && Consistent(alreadyList, runningList, nextId)
      && AllStarted(runningList)
      && |runningList| + permits == maxConcurrentThreads
      && (permits >= 0 || runningList == [])
    }

    /** A scheduler with `maxConcurrentThreads` permits, nothing admitted, and
        the dispatcher active. */
    constructor (maxConcurrentThreads: int)
      ensures Valid()
      ensures alreadyList == [] && runningList == []
      ensures this.maxConcurrentThreads == maxConcurrentThreads && permits == maxConcurrentThreads
      ensures isRunning && nextId == 0
    {
      this.maxConcurrentThreads := maxConcurrentThreads;
      alreadyList := [];
      runningList := [];
      permits := maxConcurrentThreads;
      isRunning := true;
      nextId := 0;
    }

    /** The default scheduler: five permits. */
    constructor Default()
      ensures Valid()
      ensures alreadyList == [] && runningList == []
      ensures maxConcurrentThreads == DefaultMaxConcurrentThreads && permits == DefaultMaxConcurrentThreads
      ensures isRunning && nextId == 0
    {
      maxConcurrentThreads := DefaultMaxConcurrentThreads;
      alreadyList := [];
      runningList := [];
      permits := DefaultMaxConcurrentThreads;
      isRunning := true;
      nextId := 0;
    }

    // -------------------------------------------------------------------------
    // Lookups (read-only)
    // -------------------------------------------------------------------------

    /** Whether some tracked record, ready or running, holds this very handle. */
    method CheckThreadIsExist(thread: Thread) returns (found: bool)
      ensures found <==> Holds(alreadyList, thread) || Holds(runningList, thread)
    {
      var ready, running := alreadyList, runningList;
      var i := 0;
      while i < |ready|
        invariant 0 <= i <= |ready|
        invariant forall j :: 0 <= j < i ==> ready[j].thread != thread
      {
        if ready[i].thread == thread {
          return true;
        }
        i := i + 1;
      }
      i := 0;
      while i < |running|
        invariant 0 <= i <= |running|
        invariant forall j :: 0 <= j < i ==> running[j].thread != thread
      {
        if running[i].thread == thread {
          return true;
        }
        i := i + 1;
      }
      return false;
    }

    /** Position of the ready record with identifier `uuid`, if any. */
    method IndexInAlreadyList(uuid: Id) returns (k: Option<nat>)
      ensures k == FindId(alreadyList, uuid)
    {
      var ready := alreadyList;
      var i := 0;
      while i < |ready|
        invariant 0 <= i <= |ready|
        invariant forall j :: 0 <= j < i ==> ready[j].uuid != uuid
      {
        if ready[i].uuid == uuid {
          FindIdSpec(ready, uuid);
          return Some(i);
        }
        i := i + 1;
      }
      FindIdSpec(ready, uuid);
      return None;
    }

    /** Position of the running record with identifier `uuid`, if any. */
    method IndexInRunningList(uuid: Id) returns (k: Option<nat>)
      ensures k == FindId(runningList, uuid)
    {
      var running := runningList;
      var i := 0;
      while i < |running|
        invariant 0 <= i <= |running|
        invariant forall j :: 0 <= j < i ==> running[j].uuid != uuid
      {
        if running[i].uuid == uuid {
          FindIdSpec(running, uuid);
          return Some(i);
        }
        i := i + 1;
      }
      FindIdSpec(running, uuid);
      return None;
    }

    // -------------------------------------------------------------------------
    // Snapshots (read-only)
    // -------------------------------------------------------------------------

    /** Handle-less copies of the ready records, in priority order. */
    method GetAlreadyThreadList() returns (result: seq<ThreadInfo>)
      ensures IsSnapshot(result, alreadyList)
    {
      var ready := alreadyList;
      result := [];
      for i := 0 to |ready|
        invariant IsSnapshot(result, ready[..i])
      {
        result := result + [ready[i].Copy()];
      }
      assert ready[..|ready|] == ready;
    }

    /** Handle-less copies of the running records, in dispatch order. */
    method GetRunningThreadList() returns (result: seq<ThreadInfo>)
      ensures IsSnapshot(result, runningList)
    {
      var running := runningList;
      result := [];
      for i := 0 to |running|
        invariant IsSnapshot(result, running[..i])
      {
        result := result + [running[i].Copy()];
      }
      assert running[..|running|] == running;
    }

    /** The ready snapshot followed by the running snapshot. */
    method GetAllThreadList() returns (result: seq<ThreadInfo>)
      ensures IsSnapshot(result, alreadyList + runningList)
    {
      var ready := GetAlreadyThreadList();
      var running := GetRunningThreadList();
      SnapshotSpec(ready, alreadyList, running, runningList);
      result := ready + running;
    }

    // -------------------------------------------------------------------------
    // Admission and re-prioritisation
    // -------------------------------------------------------------------------

    /** Stable insertion in descending rank: scan from the tail for the first
        record of rank at least the new one and insert right after it. */
    method Insert(info: ThreadInfo) returns (ok: bool)
      modifies this`alreadyList
      ensures ok
      ensures alreadyList == Inserted(old(alreadyList), info)
    {
      var ready := alreadyList;
      var insertIndex := 0;
      var i := |ready| - 1;
      while i >= 0
        invariant -1 <= i < |ready|
        invariant insertIndex == 0
        invariant forall j :: i < j < |ready| ==> ready[j].rank < info.rank
        decreases i + 1
      {
        if ready[i].rank >= info.rank {
          insertIndex := i + 1;
          break;
        }
        i := i - 1;
      }
      InsertIndexUnique(ready, info.rank, insertIndex);
      alreadyList := ready[..insertIndex] + [info] + ready[insertIndex..];
      ok := true;
    }

    /** Admits `thread` unless this very handle is already tracked. A fresh
        identifier is drawn first, whether or not admission succeeds. */
    method Add(thread: Thread, rank: int, threadName: string, description: string, now: Time)
      returns (uuid: Option<Id>)
      requires Valid()
      modifies this`alreadyList, this`nextId
      ensures Valid()
      ensures nextId == old(nextId) + 1
      ensures uuid.Some? ==> uuid.value == old(nextId)
      ensures uuid.None? <==> Holds(old(alreadyList), thread) || Holds(old(runningList), thread)
      ensures uuid.None? ==> alreadyList == old(alreadyList)
      ensures uuid.Some? ==> FindId(old(alreadyList), uuid.value).None? && FindId(runningList, uuid.value).None?
      ensures uuid.Some? ==> (alreadyList ==
        Inserted(old(alreadyList), ThreadInfo(thread, uuid.value, threadName, description, Already, now, None, rank)))
    {
      var id := nextId;
      nextId := nextId + 1;
      FreshIdUnused(alreadyList, runningList, id);
      ConsistentGrow(alreadyList, runningList, id);
      var present := CheckThreadIsExist(thread);
      if present {
        return None;
      }
      var info := ThreadInfo(thread, id, threadName, description, Already, now, None, rank);
      AdmitKeepsConsistent(alreadyList, runningList, id, info);
      var _ := Insert(info);
      uuid := Some(id);
    }

    /** Admission with the default rank and placeholder name and description. */
    method AddDefault(thread: Thread, now: Time) returns (uuid: Option<Id>)
      requires Valid()
      modifies this`alreadyList, this`nextId
      ensures Valid()
      ensures nextId == old(nextId) + 1
      ensures uuid.Some? ==> uuid.value == old(nextId)
      ensures uuid.None? <==> Holds(old(alreadyList), thread) || Holds(old(runningList), thread)
      ensures uuid.None? ==> alreadyList == old(alreadyList)
      ensures uuid.Some? ==> FindId(old(alreadyList), uuid.value).None? && FindId(runningList, uuid.value).None?
      ensures uuid.Some? ==> (alreadyList ==
        Inserted(old(alreadyList), ThreadInfo(thread, uuid.value, "None", "None", Already, now, None, DefaultRank)))
    {
      uuid := Add(thread, DefaultRank, "None", "None", now);
    }

    /** Gives the ready record `uuid` the rank `newRank` by taking it out and
        inserting it again; running and unknown identifiers are refused. */
    method ChangeThreadRank(uuid: Id, newRank: int) returns (ok: bool)
      requires Valid()
      modifies this`alreadyList
      ensures Valid()
      ensures ok <==> FindId(old(alreadyList), uuid).Some?
      ensures ok ==> alreadyList == Reranked(old(alreadyList), FindId(old(alreadyList), uuid).value, newRank)
      ensures !ok ==> alreadyList == old(alreadyList)
    {
      var found := IndexInAlreadyList(uuid);
      if found.None? {
        return false;
      }
      var k := found.value;
      RerankKeepsConsistent(alreadyList, runningList, nextId, k, newRank);
      var info := alreadyList[k];
      alreadyList := RemoveAt(alreadyList, k);
      info := info.(rank := newRank);
      var _ := Insert(info);
      ok := true;
    }

    // -------------------------------------------------------------------------
    // Removal
    // -------------------------------------------------------------------------

    /** Removes the running record `uuid`: interrupts its handle (advisory) and
        returns its permit to the gate. */
    method InterruptAndRemove(uuid: Id) returns (ok: bool)
      requires Valid()
      modifies this`runningList, this`permits, HandleOfId(runningList, uuid)
      ensures Valid()
      ensures ok <==> FindId(old(runningList), uuid).Some?
      ensures ok ==> (
        var k := FindId(old(runningList), uuid).value;
        && runningList == RemoveAt(old(runningList), k)
        && permits == old(permits) + 1
        && old(runningList)[k].thread.interrupted
        && old(runningList)[k].thread.started == old(runningList[k].thread.started))
      ensures !ok ==> runningList == old(runningList) && permits == old(permits)
    {
      var found := IndexInRunningList(uuid);
      if found.None? {
        return false;
      }
      var k := found.value;
      RemoveRunningKeepsConsistent(alreadyList, runningList, nextId, k);
      StartedAfterRemove(runningList, k);
      var info := runningList[k];
      info.thread.Interrupt();
      runningList := RemoveAt(runningList, k);
      permits := permits + 1;
      ok := true;
    }

    /** Removes the record `uuid`, wherever it is: a ready record is simply
        dropped, a running one goes through InterruptAndRemove. */
    method Remove(uuid: Id) returns (ok: bool)
      requires Valid()
      modifies this`alreadyList, this`runningList, this`permits, HandleOfId(runningList, uuid)
      ensures Valid()
      ensures ok <==> FindId(old(alreadyList), uuid).Some? || FindId(old(runningList), uuid).Some?
      ensures FindId(old(alreadyList), uuid).Some? ==>
        && alreadyList == RemoveAt(old(alreadyList), FindId(old(alreadyList), uuid).value)
        && runningList == old(runningList) && permits == old(permits)
      ensures FindId(old(alreadyList), uuid).None? ==> alreadyList == old(alreadyList)
      ensures FindId(old(alreadyList), uuid).None? && FindId(old(runningList), uuid).Some? ==> (
        var k := FindId(old(runningList), uuid).value;
        && runningList == RemoveAt(old(runningList), k)
        && permits == old(permits) + 1
        && old(runningList)[k].thread.interrupted
        && old(runningList)[k].thread.started == old(runningList[k].thread.started))
      ensures !ok ==> runningList == old(runningList) && permits == old(permits)
    {
      var found := IndexInAlreadyList(uuid);
      if found.Some? {
        RemoveReadyKeepsConsistent(alreadyList, runningList, nextId, found.value);
        alreadyList := RemoveAt(alreadyList, found.value);
        ok := true;
      } else {
        ok := InterruptAndRemove(uuid);
      }
    }

    // -------------------------------------------------------------------------
    // Pause and resume
    // -------------------------------------------------------------------------

    /** Pauses the dispatcher. Running records and the watcher are unaffected. */
    method StopDispatcher()
      requires Valid()
      modifies this`isRunning
      ensures Valid() && !isRunning
    {
      isRunning := false;
    }

    /** Resumes the dispatcher. */
    method StartDispatcher()
      requires Valid()
      modifies this`isRunning
      ensures Valid() && isRunning
    {
      isRunning := true;
    }

    // -------------------------------------------------------------------------
    // The two background loops, one iteration each
    // -------------------------------------------------------------------------

    /** One dispatcher iteration, enabled once the dispatcher is active and a
        permit is free: take one permit; then, if a record is ready, move the
        head (highest rank, earliest among equals) to the running list and
        start its handle unless it has started already; otherwise give the
        permit back. */
    method DispatchStep(now: Time)
      requires Valid() && isRunning && permits > 0
      modifies this`alreadyList, this`runningList, this`permits, HeadHandle(alreadyList)
      ensures Valid()
      ensures old(alreadyList) == [] ==>
        alreadyList == old(alreadyList) && runningList == old(runningList) && permits == old(permits)
      ensures old(alreadyList) != [] ==>
        && alreadyList == old(alreadyList)[1..]
        && runningList == old(runningList) + [Promoted(old(alreadyList)[0], now)]
        && permits == old(permits) - 1
        && old(alreadyList)[0].thread.started
        && old(alreadyList)[0].thread.interrupted == old(alreadyList[0].thread.interrupted)
        && (forall i :: 0 <= i < |old(alreadyList)| ==> old(alreadyList)[i].rank <= old(alreadyList)[0].rank)
    {
      permits := permits - 1;
      if alreadyList != [] {
        var first := alreadyList[0];
        HeadIsMax(alreadyList);
        DispatchKeepsConsistent(alreadyList, runningList, nextId, now);
        alreadyList := alreadyList[1..];
        if !first.thread.started {
          first.thread.Start();
        }
        runningList := runningList + [Promoted(first, now)];
      } else {
        permits := permits + 1;
      }
    }

    /** One watcher iteration: collect the running records whose handle is in
        `finished` (those whose handle reports it is no longer alive), drop
        them from the running list and return as many permits to the gate. */
    method ReapStep(finished: set<Thread>)
      requires Valid()
      modifies this`runningList, this`permits
      ensures Valid()
      ensures runningList == Survivors(old(runningList), finished)
      ensures permits == old(permits) + |Finished(old(runningList), finished)|
      ensures |runningList| + permits == old(|runningList| + permits)
    {
      var removeList := CollectFinished(runningList, finished);
      FilterPartition(runningList, finished);
      ReapKeepsConsistent(alreadyList, runningList, nextId, finished);
      StartedSurvivors(runningList, finished);
      if removeList != [] {
        FinishedMembers(runningList, finished);
        WithoutCollected(runningList, removeList, finished);
        runningList := Without(runningList, removeList);
        permits := permits + |removeList|;
      } else {
        SurvivorsAll(runningList, finished);
      }
    }

    // -------------------------------------------------------------------------
    // Consequences of the invariant
    // -------------------------------------------------------------------------

    /** Never more running records than the gate's initial permits. */
    lemma RunningWithinCapacity()
      requires Valid()
      ensures maxConcurrentThreads >= 0 ==> |runningList| <= maxConcurrentThreads
      ensures maxConcurrentThreads < 0 ==> runningList == []
    {
    }
  }
}
