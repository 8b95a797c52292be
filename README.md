# Priority scheduler with a bounded running set

This project is a Dafny model of the scheduler at the heart of a small Java
thread manager. Callers hand the scheduler thread handles with a rank. A
larger rank means a higher priority.

The scheduler keeps four pieces of state:

- a **ready list** (`alreadyList`), ordered by non-increasing rank, with
  first-come-first-served order among equal ranks;
- a **running list** (`runningList`), in dispatch order;
- a **counting gate** (`permits`), whose initial value
  `maxConcurrentThreads` bounds how many records may be running;
- a **pause flag** (`isRunning`), consulted by the dispatcher.

Every operation the Java `ThreadManager` runs under its registry lock is one atomic method
of the class `Manager.ThreadManager`. The two background loops each become
one method per iteration: `DispatchStep` for the dispatcher and `ReapStep`
for the watcher.

Files:

- `handle.dfy` (module `Handle`): the thread handle. It is a class, so
  handles are compared by reference, as the Java code compares them with `==`.
  It has a `started` flag, which is false while the handle is in its NEW
  state, and an `interrupted` flag for the advisory stop request.
- `thread_info.dfy` (module `Pojo`): the record kept per admitted unit of
  work, and its handle-less `Copy`.
- `registry.dfy` (module `Registry`): functions on values that specify the
  lists, with lemmas about them:
  - priority insertion (`InsertIndex`, `Inserted`);
  - removal by position (`RemoveAt`);
  - lookup by identifier (`FindId`);
  - re-ranking (`Reranked`);
  - the watcher's filter (`Finished`, `Survivors`, `Without`);
  - snapshots (`IsSnapshot`);
  - ordering and duplicate-freedom (`Sorted`, `NoDup`), each proved equal
    to its pairwise or multiset reading.
- `thread_manager.dfy` (module `Manager`): the bookkeeping invariant
  `Consistent`, one preservation lemma per kind of step, and the class
  `ThreadManager`. Each method of the class is proved against the
  functions in `Registry`. `Valid()` is its invariant:
  - the lists are consistent;
  - every running handle has been started;
  - `|runningList| + permits == maxConcurrentThreads`;
  - `permits` is non-negative unless nothing is running.

Abstractions of the host platform:

- A fresh-identifier counter `nextId` stands in for random UUIDs. An
  identifier is drawn on every admission attempt, even a refused one, as in
  the Java code.
- Clock readings are a `now` parameter.
- The handles' `isAlive()` answers are the set `finished` given to
  `ReapStep`.
- A blocking `acquire` on the gate and the pause wait become the
  preconditions `permits > 0` and `isRunning` of `DispatchStep`.
- The Java lookups return the record or null. The model's lookups
  (`IndexInAlreadyList`, `IndexInRunningList`) return its position, which
  identifies the same record because identifiers never repeat.
- `List.remove(record)` removes the first element equal to the record.
  Identifiers never repeat, so that element is the one at the looked-up
  position, and the model removes by position.

The running list is kept in dispatch order: the code appends each dispatched
record to the end of the running list, and the watcher's removal keeps the
order of the records it keeps. The model states that order.

## Model

| member | source | states |
|---|---|---|
| Pojo.ThreadInfo.Copy | src/main/java/pojo/ThreadInfo.java:81-91 | a copy never carries a thread handle |
| Pojo.CopyForgetsOnlyHandle | src/main/java/pojo/ThreadInfo.java:81-91 | a copy equals the original with only its handle cleared; a handle-less record is its own copy |
| Pojo.CopyIdempotent | src/main/java/pojo/ThreadInfo.java:81-91 | copying twice gives the same record as copying once |
| Pojo.CopyInjectiveOffHandle | src/main/java/pojo/ThreadInfo.java:81-91 | two records have equal copies exactly when they agree on every field except the handle |
| Handle.Thread.Start | src/main/java/manager/ThreadManager.java:114-115 | a handle may be started only in its NEW state; afterwards it is started and its interrupt flag is unchanged |
| Handle.Thread.Interrupt | src/main/java/manager/ThreadManager.java:423 | an interrupt only records the request and does not change whether the handle was started |
| Registry.InsertIndex | src/main/java/manager/ThreadManager.java:304-310 | the insertion point is within the list, and the record just before it has rank at least the new one |
| Registry.InsertIndexAfter | src/main/java/manager/ThreadManager.java:305-310 | every record from the insertion point on has a smaller rank than the new one |
| Registry.InsertIndexUnique | src/main/java/manager/ThreadManager.java:304-310 | those two properties determine the insertion point: any position with both is it |
| Registry.InsertedKeepsOrder | src/main/java/manager/ThreadManager.java:311 | insertion grows the list by one and puts the record at the insertion point; removing it again gives back the old list, so existing records keep their relative order |
| Registry.InsertedIndex | src/main/java/manager/ThreadManager.java:311 | records before the insertion point keep their position; records after it move one place back |
| Registry.InsertedPlacement | src/main/java/manager/ThreadManager.java:303-313 | on a sorted list the new record lands after every record of rank at least its own and before every record of smaller rank; it lands at the head exactly when no record has rank at least its own |
| Registry.InsertedSorted | src/main/java/manager/ThreadManager.java:303-313 | insertion keeps the ready list sorted by non-increasing rank |
| Registry.InsertedStable | src/main/java/manager/ThreadManager.java:305-308 | of two records of equal rank, the one inserted later ends up behind the earlier one (FIFO among equal ranks) |
| Registry.InsertedContents | src/main/java/manager/ThreadManager.java:311 | insertion adds exactly the new record, its identifier and its handle |
| Registry.AdmitIncreasingRanks | src/main/java/manager/ThreadManager.java:303-313 | admitting ranks in increasing order into an empty list yields them in decreasing order |
| Registry.SortedPairwise | src/main/java/manager/ThreadManager.java:306 | neighbour-wise non-increasing rank is the same as every earlier record having rank at least every later one |
| Registry.HeadIsMax | src/main/java/manager/ThreadManager.java:110-112 | the head of a sorted ready list, the one the dispatcher takes, has the highest rank |
| Registry.NoDupCounts | src/main/java/manager/ThreadManager.java:29-31 | a list without duplicates is one in which every value occurs at most once |
| Registry.NoDupPositions | src/main/java/manager/ThreadManager.java:29-31 | a list without duplicates is one whose positions hold pairwise different values |
| Registry.RemoveAtContents | src/main/java/manager/ThreadManager.java:400 | removal drops exactly the removed record, its identifier and its handle |
| Registry.RemoveAtSorted | src/main/java/manager/ThreadManager.java:400 | removal keeps the ready list sorted |
| Registry.FindId | src/main/java/manager/ThreadManager.java:230-238 | a found position is within the list and holds the identifier |
| Registry.FindIdSpec | src/main/java/manager/ThreadManager.java:230-238 | the lookup misses only when no record has the identifier, and finds the first record that has it |
| Registry.RerankedSpec | src/main/java/manager/ThreadManager.java:373-378 | a rank change keeps the ready list sorted and keeps its length, its identifiers and its handles |
| Registry.RerankedMembers | src/main/java/manager/ThreadManager.java:375-377 | a rank change replaces the re-ranked record by its copy with the new rank and changes no other record |
| Registry.RerankedPlacement | src/main/java/manager/ThreadManager.java:375-377 | the re-ranked record, with its new rank, sits after every record of rank at least the new rank (after its equal-rank peers even when the rank is unchanged) and before every record of smaller rank |
| Registry.FinishedMembers | src/main/java/manager/ThreadManager.java:152-159 | the watcher collects exactly the running records whose handle is finished |
| Registry.SurvivorsMembers | src/main/java/manager/ThreadManager.java:162 | exactly the running records whose handle is not finished remain |
| Registry.FinishedConcat | src/main/java/manager/ThreadManager.java:153-159 | scanning a list in two parts collects the records of each part, in order |
| Registry.SurvivorsConcat | src/main/java/manager/ThreadManager.java:162 | the survivors of a list in two parts are those of each part, in order, so the watcher keeps the order of the records it keeps |
| Registry.FilterPartition | src/main/java/manager/ThreadManager.java:160-164 | every running record is either collected or kept, so the number of permits released is the number of records removed |
| Registry.SurvivorsAll | src/main/java/manager/ThreadManager.java:160 | when nothing finished, the running list is unchanged |
| Registry.WithoutCollected | src/main/java/manager/ThreadManager.java:162 | removing every element equal to a collected record leaves exactly the survivors |
| Registry.SnapshotSpec | src/main/java/manager/ThreadManager.java:356-361 | the concatenation of two snapshots is a snapshot of the concatenated lists, with the same identifiers and no handles |
| Manager.ConsistentDisjoint | src/main/java/manager/ThreadManager.java:29-31 | in consistent lists no identifier and no handle is both ready and running |
| Manager.FreshIdUnused | src/main/java/manager/ThreadManager.java:189 | the next identifier is carried by no tracked record |
| Manager.AdmitKeepsConsistent | src/main/java/manager/ThreadManager.java:197-207 | inserting a new ready record with a fresh identifier and an untracked handle keeps the lists consistent |
| Manager.RerankKeepsConsistent | src/main/java/manager/ThreadManager.java:373-378 | a rank change keeps the lists consistent |
| Manager.RemoveReadyKeepsConsistent | src/main/java/manager/ThreadManager.java:398-401 | dropping a ready record keeps the lists consistent |
| Manager.RemoveRunningKeepsConsistent | src/main/java/manager/ThreadManager.java:421-425 | dropping a running record keeps the lists consistent |
| Manager.DispatchKeepsConsistent | src/main/java/manager/ThreadManager.java:110-121 | moving the ready head, marked running with a start time, to the end of the running list keeps the lists consistent |
| Manager.ReapKeepsConsistent | src/main/java/manager/ThreadManager.java:152-165 | dropping the finished running records keeps the lists consistent |
| Manager.StartedSurvivors | src/main/java/manager/ThreadManager.java:162 | every handle still running after a reap has been started |
| Manager.Promoted | src/main/java/manager/ThreadManager.java:119-120 | the dispatched record is the ready record with status RUNNING and start time `now`, every other field kept |
| Manager.CollectFinished | src/main/java/manager/ThreadManager.java:152-159 | the watcher's scan returns exactly the running records with a finished handle, in list order |
| Manager.ThreadManager.constructor | src/main/java/manager/ThreadManager.java:69-79 | a new scheduler has empty lists, `maxConcurrentThreads` free permits and an active dispatcher, and satisfies the invariant |
| Manager.ThreadManager.Default | src/main/java/manager/ThreadManager.java:51-61 | the default scheduler has five permits |
| Manager.ThreadManager.CheckThreadIsExist | src/main/java/manager/ThreadManager.java:257-272 | true exactly when some ready or running record holds this very handle |
| Manager.ThreadManager.IndexInAlreadyList | src/main/java/manager/ThreadManager.java:230-238 | the scan finds the first ready record with the identifier, or reports that there is none |
| Manager.ThreadManager.IndexInRunningList | src/main/java/manager/ThreadManager.java:241-249 | the scan finds the first running record with the identifier, or reports that there is none |
| Manager.ThreadManager.GetAlreadyThreadList | src/main/java/manager/ThreadManager.java:320-331 | returns handle-less copies of the ready records, same length and order; changes nothing |
| Manager.ThreadManager.GetRunningThreadList | src/main/java/manager/ThreadManager.java:338-349 | returns handle-less copies of the running records, same length and order; changes nothing |
| Manager.ThreadManager.GetAllThreadList | src/main/java/manager/ThreadManager.java:356-361 | returns the ready snapshot followed by the running snapshot |
| Manager.ThreadManager.Insert | src/main/java/manager/ThreadManager.java:303-313 | the tail-to-head scan inserts at the priority position, and always reports success |
| Manager.ThreadManager.Add | src/main/java/manager/ThreadManager.java:187-212 | refuses exactly when the handle is already tracked, and then changes no list; otherwise returns the counter's current value, an identifier no record had (so identifiers are never reused, even after removal), and inserts a ready record with that identifier and the given rank, name, description and time; running list and permits untouched; invariant kept; an identifier is consumed either way |
| Manager.ThreadManager.AddDefault | src/main/java/manager/ThreadManager.java:220-222 | admission with rank 5 and name and description "None" |
| Manager.ThreadManager.ChangeThreadRank | src/main/java/manager/ThreadManager.java:370-387 | succeeds exactly when the identifier is ready; the ready list then becomes the re-ranked list; otherwise nothing changes; running list and permits untouched; invariant kept |
| Manager.ThreadManager.InterruptAndRemove | src/main/java/manager/ThreadManager.java:418-436 | succeeds exactly when the identifier is running; the record is then dropped, its handle interrupted (its started flag kept) and one permit returned; otherwise nothing changes; invariant kept |
| Manager.ThreadManager.Remove | src/main/java/manager/ThreadManager.java:395-410 | a ready identifier is dropped from the ready list with permits unchanged; otherwise the running removal applies (record dropped, handle interrupted with its started flag kept, one permit returned); an unknown identifier changes nothing and yields false |
| Manager.ThreadManager.StopDispatcher | src/main/java/manager/ThreadManager.java:442-449 | only clears the pause flag; lists and permits untouched |
| Manager.ThreadManager.StartDispatcher | src/main/java/manager/ThreadManager.java:455-463 | only sets the pause flag; lists and permits untouched |
| Manager.ThreadManager.DispatchStep | src/main/java/manager/ThreadManager.java:104-133 | enabled only when active with a free permit; with a ready record, moves the highest-ranked head to the end of the running list as RUNNING with a start time, starts its handle (its interrupt flag kept), and consumes one permit; with none, nothing changes; invariant kept |
| Manager.ThreadManager.ReapStep | src/main/java/manager/ThreadManager.java:150-165 | keeps exactly the running records whose handle is not finished, in order, and returns one permit per removed record; the ready list is untouched and the running count plus permits is preserved |
| Manager.ThreadManager.RunningWithinCapacity | src/main/java/manager/ThreadManager.java:70 | under the invariant, never more records run than the gate's initial permits |

## Left out

- Concurrency: the two background threads, the registry lock, the pause
  lock and its condition, and blocking on the gate are not modelled. Each
  critical section is one atomic method, and blocking becomes a
  precondition. The pause flag is read without a lock in the Java code; the
  model reads it atomically.
- `getAllThreadList` takes the lock once per list, so in the Java code the two
  halves may come from different moments. The model reads both halves from
  one state.
- `Manager.ThreadManager.DispatchStep` merges two separate steps of the
  Java dispatcher: the pause check (ThreadManager.java:92) and the wait for a
  permit (ThreadManager.java:105). The Java dispatcher does not look at the
  pause flag again after that wait. A dispatcher already waiting for a permit
  when `stopDispatcher` runs therefore still promotes one ready record once a
  permit comes back. The model requires `isRunning` at the moment of
  promotion, so it does not capture that one promotion after a pause.
- Snapshot records share their `Date` objects with the internal records in
  the Java code, because `copy()` hands over the same `appendTime` and
  `startTime` objects. A caller can therefore change an internal record's
  timestamps through a snapshot. The model's timestamps are values, so its
  snapshots do not capture that sharing. Nothing in the bookkeeping reads
  the timestamps.
- Sleeps, the polling interval `pollingTime` and the `InterruptedException`
  paths have no effect on the bookkeeping and are left out. The empty-list
  dispatcher branch sleeps and then returns its permit; the model treats it
  as one step with no net change.
- Starting the two background threads in the constructors is left out.
- Thread execution is not modelled: `getState`, `isAlive`, `start` and
  `interrupt` act on the `started` and `interrupted` flags or arrive as the
  `finished` parameter. Whether an interrupted thread actually stops is
  outside the scheduler, so the capacity invariant is about the running list
  only.
- Random UUID strings are replaced by the counter `nextId`, and `Date`
  values by the `now` parameter.
- Logging, and the text formatting of `ThreadInfo.log()`, are left out.
- The overload `checkThreadIsExist(String)` has no caller and is left out.
- `Manager.ThreadManager.Add` takes a non-null handle. The Java code would
  admit a null handle and fail later, when the dispatcher dereferences it.
- Records are values, so the Java code's in-place setter calls on a record
  (`setRank`, `setStatus`, `setStartTime`) become record updates, made
  before the record is put back into its list.
- The tests and the demo thread class are not part of this model.
