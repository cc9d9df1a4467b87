# Verification of Miniflare's storage, locks, queues, multipart uploads and SQL splitter

This Dafny project models the stateful core of Miniflare 2 and proves what that core is meant
to guarantee. Each module models one component in the form the component has: classes with
fields, methods and loops where the code updates state in place, functions and lemmas where it
computes. Where calls interleave, a step system lists every point at which other callbacks may
run, and the main results hold for every run of it.

`dafny verify dfyconfig.toml` checks everything.

## What is modelled

**Durable Object storage** (`Overlay`, `Flush`, `Serial`, `History`, `StorageSystem`,
`StorageInvariant`, `StorageTiming`, `StorageDurability`, `StorageCalls`, `StorageTransactions`,
`StorageDecisions`, `StorageProgress`, `StorageTheorems`, `ShadowStorage`,
`DurableObjectStorage`). Writes are kept as copies above a backing store and flushed in steps;
transactions read without the storage lock, in the middle of flushes, and are validated against
the last 16 write sets. `StorageSystem` has one step for each critical section, each
backing-store operation of a flush, each fetch of a read, and each begin, retry, validation,
unlock and end of a call. The proofs show that all runs are serializable in an order that agrees
with real time, that delete counts are exact although deletes coalesce, that a flush cannot be
observed, that acknowledged writes are durable, that what `sync()` waits for is durability
of all of them, that every call is answered at most once and with what it asked for, and that
a committed transaction ran just what its closure asked for. The classes carry out the same critical sections with the loops of the code and
are proved to do what the steps say.

**Locks** (`RwMutex`, `InputGate`, `GateMeaning`). Both are proved over all runs: exclusion, order, no lost
wake-up, and for the tree of gates the accounting of its counts, the priority of waiters below
over the gate above, and that everyone is let through in the end.

**Listings** (`Order`, `Listing`, `LimitedListing`, `DurableObjectList`). Pagination with
cursors, limits and delimiters is an exact partition of the keys; the shadow's limited merge is
the listing of the merged map; a Durable Object's `list` pads its limit rightly.

**Queues** (`QueueBroker`, `QueueMeaning`, `WorkerQueue`). Timers, overlapping batches, late retries, consumers
that come and go, and dead letters, possibly to the same queue.

**R2** (`Text`, `HttpRange`, `R2Ranges`, `R2Multipart`, `MultipartMeaning`, `R2Keys`,
`R2Bucket`). The life of
multipart uploads with the storage invariant, what readers see, storage names as strings, and
range reads from the `Range` header down to the stretches of single parts.

**SQL** (`SqlSplitter`, `SqlMeaning`). The iterator loop refines a scan over single characters,
nothing of the input is lost, and it is said of texts which semicolons end a statement.

The modules named after a meaning say of each operation what it does, entry by entry, without
the functions of the model: what the steps and loops do is proved to be that.

## Where the code does not keep a promise

The model follows the code. These properties hold only under a condition, which is proved to
be exact:

- Following cursors does not always list everything. A page that ends at the empty key has an
  empty cursor, which reads as the end (`Listing.RunComplete`, `Listing.EmptyNameStopsRun`).
- `list` with both `reverse` and `startAfter` can list the excluded key, because only the first
  name of the answer is compared with it (`DurableObjectList.ListExact`,
  `DurableObjectList.ReverseListsBound`).
- `delete` inside a transaction counts a key that is given twice two times, where the same
  call outside one counts it once (`Serial.CountDistinct`, `Serial.TwiceCounted`).
- A `Range` header that can be satisfied in part is not always served: one range that cannot be
  satisfied refuses the list, although RFC 9110, section 14.1.2, calls a set satisfiable if one
  range of it is (`HttpRange.AnswerExact`, `HttpRange.OneRefusesAll`).
- A header whose one range selects no byte, or makes no sense, reads the whole R2 object
  (`R2Ranges.HeaderSelects`, `R2Ranges.LastNoneReadsAll`).
- Resuming an upload accepts an id with a colon, which means an upload made for another key and
  completes it at the key given on resuming. Parts of uploads then belong to objects at other
  keys, though all of them are still stored and none is left over (`R2Keys.ColonConfuses`,
  `R2Multipart.OwnKeysExact`, `R2Multipart.PartElsewhere`).
- Stretches of a multipart object are read unchanged only if no part inside the range is empty.
  The size rules of `complete` ensure that, even with a minimum size of zero
  (`R2Ranges.PieceReadAsIs`, `R2Ranges.RangeReadExact`, `R2Ranges.EmptyPartFails`).
- Comments are not always without effect on the splitting of SQL: one that ends, at the end of
  its line, in the word BEGIN opens a compound statement, and only such a one does
  (`SqlMeaning.TokenKept`, `SqlMeaning.CommentOpens`).
- A semicolon does not end a statement if it stands right behind a parameter such as `$1`,
  whose reader takes one character more than the name (`SqlMeaning.DollarSwallows`).

## Model

| member | source | states |
|---|---|---|
| `Overlay.ViewMerge` | packages/durable-objects/src/shadow.ts:27-107 | Two layers of copies over a store show what their merge shows: the law that lets a transaction's copies be merged into the shadow at commit |
| `Flush.StepInv` | packages/durable-objects/src/storage.ts:648-726 | Every single step of a flush keeps the pending delete lists covered by copies, disjoint, and apart from the counts already recorded |
| `Flush.StepInvisible` | packages/durable-objects/src/storage.ts:648-726 | No single delete, put or removal of a copy inside a flush changes what a reader of the overlay sees |
| `Flush.StepOwed` | packages/durable-objects/src/storage.ts:698-703 | No step changes which delete calls are due a count, nor the count each is owed |
| `Flush.StepDescends` | packages/durable-objects/src/storage.ts:648-726 | Each step of a flush moves strictly forward, so a flush ends |
| `Flush.FlushProgress` | packages/durable-objects/src/storage.ts:648-726 | A flush that has not finished can always take a step |
| `Flush.RunKeeps` | packages/durable-objects/src/storage.ts:648-726 | Any run of flush steps keeps the invariant, the overlay's view and what every delete call is owed |
| `Flush.FlushComplete` | packages/durable-objects/src/storage.ts:648-726 | However its steps are ordered, a complete flush ends in one state: no copies, a store equal to the view at the start, an exact count for every pending delete |
| `Serial.ExplainsOnReads` | packages/durable-objects/src/storage.ts:571-591 | Replies recorded on one map are the replies the same operations get on any map that agrees with it on the keys read: why validating the read set is enough |
| `Serial.EffectsSufficient` | packages/durable-objects/src/storage.ts:343-413 | Operations run alone leave on any map what their accumulated copies show over it, and ask to write the accumulated write set: what is written does not depend on what is read |
| `Serial.CountDistinct` | packages/durable-objects/src/shadow.ts:103-107 | A delete in a transaction reports the number of keys it removes if and only if no key of the map is given to it twice |
| `Serial.TwiceCounted` | packages/durable-objects/src/shadow.ts:103-107 | A key of the map given twice to a delete in a transaction is removed once and counted twice |
| `Serial.EffectsWritten` | packages/durable-objects/src/storage.ts:343-391 | Every key a transaction has a copy for is in its write set |
| `Serial.PutReadBack` | packages/durable-objects/src/storage.ts:343-382 | In a lone run the next get reads the values put, and all else as before; a put is refused, and changes nothing, exactly if more than 128 keys are to be written by then |
| `Serial.DeleteReadBack` | packages/durable-objects/src/storage.ts:384-413 | In a lone run the next get finds none of the keys deleted, and all else as before; a delete is refused on the same condition |
| `Serial.DeleteReplies` | packages/durable-objects/src/storage.ts:384-413 | A delete that is not refused replies in how many of the places of its list there is a key that a get would find |
| `Serial.GetsEach` | packages/durable-objects/src/storage.ts:326-341 | A get of several keys reads at each what a get of that key alone would, in order |
| `Serial.WrittenAlone` | packages/durable-objects/src/storage.ts:343-413 | The write set has exactly the keys that operations asked to write |
| `History.WindowExact` | packages/durable-objects/src/storage.ts:478-487 | Against the sliding window, validation accepts exactly when at most 16 commits happened since the start and the full history has no conflicting one |
| `History.WindowSize` | packages/durable-objects/src/storage.ts:601-607 | The window holds min(n, 16) write sets after n commits |
| `History.RecordKeepsWindow` | packages/durable-objects/src/storage.ts:601-607 | Recording a write set keeps the window equal to the last commits of the unbounded history |
| `StorageInvariant.StepInv` | packages/durable-objects/src/storage.ts:488-839 | Every step of the storage system (calls, critical sections, flush sub-steps, transaction reads, validation, ends) keeps the invariant |
| `StorageTiming.StepTimely` | packages/durable-objects/src/storage.ts:510-639 | Every step keeps each commit between the call and its answer, and keeps answers given before a call at commit counts no later than the call |
| `StorageDurability.StepKept` | packages/durable-objects/src/storage.ts:488-839 | Every step keeps copies to keys written since the last flush ended, the resting store the plain map of that moment, and answers to writes at commits flushed by then |
| `StorageTheorems.Serializable` | packages/durable-objects/src/storage.ts:553-623 | In every interleaving each committed transaction got the replies, and wrote the values, of running alone on the plain map left by the commits before it; key by key a put leaves its values, a delete none of its keys, a deleteAll nothing, and all else stays; the overlay always shows the last state of that serial order |
| `StorageTransactions.TransactionRan` | packages/durable-objects/src/storage.ts:553-623 | In every run the operations of a committed transaction are, in order, just those its closure asked for since it last began, and none of them was a rollback |
| `StorageDecisions.ValidationDecides` | packages/durable-objects/src/storage.ts:571-599 | A transaction is retried exactly if more commits than the window holds happened since it began or one of them was given a key to write that it had read |
| `StorageCalls.AnswersTheCall` | packages/durable-objects/src/storage.ts:510-839 | In every run a call is worked on until it is answered, is answered at most once, and is answered what it asked for |
| `StorageTheorems.PutIsRead` | packages/durable-objects/src/storage.ts:510-551 | A get asked for after a put was answered has the value put, unless some commit in between wrote the key |
| `StorageProgress.CallsGoOn` | packages/durable-objects/src/storage.ts:488-639 | While nobody holds the lock, every unfinished call can go on |
| `StorageTheorems.AnswersExact` | packages/durable-objects/src/storage.ts:762-825 | Every finished delete reported the number of distinct given keys the plain map held just before its commit, whatever other calls and flushes did in between; every get the values at one commit count; every put, deleteAll and transaction is in the serial order; each of them at a place between the moment it was called and the moment it was answered |
| `StorageTheorems.RealTimeOrder` | packages/durable-objects/src/storage.ts:510-551 | A call made after another was answered comes after it in the serial order, or reads the state it left or a later one |
| `StorageTheorems.OnePlaceEach` | packages/durable-objects/src/storage.ts:601-607 | No two calls that wrote share a place in the serial order |
| `StorageTheorems.DurableWhenNothingPending` | packages/durable-objects/src/storage.ts:510-551 | With no pending flush there are no copies, no pending deletes, no uncollected counts, and the backing store is the plain map of the history |
| `StorageTheorems.SyncMeansDurable` | packages/durable-objects/src/storage.ts:896-900 | When the promise sync() handed out resolves, no write call is unfinished and the backing store holds every committed write |
| `StorageTheorems.SyncResolvedAtOnce` | packages/durable-objects/src/storage.ts:896-900 | In every run sync() hands out a resolved promise if and only if no write call is unfinished, and then the store holds every committed write |
| `StorageTheorems.AcknowledgedDurable` | packages/durable-objects/src/storage.ts:648-726 | Once a put, delete, deleteAll or transaction has been answered, the backing store holds what it left at every key that no later commit wrote, at any moment, in the middle of flushes too |
| `StorageTheorems.RestingStore` | packages/durable-objects/src/storage.ts:648-726 | Between flushes the backing store is the plain map after some number of commits, which takes in every acknowledged write |
| `StorageTheorems.AssertionsHold` | packages/durable-objects/src/storage.ts:538-550 | In every reachable state the assertions at lines 541, 542, 666, 816 and 819 hold when they are reached |
| `StorageTheorems.LockHolderProceeds` | packages/durable-objects/src/storage.ts:648-726 | Whoever holds the write lock for a flush can always take a next step, down to releasing it |
| `StorageTheorems.BoundedHistoryExact` | packages/durable-objects/src/storage.ts:571-607 | The window's size and its verdict on a running transaction, in every reachable state, are those of the full history cut at 16 commits |
| `DurableObjectStorage.DurableObjectTransaction.Get` | packages/durable-objects/src/storage.ts:326-341 | Refused on a rolled back or finished transaction or for more than 128 keys; otherwise the reply of a lone worker on the plain map shown, with the keys added to the read set |
| `DurableObjectStorage.DurableObjectTransaction.Put` | packages/durable-objects/src/storage.ts:343-382 | The reply and new state of a lone worker on a plain map, including the error that leaves the write set too large |
| `DurableObjectStorage.DurableObjectTransaction.Delete` | packages/durable-objects/src/storage.ts:384-413 | Counts the keys given that a plain map holds and removes them; the keys join read and write set; more than 128 keys in one call change nothing, more than 128 in the transaction only the write set |
| `DurableObjectStorage.DurableObjectTransaction.Rollback` | packages/durable-objects/src/storage.ts:471-475 | May be called again once rolled back, but fails on a finished transaction |
| `DurableObjectStorage.DurableObjectStorage.BeginWrite` | packages/durable-objects/src/storage.ts:514-528 | Counts one more pending flush, and makes a promise exactly when there was none |
| `DurableObjectStorage.DurableObjectStorage.EndWrite` | packages/durable-objects/src/storage.ts:538-550 | Counts one less and hands over the promise to resolve exactly when the count reaches zero |
| `DurableObjectStorage.DurableObjectStorage.CommitPut` | packages/durable-objects/src/storage.ts:751-755 | The critical section of put: copies of the entries, a later pair for a key winning, and one more write set in the window |
| `DurableObjectStorage.DurableObjectStorage.CommitDelete` | packages/durable-objects/src/storage.ts:782-809 | The critical section of delete: all keys marked deleted, those known put counted, those unknown listed for the flush to count, each once even if given twice |
| `DurableObjectStorage.DurableObjectStorage.FinishDelete` | packages/durable-objects/src/storage.ts:813-823 | After its flush a delete returns what it knew plus exactly what it was owed, and collects that count |
| `DurableObjectStorage.DurableObjectStorage.DeleteAll` | packages/durable-objects/src/storage.ts:827-839 | Marks every key shown as deleted, records them as one write set and leaves the store flushed and empty of them |
| `DurableObjectStorage.DurableObjectStorage.BeginTransaction` | packages/durable-objects/src/storage.ts:557-565 | A transaction starts at the current commit count, with nothing read or written, seeing what the storage shows |
| `DurableObjectStorage.DurableObjectStorage.EndClosure` | packages/durable-objects/src/storage.ts:566-567 | Marks the transaction finished, after which its operations are refused |
| `DurableObjectStorage.DurableObjectStorage.Validate` | packages/durable-objects/src/storage.ts:580-587 | The loop over commit numbers accepts exactly when the window has a disjoint write set for each commit since the start |
| `DurableObjectStorage.DurableObjectStorage.ValidateWrite` | packages/durable-objects/src/storage.ts:571-599 | Asks for a retry without any change, or commits: one write set more and the store flushed with the transaction's copies merged in |
| `DurableObjectStorage.DurableObjectStorage.DoFlush` | packages/durable-objects/src/storage.ts:648-726 | The flush as its loops carry it out ends in the state every run of the flush machine ends in |
| `ShadowStorage.Backing.HasMany` | packages/shared/src/storage.ts:157-162 | Counts the keys given that are present, repetitions included |
| `ShadowStorage.Backing.DeleteMany` | packages/shared/src/storage.ts:187-192 | Deletes one key after the other, so a key given twice counts once |
| `ShadowStorage.ShadowStorage.HasMany` | packages/durable-objects/src/shadow.ts:27-45 | Counts keys as the overlaid map would, through one or two layers, and records the reads of a transaction's layer |
| `ShadowStorage.ShadowStorage.GetMany` | packages/durable-objects/src/shadow.ts:54-87 | Returns the overlaid map's values in the order of the keys, filled in from copies and one batch below |
| `ShadowStorage.ShadowStorage.DeleteMany` | packages/durable-objects/src/shadow.ts:103-107 | Returns how many of the keys given were shown, repetitions included, and marks all of them deleted |
| `ShadowStorage.ShadowStorage.List` | packages/durable-objects/src/shadow.ts:109-175 | For any filter, direction and positive limit, exactly the first names of the sorted, filtered overlay map, also through two nested shadows; those names join the read set |
| `LimitedListing.OverFetch` | packages/durable-objects/src/shadow.ts:135-165 | Fetching as many names more as are deleted above leaves enough: the first `limit` of the merge are the first `limit` of the whole overlay |
| `LimitedListing.ListStore` | packages/storage-memory/src/helpers.ts:29-103 | Without cursor and delimiter a store lists exactly its first matching names in order |
| `LimitedListing.FirstMatchingExact` | packages/storage-memory/src/helpers.ts:15-27 | What a store lists are the first keys in byte order, up to the limit, among just those that begin with the prefix, do not begin with the excluded one, and lie between start and end |
| `DurableObjectList.ListExact` | packages/durable-objects/src/storage.ts:181-226 | The listing is the first `limit` wanted names without the alarm, strictly after startAfter, if and only if it is not a reversed listing whose startAfter is itself in range behind another name with a limit that lets all of them through |
| `DurableObjectList.FirstWantedExact` | packages/durable-objects/src/storage.ts:181-226 | The names wanted said one by one: keys other than the alarm's, with the prefix, from start to end, behind startAfter; the answer is the first of them in order |
| `DurableObjectList.ListRefuses` | packages/durable-objects/src/storage.ts:181-191 | A limit that is not positive is refused, and else exactly start together with startAfter |
| `DurableObjectList.ReverseListsBound` | packages/durable-objects/src/storage.ts:212-217 | A reversed listing after "a" of the keys "a" and "b" does list "a" |
| `Order.ArrayCompare` | packages/shared/src/data.ts:16-28 | The sign of the comparison loop is that of byte-wise lexicographic order |
| `Order.Between` | packages/shared/src/data.ts:31-35 | A name between two names with a common prefix has that prefix: what makes prefix groups contiguous |
| `Order.SortSorts` | packages/storage-memory/src/helpers.ts:35-37 | Sorting gives the same names, each once, in the order asked for |
| `Order.LessExact` | packages/shared/src/data.ts:16-28 | A name comes before another exactly if it ends, or has the smaller byte, where they first differ |
| `Order.SortExact` | packages/storage-memory/src/helpers.ts:35-37 | Sorting distinct names keeps each once, ascending or, if reversed, descending |
| `Listing.FindMeans` | packages/storage-memory/src/helpers.ts:60-69 | The split at the delimiter finds its first occurrence |
| `Listing.DelimitedIsPrefix` | packages/storage-memory/src/helpers.ts:56-80 | Starting with a delimited prefix is the same as having it as first-delimiter prefix |
| `Listing.GroupContiguous` | packages/storage-memory/src/helpers.ts:70-80 | In either direction the inner loop skips exactly the names of one delimited prefix; none comes later |
| `Listing.ListPaginate` | packages/storage-memory/src/helpers.ts:29-103 | The loops return the page that starts after the cursor, said of the keys one by one: what is listed as itself lacks the prefix or has no delimiter behind it, each delimited prefix is that of a key, keys come in order, no more is listed than the limit allows, and a page that has a cursor is full |
| `Listing.GroupMeans` | packages/storage-memory/src/helpers.ts:61-81 | A key is listed under a delimited prefix exactly if that is the prefix, what stands before the first delimiter behind it, and the delimiter; a key is listed as itself exactly if it lacks the prefix or has no delimiter behind it |
| `Listing.RunListsEach` | packages/storage-memory/src/helpers.ts:29-103 | Over a run each key is listed once: as itself if no delimiter occurs behind the prefix, and else under its one delimited prefix and not as itself |
| `Listing.UnknownCursor` | packages/storage-memory/src/helpers.ts:42-50 | A cursor that stands for no key lists nothing |
| `Listing.AllGroupsExact` | packages/storage-memory/src/helpers.ts:56-91 | All groups of a listing are distinct and are exactly those of its keys |
| `Listing.PageIsPart` | packages/storage-memory/src/helpers.ts:85-94 | A page is the part of the whole listing up to where it ends |
| `Listing.CursorResumes` | packages/storage-memory/src/helpers.ts:39-49 | A cursor that is not empty starts the next page right after the last one |
| `Listing.RunComplete` | packages/storage-memory/src/helpers.ts:29-103 | Following cursors with any limits lists every group, if and only if it is not the case that the empty name comes first with more behind it and the first limit is at most one |
| `Listing.RunPartitions` | packages/storage-memory/src/helpers.ts:29-103 | With no empty key, a whole run returns every key exactly once, as itself or under one delimited prefix, and repeats nothing |
| `Listing.EmptyNameStopsRun` | packages/storage-memory/src/helpers.ts:93-94 | A run over the empty name and "a" with limit one ends before "a" |
| `RwMutex.ReadWriteMutex.AcquireRead` | packages/durable-objects/src/rwmutex.ts:10-17 | A reader enters unless a writer holds the lock or waits |
| `RwMutex.ReadWriteMutex.AcquireWrite` | packages/durable-objects/src/rwmutex.ts:19-26 | A writer enters only a lock nobody holds |
| `RwMutex.ReadWriteMutex.ReleaseRead` | packages/durable-objects/src/rwmutex.ts:44-55 | The last reader hands the lock to the first waiting writer, or to all waiting readers |
| `RwMutex.MutualExclusion` | packages/durable-objects/src/rwmutex.ts:10-67 | In every run a writer never holds the lock with anyone else, and the count and flag tell who holds it |
| `RwMutex.IdleMeansServed` | packages/durable-objects/src/rwmutex.ts:28-42 | A lock nobody holds has empty queues and every request ever made has been granted: no lost wake-up |
| `RwMutex.WritersServedInOrder` | packages/durable-objects/src/rwmutex.ts:19-36 | Writers granted so far followed by the queue are all writers in order of arrival |
| `RwMutex.ReadersDoNotOvertake` | packages/durable-objects/src/rwmutex.ts:10-17 | Whenever a reader is granted the lock, every writer that arrived before it has been granted it already |
| `RwMutex.ReaderCanRelease` | packages/durable-objects/src/rwmutex.ts:52-55 | The count never drops below zero when a reader lets go |
| `RwMutex.CallExact` | packages/durable-objects/src/rwmutex.ts:10-67 | In every run each call does what it should to the holders, the queues and the grants: enter or queue up, and hand over to the first waiting writer or else to all waiting readers |
| `RwMutex.ReadersShare` | packages/durable-objects/src/rwmutex.ts:10-17 | A reader waits only for a writer that holds the lock or waits |
| `InputGate.AssertNeverFails` | packages/shared/src/sync/gate.ts:121-125 | The assertion that an unlocked gate is locked never fails, in any tree and any run |
| `InputGate.CountFromBelow` | packages/shared/src/sync/gate.ts:113-125 | A gate's lockCount is the number of its own unreleased closures plus, for each gate right below, the lockCount that gate holds and its active drain loops |
| `InputGate.NobodyForgotten` | packages/shared/src/sync/gate.ts:78-132 | In every run, waiters left in a queue mean that the gate is locked or being drained |
| `InputGate.ServedInOrder` | packages/shared/src/sync/gate.ts:78-90 | Waiters that had to queue at a gate are resolved in order of arrival |
| `InputGate.LetThroughOnlyWhenOpen` | packages/shared/src/sync/gate.ts:126-132 | A step resolves at most the first waiter of a gate, and only when no closure locks the gate and no gate below is being drained |
| `InputGate.AboveStaysLocked` | packages/shared/src/sync/gate.ts:126-138 | While a gate is being drained every gate above it stays locked |
| `GateMeaning.RunWithClosedExact` | packages/shared/src/sync/gate.ts:98-119 | Running a closure with gate g closed locks g and every gate above it once more and adds one gate, right below g, that is open and has nobody waiting; no other gate changes |
| `GateMeaning.ClosedWhileBelow` | packages/shared/src/sync/gate.ts:98-139 | The gate made by running a closure with gate g closed stays below g, and as long as a closure holds it or lets its waiters through, g is locked |
| `GateMeaning.AboveLocked` | packages/shared/src/sync/gate.ts:121-139 | In every run a gate that is locked or draining has the gate right above it locked |
| `GateMeaning.WaitExact` | packages/shared/src/sync/gate.ts:78-91 | Waiting for an open gate is over at once; for a locked one the waiter joins the end of its queue |
| `GateMeaning.WaiterLetThrough` | packages/shared/src/sync/gate.ts:78-139 | Who waits for a locked gate is queued there, and has been let through once every closure is over |
| `InputGate.QuietMeansOpen` | packages/shared/src/sync/gate.ts:133-138 | Once all closures are over every gate is open and nobody waits |
| `InputGate.AllServedInTheEnd` | packages/shared/src/sync/gate.ts:121-139 | If no more gates are closed, the unlocks end within a bound and by then every waiter has been resolved |
| `InputGate.InputGate.Lock` | packages/shared/src/sync/gate.ts:113-119 | Locks the gate and every gate above it once more |
| `InputGate.InputGate.Unlock` | packages/shared/src/sync/gate.ts:121-139 | The synchronous part of an unlock along the path to the root: where it pauses, ends or fails, and every count and queue on the path |
| `InputGate.LockOnPath` | packages/shared/src/sync/gate.ts:113-119 | Locking in the tree of gates is what the objects' Lock does to the path |
| `InputGate.UnlockOnPath` | packages/shared/src/sync/gate.ts:121-139 | Unlocking in the tree is what the objects' Unlock does to the path, ends where it ends, and touches no other gate |
| `QueueBroker.StepInv` | packages/queues/src/broker.ts:127-265 | Every step (send, subscribe, reset, retry, timer, end of a dispatch with its dead letters) keeps the invariant of every queue |
| `QueueBroker.NeverStalls` | packages/queues/src/broker.ts:127-256 | A queue with consumer and messages always has a live timer or a batch in flight, and a pending flush has its timer live or a batch in flight |
| `QueueBroker.NothingBlocked` | packages/queues/src/broker.ts:196-204 | Live timers can always fire and batches in flight can always end |
| `QueueBroker.MessagesConserved` | packages/queues/src/broker.ts:150-265 | Every message sent is in exactly one place: queued, in flight, acknowledged, dropped or dead-lettered |
| `QueueBroker.AttemptsBounded` | packages/queues/src/broker.ts:204-248 | No message is handed out more than maxRetries + 1 times for the most generous consumer, none is given up before the strictest one's, no batch exceeds the largest maxBatchSize |
| `QueueBroker.SortOutExact` | packages/queues/src/broker.ts:229-248 | A message of a batch succeeds exactly if not marked for retry; else it is queued again exactly while attempts are left |
| `QueueBroker.LettersForwarded` | packages/queues/src/broker.ts:258-264 | Each message given up with a dead letter queue is sent there, in order, even if that is the same queue |
| `QueueMeaning.SendExact` | packages/queues/src/broker.ts:150-163 | A message sent is a new one at the end of its queue with no attempt made, a flush is seen to (at once for a full batch, with a delay otherwise, and no second time if one as urgent is pending), and no other queue changes |
| `QueueMeaning.TimerExact` | packages/queues/src/broker.ts:204-215 | In every run a timer that fires hands out the oldest messages, exactly min(maxBatchSize, all) of them: batch and messages left make the queue as it was; without a consumer nothing is handed out |
| `QueueMeaning.OldestDelivered` | packages/queues/src/broker.ts:165-215 | In every run a timer that fires on a queue with messages, for a consumer that takes any, puts the oldest message in flight |
| `QueueMeaning.EndExact` | packages/queues/src/broker.ts:216-265 | The end of a batch acknowledges what succeeded, queues again at the end what failed and has attempts left, and gives up the rest, each in the order of the batch; letters are sent to the dead letter queue named |
| `QueueMeaning.SubscribeExact` | packages/queues/src/broker.ts:133-143 | A first consumer is set, with a flush if messages wait; a second one is refused and changes nothing |
| `QueueMeaning.ResetExact` | packages/queues/src/broker.ts:127-132 | Resetting takes the consumers and pending flushes away and leaves messages, batches in flight and timers other than the one remembered |
| `WorkerQueue.MessageObject.PrepareForRetry` | packages/queues/src/broker.ts:52-55 | Clears the mark and counts one more failed attempt |
| `WorkerQueue.WorkerQueue.EnsureFlush` | packages/queues/src/broker.ts:165-202 | Sets, keeps or replaces the timer as the broker's step says |
| `WorkerQueue.WorkerQueue.Send` | packages/queues/src/broker.ts:150-163 | Queues a new message at the end and sees to a flush if there is a consumer |
| `WorkerQueue.WorkerQueue.Subscribe` | packages/queues/src/broker.ts:133-143 | Refuses a second consumer; a first one gets a flush if messages wait |
| `WorkerQueue.WorkerQueue.Unsubscribe` | packages/queues/src/broker.ts:127-132 | Clears the remembered timer only, and forgets the consumer and the pending flush |
| `WorkerQueue.WorkerQueue.BeginFlush` | packages/queues/src/broker.ts:204-215 | Hands out the oldest messages, exactly as many as there are up to a batch, so that batch and messages left make the queue as it was; nothing without a consumer |
| `WorkerQueue.WorkerQueue.FinishFlush` | packages/queues/src/broker.ts:216-264 | The loop over the batch does to every message object and list what the broker's step says, and returns the dead letters |
| `HttpRange.ParsePieceExact` | packages/core/src/standards/range.ts:12-15 | A piece is read as a range exactly if it is blanks, optional digits, a hyphen and optional digits, with blanks around |
| `HttpRange.AfterUnitExact` | packages/core/src/standards/range.ts:8-10 | A header has the unit exactly if it is "bytes" in any case and an equals sign, with blanks around the unit |
| `HttpRange.ParseRanges` | packages/core/src/standards/range.ts:28-70 | The loop with its early returns computes the outcome of the list: the first decisive range decides, else all ranges taken |
| `HttpRange.JudgeExact` | packages/core/src/standards/range.ts:48-67 | A range is refused, taken, skipped or stands for everything according to the bytes it selects (RFC 9110, section 14.1.2) |
| `HttpRange.RangesExact` | packages/core/src/standards/range.ts:28-70 | Every range of the answer is exactly the bytes one range of the header selects |
| `HttpRange.AnswerExact` | packages/core/src/standards/range.ts:37-69 | The pieces judged are the header's, split at its commas and nothing lost; a list is refused exactly if some range in it cannot be satisfied and none before it asks for the whole value; if no range does either, the answer has, in order, the bytes each range selects, and leaves out only those that ask for the last none |
| `HttpRange.UnitDecides` | packages/core/src/standards/range.ts:37-44 | A header without the unit is refused; one with only white space behind it asks for the whole response |
| `HttpRange.WholeExact` | packages/core/src/standards/range.ts:43-69 | The answer is the whole response exactly if nothing but white space follows the unit, a piece asks for everything before any that cannot be satisfied, or every piece asks for the last none |
| `HttpRange.OneRefusesAll` | packages/core/src/standards/range.ts:48-58 | A satisfiable range followed by one that begins past the end, such as "bytes=0-1,20-" of ten bytes, is refused as a whole |
| `R2Ranges.ParseRange` | packages/shared/src/storage.ts:44-68 | Accepts exactly the acceptable ranges, settles them as offset and length, and else gives the first error |
| `R2Ranges.ParseExact` | packages/shared/src/storage.ts:44-68 | An accepted range is settled as exactly the bytes it asks for, within the value |
| `R2Ranges.AcceptableExact` | packages/shared/src/storage.ts:44-68 | A range is accepted exactly if it does not begin before the value and asks for some byte of it, or a length is given from just behind the last byte |
| `R2Ranges.RangeHeaderToR2Range` | packages/r2/src/bucket.ts:412-426 | The whole value is read exactly when the header is missing or does not leave one single range |
| `R2Ranges.HeaderAccepted` | packages/r2/src/bucket.ts:412-426 | For a value that is not empty the converted range is always accepted, unchanged or as the whole value |
| `R2Ranges.HeaderSelects` | packages/r2/src/bucket.ts:412-426 | A header with a single range reads exactly the bytes the range selects if and only if it selects any; one that selects none or makes no sense reads the whole value |
| `R2Ranges.TakenSelects` | packages/r2/src/bucket.ts:412-426 | Whenever just one range of the header is taken, the range read is exactly the bytes that range selects |
| `R2Ranges.LastNoneReadsAll` | packages/r2/src/bucket.ts:412-426 | "bytes=-0" selects no byte and reads them all |
| `R2Ranges.GetMultipartValue` | packages/r2/src/multipart.ts:158-184 | The loop over parts finds the stretch of each part that overlaps the range |
| `R2Ranges.PiecesMakeSlice` | packages/r2/src/multipart.ts:158-184 | Whatever the part sizes, the stretches concatenate to the bytes of the range of the joined parts |
| `R2Ranges.PieceReadAsIs` | packages/r2/src/multipart.ts:196-204 | A stretch is accepted unchanged by its part exactly if neither the part nor the range is empty |
| `R2Ranges.RangeReadExact` | packages/r2/src/multipart.ts:158-208 | With sizes that complete() enforces every accepted range is delivered in full, each stretch accepted unchanged by its part |
| `R2Ranges.EmptyPartFails` | packages/r2/src/multipart.ts:173-183 | An empty part in the middle, which the size rules exclude, gives a stretch its part refuses |
| `R2Keys.BuildKeyInjective` | packages/r2/src/multipart.ts:123-126 | Objects, and the markers and parts of uploads as they were made, never share a storage name |
| `R2Keys.NameExact` | packages/r2/src/multipart.ts:123-126 | For any texts as ids, two names are the same exactly if they name the same part of the same upload, the upload meant by an id with a colon being the one with the text behind its first colon in its key |
| `R2Keys.PrefixExact` | packages/r2/src/multipart.ts:215-223 | For any texts as ids, two part prefixes are the same exactly if they mean the same upload |
| `R2Keys.ListingExact` | packages/r2/src/multipart.ts:215-234 | A listing under the part prefix of any key and id, less the marker, is exactly the parts of the upload meant |
| `R2Keys.ColonConfuses` | packages/r2/src/bucket.ts:819-836 | The part prefix of a key and an id is also that of an upload with a colon-free id and another key or id if and only if there is a colon in the id |
| `R2Multipart.SortPartsExact` | packages/r2/src/multipart.ts:500 | Sorting orders parts by number and keeps every one |
| `R2Multipart.NoCompletionError` | packages/r2/src/multipart.ts:452-511 | Parts that pass every check are stored with the sizes measured, are ordered, and have sizes that fit |
| `R2Multipart.StepInv` | packages/r2/src/multipart.ts:289-567 | Every put, delete, create, uploadPart, abort and complete keeps the storage invariant, whatever text an upload is resumed under |
| `R2Multipart.StorageInvariant` | packages/r2/src/multipart.ts:215-234 | In every run each part an object points to is stored with its size, no two objects share an upload, and each stored part belongs to a pending upload or to the object that points to it |
| `R2Multipart.OwnKeysExact` | packages/r2/src/bucket.ts:819-836 | In every run each stored part belongs to a pending upload or to the object at the key of its upload, if and only if no object was completed from parts under an id with a colon |
| `R2Multipart.PlainIdsOwnKeys` | packages/r2/src/bucket.ts:819-836 | If every upload completed in a run was completed under an id without a colon, each stored part belongs to a pending upload or to the object at the key of its upload |
| `R2Multipart.CompletedElsewhere` | packages/r2/src/multipart.ts:518-548 | Completing under an id with a colon makes the value of the upload meant at the key given on resuming, and leaves the key the upload was made for as it was |
| `R2Multipart.PartElsewhere` | packages/r2/src/bucket.ts:819-836 | A run of three operations that ends with a part in the object of a key it was not uploaded for |
| `R2Multipart.ReadersSee` | packages/r2/src/bucket.ts:581-697 | A put is read back, a delete leaves nothing, complete makes the value of the named parts in order; no other key's value changes, and refused operations change nothing |
| `MultipartMeaning.PutExact` | packages/r2/src/bucket.ts:581-660 | A put is taken exactly if its key is good; then the value is stored at the key, the parts of an object replaced are gone, and every other entry is as it was |
| `MultipartMeaning.DeleteExact` | packages/r2/src/bucket.ts:666-692 | A delete is taken exactly if all its keys are good; then the objects at them and the parts of those made of parts are gone, and every other entry is as it was |
| `MultipartMeaning.UploadPartExact` | packages/r2/src/multipart.ts:306-373 | An uploadPart is taken exactly if number and key are good and the upload is pending; then exactly this content and etag are stored for this part and every other entry is as it was, and otherwise nothing changes |
| `MultipartMeaning.CompleteSucceeds` | packages/r2/src/multipart.ts:411-511 | A completion succeeds exactly if numbers and key are good, the upload is pending, no number is given twice, every part is there under its etag, all parts but the last given and the one with the highest number are large enough, and all but that one have one size, which it does not exceed |
| `MultipartMeaning.CompletedExact` | packages/r2/src/multipart.ts:500-567 | A completion leaves the key referring to the parts named, in the order of their numbers; other parts of the upload and those of the object replaced are gone, and every other entry is as it was |
| `MultipartMeaning.CompletionReads` | packages/r2/src/multipart.ts:306-567 | In every run the value read after a completion, and the size replied, are those of the contents given to the last uploadPart of each part named, one after the other in the order of part numbers |
| `MultipartMeaning.ValueUploaded` | packages/r2/src/multipart.ts:158-208 | In every run an object made of parts has as its value the contents last uploaded for them, one after the other |
| `MultipartMeaning.AbortExact` | packages/r2/src/multipart.ts:375-409 | Aborting a pending upload removes exactly its parts and leaves its marker as aborted; aborting a finished one changes nothing |
| `MultipartMeaning.CreateExact` | packages/r2/src/multipart.ts:137-150 | Creating an upload leaves a pending marker and changes nothing else; a bad key is refused |
| `R2Multipart.FinalStays` | packages/r2/src/multipart.ts:289-304 | A completed or aborted upload stays so in every run |
| `R2Multipart.FinalRefuses` | packages/r2/src/multipart.ts:375-402 | Uploading to, aborting or completing a finished upload changes nothing |
| `R2Multipart.RangesReadable` | packages/r2/src/bucket.ts:541-558 | In every run each accepted range of a multipart object is delivered in full from stored parts |
| `R2Bucket.R2Bucket.DeleteMultipartParts` | packages/r2/src/multipart.ts:215-234 | The loop over listed names deletes exactly the parts of the upload that are not excluded |
| `R2Bucket.R2Bucket.Put` | packages/r2/src/bucket.ts:645-660 | Stores the value and removes the parts of a multipart object it replaces |
| `R2Bucket.R2Bucket.Delete` | packages/r2/src/bucket.ts:666-692 | Validates all keys first, deletes them and the parts of those that were multipart |
| `R2Bucket.R2Bucket.Create` | packages/r2/src/multipart.ts:137-150 | Stores a pending marker under a fresh id |
| `R2Bucket.R2Bucket.UploadPart` | packages/r2/src/multipart.ts:306-373 | Stores or replaces a part of a pending upload with the content and etag given, as MultipartMeaning.UploadPartExact spells out; errors in the order of the checks |
| `R2Bucket.R2Bucket.Abort` | packages/r2/src/multipart.ts:375-409 | Removes the parts of a pending upload and marks it; does nothing to a finished one |
| `R2Bucket.R2Bucket.Complete` | packages/r2/src/multipart.ts:411-567 | All checks in order, then the new object, the marker, and removal of unused and replaced parts |
| `R2Bucket.R2Bucket.CheckParts` | packages/r2/src/multipart.ts:454-516 | The loops over the parts find the first error among repeated numbers, missing parts, small parts and unequal sizes |
| `SqlSplitter.ConsumeWhile` | packages/d1/src/splitter.ts:117-131 | Pulls the shortest text that no longer satisfies the predicate, or all that is left |
| `SqlSplitter.SplitSqlIntoStatements` | packages/d1/src/splitter.ts:41-112 | The loop with its token readers gives the statements of the scan over single characters |
| `SqlSplitter.TurnMeans` | packages/d1/src/splitter.ts:48-105 | One turn of the loop leaves the same statements still to come as the scan; each turn consumes at least one character |
| `SqlSplitter.TurnsAreScan` | packages/d1/src/splitter.ts:41-112 | The turns together are the character-by-character scan that decides which semicolons are top level |
| `SqlSplitter.SplitConserves` | packages/d1/src/splitter.ts:41-112 | Joining the untrimmed statements with semicolons gives back the input exactly, for every input |
| `SqlSplitter.QuotesProtect` | packages/d1/src/splitter.ts:57-61 | What stands between two quotes is kept whole, semicolons included |
| `SqlMeaning.PlainIsSplit` | packages/d1/src/splitter.ts:41-112 | A text without quotes, dollar and comment signs in which no compound statement begins is split at each semicolon |
| `SqlMeaning.WordsExact` | packages/d1/src/splitter.ts:155-167 | A compound statement begins with BEGIN between white space and ends with END behind white space and before a semicolon or white space |
| `SqlMeaning.CompoundIsOne` | packages/d1/src/splitter.ts:41-112 | A compound statement is one statement whatever semicolons are in its body, and is over with the semicolon behind its END; what follows is split on its own |
| `SqlMeaning.TokenKept` | packages/d1/src/splitter.ts:56-87 | A quote, a dollar quote or a comment goes into the statement as it is, semicolons included; the only effect it can have is that a line comment ending in BEGIN opens a compound statement |
| `SqlMeaning.FirstHasToken` | packages/d1/src/splitter.ts:56-87 | A query that begins with plain text and a quote or comment has all of both in its first statement |
| `SqlMeaning.CommentOpens` | packages/d1/src/splitter.ts:70-78 | A line comment that ends in BEGIN keeps what follows, up to an END, in one statement |
| `SqlMeaning.DollarSwallows` | packages/d1/src/splitter.ts:61-69 | A dollar sign, a name and the character behind it go into the statement, even if that is a semicolon |
| `SqlMeaning.SignKept` | packages/d1/src/splitter.ts:70-87 | A minus sign or slash that begins no comment goes into the statement alone |
| `SqlSplitter.QuickTestSound` | packages/d1/src/splitter.ts:22-26 | A query the quick test leaves whole has at most one statement that is not blank |
| `SqlSplitter.SplitSqlQuery` | packages/d1/src/splitter.ts:31-39 | The query itself, or its statements trimmed and without blank ones |
| `SqlSplitter.SplitExact` | packages/d1/src/splitter.ts:31-39 | The answer is never empty, and whenever two statements are not blank it is all those that are not |
| `SqlMeaning.NonBlankExact` | packages/d1/src/splitter.ts:109-111 | The answer has exactly the statements that are not blank, in order, each trimmed |
| `SqlMeaning.TrimExact` | packages/d1/src/splitter.ts:109-111 | Trimming leaves out the white space around a text and nothing else |

## Left out

- Alarms: `setAlarm`, `deleteAlarm` and the alarm store; the alarm's key appears only as the name that `list` hides.
- `list` inside transactions, for serializability: only the names returned enter the read set, so keys that appear later are not noticed. Transactions here are made of get, put, delete and rollback.
- `allowUnconfirmed`, output gates, backing stores that throw, serialization of values, and limits on the size of keys and values; the limit of 128 keys is modelled, and a call refused for it is not a step.
- Keys given as `undefined` and values that are `undefined` are filtered out before the model's operations begin.
- StorageTheorems.AnswersExact: get returns its values in a map sorted by key; the model states the value for each key given and leaves the map's order out.
- StorageSystem takes lock grants in any order, which allows more runs than the lock's own order does; RwMutex has the order.
- Whether a copy changed during a flush is decided by identity of objects in the code and by equality of values here; with the write lock held throughout neither ever differs.
- ShadowStorage.Backing.List: a listing of the backing store is one step, and a cursor is the name itself instead of its base64 form.
- Order.ArrayCompare: names are byte strings, the UTF-8 encodings of well-formed strings.
- Listing.ListPaginate: an empty delimiter is excluded, as R2Bucket.list drops it at packages/r2/src/bucket.ts:706 and nothing else passes one; splitting at it would group by first characters.
- InputGate.InputGate.Unlock: a method cannot wait, so it ends at the first pause, and Drain goes on from there; the interleavings are those of the step system.
- Timers are a set of numbers without delays; the callback after a flush, logging and consumer code are left out, the end of a dispatch and calls of retry() being steps at any time.
- R2Multipart.ReadersSee: conditional headers, checksums, HTTP metadata, etags of objects and versions are left out, and each operation is one step; etags of parts are numbers given from outside.
- R2Multipart.StorageInvariant: ids made by createMultipartUpload are fresh and have no colon; any text may be given on resuming.
- HttpRange.ParseRanges: numbers are unbounded, where the code's lose precision beyond 2^53.
- SqlSplitter.SplitSqlQuery: whether a character has two cases is a parameter; characters are code points, as the iterator's are.
- Redis and file storage, expiry, HTTP, streams, crypto, module linking, the command line and plugin options.
