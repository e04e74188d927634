# d3b server: verified model

d3b's server is a small multi-version document database. This project models its storage engine
in Dafny and proves what clients may rely on.

| file | what it is about |
|---|---|
| BtreeShape, BtreeZipper, BtreePages, BtreeSteps, BtreeSearch, BtreeOrder | the paged B+-tree: its shape, a subtree in its surroundings, blocks and leaf chain, splits and insertion as changes of pages, searches, order and height |
| Btree, BtreeIterator | the tree's operations on mutable pages, with pins, forward iteration and enumeration |
| BtreeBytes | the byte layout of blocks: insertion and splits inside page buffers |
| RandomAccessFile | byte ranges over pages |
| PageCache, CacheAccounts, CacheHost | the write-back cache as a state machine over its locked steps, what becomes of every request to it, and the ring of least recently used items |
| DbTypes, FlexStorage | versions, and the storage of documents: an index over an append-only file |
| QueuedDriver, DriverAccounts, StorageDriver, ViewDriver | the phase protocol that separates requests from sequencing, what becomes of everything a driver is given, and both kinds of driver |
| StorageMasks, TwoStorages | one storage among several: which versions another storage's mutations mask, and inputs at which they do |
| EngineLog, EngineSteps, EngineInvariant, EngineProofs, EngineTheorems, EndToEnd, ClientAccounts, RollbackGuard, Recovery, RestartLosses, Engine | transactions, the queue processor, queue items from end to end, what becomes of everything clients pass in, the rollback guard, the log, recovery and what it forgets |
| RepeatableReads | client, engine, driver and fetch taken together |
| WriteAhead, LogFormat | the framing of the log file, and a concrete serializer of log entries |
| JsView, ViewQuery | the ordered view and what its queries mean |

Shape of the model. Objects that the server changes in place are classes with the same fields and
one method per function. Where threads meet (page cache, drivers, engine) the state machine is a
datatype with a `Step` function, each step being what one thread does under one lock; the class
methods are proved to take exactly these steps, and the theorems are about all runs. What goes in and
comes out over a run is told by functions over its events that do not look at `Step`. Asynchronous
callbacks of a single operation (B+-tree, files, view queries) become plain calls and loops.

Parameters of the model: key comparisons, the view's hooks, the serializer and the hash are
functions; `found` is what a storage answers to a constraint check; the order in which recovery
meets open transactions, what a storage applies between two fetches of a query (`meanwhile`), what a
buffer holds behind the end of the log, and the moment of a crash are arbitrary.

Where the code departs from its intent, the model follows the code:

- The rollback guard (shard/src/db/engine.cpp:760) tests a state that `rollback` (:282) has already
  overwritten, so a submitted transaction that is rolled back stays in the submitted list, and a
  later submission throws at :580. The model has the guard as written and, with `repaired`, as
  intended; it has the failing run, the exact condition for a step and over runs, what clients can
  avoid, and what holds with the guard repaired.
- Rollbacks are not logged (:751-772): a rolled-back transaction comes back after a restart if and
  only if it was submitted when the client called (`RestartLosses.RolledBackReturns`).
- Constraints are not logged, and modifications are replayed as insertions (:418-424). After a
  restart every transaction passes the scan against the recovered ones
  (`RestartLosses.RecoveredAcceptAll`, with a run in `ConstraintForgotten`), so conflict freedom says
  nothing about recovered transactions.
- `compatible` does not look at the storage of a mutation and a constraint (:294-301).
- Every driver is given every mutation (shard/src/db/engine.cpp:711-727). A view filters on its
  storage (shard/src/db/js-view.cpp:101-123), a document storage does not
  (shard/src/db/flex-storage.cpp:61-72), and document ids are allocated per storage, so they collide.
  Statements about fetches are therefore about all mutations delivered. `TwoStorages` has the input
  at which a storage answers with another storage's document and a view loses its own;
  `StorageMasks` and `ViewQueries.ShownExactly` have the exact condition, and say what a database
  with one storage gets.
- A transaction may touch a document twice; a view then reports it once per entry
  (shard/src/db/js-view.cpp:506-528). `ViewQueries.EveryDocumentOnce` says exactly when.
- `findNext` does not release the pages of inner blocks that it leaves through a middle child
  (shard/include/ll/btree.hpp:752-756). The model says which pages stay pinned, and when none do.
- `initializePage` never sets the initialize flag on a new page (shard/src/ll/page-cache.cpp:229-238),
  so new pages are read from disk; the branch that does set it is never taken.
- `finishRequest` does not wake the controller (shard/src/db/storage-driver.cpp:65-69): no liveness is
  claimed. That no state is a dead end (`DriverAccounts.CanFinish`) says what is possible once a
  waiting controller looks again, not that it does.
- A view query throws for an indexed document without a version at its sequence id
  (shard/src/db/js-view.cpp:529-532); this is part of the specification.

## Model

| member | source | states |
|---|---|---|
| `Btrees.Btree.Insert` | shard/include/ll/btree.hpp:206-335 | on any comparison that cuts the contents, insertion turns them into the entries that compare <= 0, the new entry, and the rest; the tree stays well formed (uniform depth, capacities, separator = maximum of its left subtree, doubly linked leaf chain in key order, every block stored once); the depth grows by at most one and at most one block per level plus a new root is added; all pages are given back |
| `Btrees.Btree.constructor` | shard/include/ll/btree.hpp:387-403 | a new tree is a single empty leaf, block 1, of depth 1 |
| `Btrees.Btree.ReadRoot` | shard/include/ll/btree.hpp:230-287 | a root with all but one of its places taken, and no other, is split once, under a new root; the root that is read is not full, and the contents stay |
| `Btrees.Btree.ReadChild` | shard/include/ll/btree.hpp:240-287 | a full child is split once and the child is located and read again; the child that is entered is not full and the right one for the key |
| `Btrees.Btree.SplitLeaf` | shard/include/ll/btree.hpp:886-936 | the front half of the entries stays, the back half goes to the new block, which is linked in between the block and its right neighbour; the split key is the last key of the left half |
| `Btrees.Btree.SplitInner` | shard/include/ll/btree.hpp:937-977 | the front half stays, the middle key moves up, its child becomes the leftmost child of the right half, which gets the rest; both size assertions hold |
| `Btrees.Btree.SplitRoot` | shard/include/ll/btree.hpp:988-1011 | the new root has the two halves as children; depth grows by one and the contents stay |
| `Btrees.Btree.SplitKidOf` | shard/include/ll/btree.hpp:979-987 | the parent has room, gets the split key and the new block right behind the block that was split, and the whole tree stays represented |
| `Btrees.Btree.LowerBoundInner` | shard/include/ll/btree.hpp:144-173 | the last separator that compares <= 0, or -1 |
| `Btrees.Btree.LowerBoundLeaf` | shard/include/ll/btree.hpp:175-204 | the last entry of the leaf that compares <= 0, or -1 |
| `Btrees.Btree.NextInLeaf` | shard/include/ll/btree.hpp:1018-1050 | the first entry of the leaf that compares >= 0, or -1 |
| `Btrees.Btree.NextInInner` | shard/include/ll/btree.hpp:1051-1083 | the separator that `findNext` goes by |
| `Btrees.Btree.FindFirst` | shard/include/ll/btree.hpp:665-707 | the first entry in order, or none for the empty tree; all pages given back |
| `Btrees.Btree.FindPrev` | shard/include/ll/btree.hpp:770-841 | the last entry in order that compares <= 0, duplicates included, or none exactly when there is none; at most one step to a left neighbour, whose leaf is never empty; all pages given back |
| `Btrees.Btree.FindNext` | shard/include/ll/btree.hpp:708-769 | the first entry in order that compares >= 0, or none exactly when all are smaller, without following a right link; exactly the pages in `Forgotten` stay pinned |
| `BtreeSearch.BalancedIffOuter` | shard/include/ll/btree.hpp:752-756 | `findNext` gives all pages back if and only if on its way down it enters only first and last children |
| `BtreeSearch.FindNextForgets` | shard/include/ll/btree.hpp:752-756 | in the tree that inserting the keys 1 to 5 builds at capacity 4, looking up 2 leaves the root pinned |
| `BtreeSearch.SmallTreeReached` | shard/include/ll/btree.hpp:206-335 | that tree is what insertion builds: entries, a root split, an entry, a split of the full child, an entry, each where the code does it |
| `BtreeSearch.LeavesNotEmpty` | shard/include/ll/btree.hpp:833-841 | a tree of more than one leaf has no empty leaf, so a left neighbour always has a last entry |
| `BtreeIterators.Iterator.Forward` | shard/include/ll/btree.hpp:611-640 | from the entry at one position to the entry at the next, across leaves, or to the end exactly after the last; one page is held |
| `BtreeIterators.Iterator.Seek` | shard/include/ll/btree.hpp:590-610 | the iterator stands on the entry a search found and holds its leaf |
| `BtreeIterators.Iterator.GetEntry` | shard/include/ll/btree.hpp:642-652 | key and value of the entry at the current position |
| `BtreeIterators.Enumerate` | shard/include/ll/btree.hpp:590-652 | iterating from any entry on yields exactly the entries from there to the end, in order, and gives the page back |
| `BtreeIterators.EnumerateAll` | shard/include/ll/btree.hpp:590-707 | iterating from `findFirst` on yields the whole contents in order |
| `BtreeIterators.EnumerateFrom` | shard/include/ll/btree.hpp:590-769 | iterating from `findNext` on yields exactly the entries that compare >= 0, in order |
| `BtreeIterators.NextPosition` | shard/include/ll/btree.hpp:611-640 | the entry after the last one of a leaf is the first of its right neighbour; without right neighbour it was the last of all |
| `BtreeOrder.InsertedIsSorted` | shard/include/ll/btree.hpp:206-335 | under a total preorder insertion keeps the keys sorted, adds exactly the new entry, and places it behind its equals |
| `BtreeOrder.SortedIsCut` | shard/include/ll/btree.hpp:144-204 | sorted contents are cut by every comparison with a key, which is what insertion and searches ask of them |
| `BtreeOrder.HeightBound` | shard/include/ll/btree.hpp:847-994 | a tree of depth d >= 2 holds at least 2 * c^(d-2) * m entries |
| `BtreeSteps.KidSplitAt` | shard/include/ll/btree.hpp:862-987 | splitting any child anywhere in the tree keeps shape, representation and contents of the whole tree |
| `BtreeSteps.RootSplitHolds` | shard/include/ll/btree.hpp:988-1011 | splitting the root keeps representation and leaf chain |
| `BtreeSteps.LeafInsertHolds` | shard/include/ll/btree.hpp:303-320 | putting an entry into a leaf that is not full keeps the whole tree represented, with exactly that entry added |
| `BtreeShape.SplitKidWF` | shard/include/ll/btree.hpp:886-977 | after a split both halves and the parent are well formed: the separator is the maximum of everything left of it |
| `BtreeShape.SplitKidContents` | shard/include/ll/btree.hpp:886-977 | a split does not change the in-order contents |
| `BtreeZipper.PlugWF` | shard/include/ll/btree.hpp:262-333 | replacing a subtree by one with the same greatest key keeps the tree around it well formed |
| `BtreeZipper.DownAbove` | shard/include/ll/btree.hpp:144-173 | the child behind the last separator <= the key is the only one in which the key can go |
| `BtreeZipper.DownBelow` | shard/include/ll/btree.hpp:740-759 | the child before the first separator >= the key holds the first entry >= the key, because a separator equals the maximum to its left |
| `BtreeBytes.InsertAtLeaf` | shard/include/ll/btree.hpp:1085-1094 | the bytes after the move and the two copies show the leaf with the entry inserted at its place, all other entries, links and flags as before |
| `BtreeBytes.InsertAtInner` | shard/include/ll/btree.hpp:1095-1105 | the same for an inner block, its leftmost reference included |
| `BtreeBytes.SplitLeaf` | shard/include/ll/btree.hpp:886-928 | two page buffers show the two halves, linked to each other and to the old right neighbour |
| `BtreeBytes.SplitInner` | shard/include/ll/btree.hpp:937-977 | two page buffers show the two halves without the middle entry, whose reference is the new leftmost one |
| `BtreeBytes.InsertSlot` | shard/include/ll/btree.hpp:1089-1092 | moving the entries behind a place and filling the gap inserts exactly one entry |
| `BtreeBytes.Fits` | shard/include/ll/btree.hpp:471-478 | as many entries as the computed capacity fit behind the head |
| `BtreeBytes.Capacities` | shard/include/ll/btree.hpp:471-478 | the computed capacities are exact: so many entries fit into a leaf, or an inner block, and no more |
| `BtreeBytes.LeafEntryAt` | shard/include/ll/btree.hpp:446-513 | the bytes of a leaf: flag 1, number of entries, left and right link as 32-bit fields, and behind these 16 bytes every entry at its offset, value before key |
| `BtreeBytes.InnerEntryAt` | shard/include/ll/btree.hpp:446-500 | the bytes of an inner block: flag 0, number of entries and leftmost reference as 32-bit fields, and behind these 12 bytes every entry at its offset, key before reference |
| `BtreeBytes.FieldKept` | shard/include/ll/btree.hpp:446-455 | bytes before or behind a field do not matter to it |
| `RandomAccessFiles.RandomAccessFile.Write` | shard/src/ll/random-access-file.cpp:81-122 | exactly the bytes [position, position + length) change, across any number of pages; the loop ends and all pages are given back |
| `RandomAccessFiles.RandomAccessFile.Read` | shard/src/ll/random-access-file.cpp:31-72 | exactly the range is copied to the buffer, whose other bytes stay |
| `RandomAccessFiles.RandomAccessFile.WriteChunk` | shard/src/ll/random-access-file.cpp:97-122 | one page of a write changes exactly its part of the range |
| `DbTypes.NewestUnique` | shard/src/db/flex-storage.cpp:167-227 | there is one newest visible version, so the lookup is well defined |
| `DbTypes.LaterIsInvisible` | shard/src/db/flex-storage.cpp:167-227 | versions with ids greater than the reader never change its answer |
| `FlexStorages.FlexStorage.Allocate` | shard/src/db/flex-storage.cpp:50-52 | every id is new: one more than the last |
| `FlexStorages.FlexStorage.Reinspect` | shard/src/db/flex-storage.cpp:54-59 | the counter never falls and reaches every inserted id |
| `FlexStorages.FlexStorage.Apply` | shard/src/db/flex-storage.cpp:61-72 | the history grows by exactly this version, whatever kind of mutation it is; index and data file stay in step with it |
| `FlexStorages.FlexStorage.Fetch` | shard/src/db/flex-storage.cpp:167-227 | the answer is a version of the document that was applied, with an id of at most the given one, and no such version is newer - none has a greater id, none with the same id was applied later; not found is answered exactly when there is none |
| `FlexStorages.FlexStorage.WriteData` | shard/src/db/flex-storage.cpp:112-124 | new data goes behind all earlier data, which stays readable where its index entry says |
| `FlexStorages.FlexStorage.FindIndex` | shard/src/db/flex-storage.cpp:171-205 | the index entry found is that of the newest visible version, or there is none |
| `FlexStorages.ArrangedInsert` | shard/src/db/flex-storage.cpp:125-151 | the index stays sorted by document and sequence id, ties in the order of application |
| `FlexStorages.FoundIsNewest` | shard/src/db/flex-storage.cpp:167-205 | the last index entry at most (document, id) is the newest visible version, if it is of the document at all |
| `FlexStorages.OffsetsGrow` | shard/src/db/flex-storage.cpp:112-124 | data extents are disjoint |
| `FlexStorages.CompareIsOrder` | shard/src/db/flex-storage.cpp:130-147 | both comparison closures compare by a total order of (document, sequence id) |
| `QueuedDrivers.PhaseExclusion` | shard/src/db/storage-driver.cpp:42-121 | in every run: while an item is applied no request is active, and none can start; new ones are queued |
| `QueuedDrivers.OneController` | shard/src/db/storage-driver.cpp:104-139 | in every run: one controller and no task, or one task more than queued requests; each task starts the oldest request, and the last one becomes the controller |
| `QueuedDrivers.EverythingSequenced` | shard/src/db/storage-driver.cpp:27-36 | in every run, everything that was given to `sequence`, in order, is what is queued, at work or done |
| `QueuedDrivers.AppliedInOrder` | shard/src/db/storage-driver.cpp:104-162 | in every run, the applied mutations are a prefix of those of the items given to `sequence`, in order: each once and none skipped |
| `QueuedDrivers.ReaderSnapshot` | shard/src/db/storage-driver.cpp:42-162 | from its start to its end a request sees the same applied mutations: those of the first complete items that were given to `sequence` |
| `QueuedDrivers.FetchIgnoresLater` | shard/src/db/storage-driver.cpp:42-63 | what is applied later with greater ids never changes an answer |
| `QueuedDrivers.StepInv` | shard/src/db/storage-driver.cpp:22-162 | every lock-delimited step keeps the protocol invariant |
| `QueuedDrivers.RunInv` | shard/src/db/storage-driver.cpp:22-162 | it holds in every state of every run |
| `QueuedDrivers.QueuedDriver.Sequence` | shard/src/db/storage-driver.cpp:27-40 | the item is behind all that were given before, and behind all that wait |
| `QueuedDrivers.QueuedDriver.Request` | shard/src/db/view-driver.cpp:43-64 | in the request phase the request starts at once, and sees what is applied then; otherwise it waits behind all that wait |
| `QueuedDrivers.QueuedDriver.FinishRequest` | shard/src/db/storage-driver.cpp:65-69 | takes exactly the finish step |
| `QueuedDrivers.QueuedDriver.ProcessStep` | shard/src/db/storage-driver.cpp:78-90 | takes exactly the controller step |
| `QueuedDrivers.QueuedDriver.EndRequestPhaseStep` | shard/src/db/storage-driver.cpp:92-102 | takes exactly the controller step |
| `QueuedDrivers.QueuedDriver.SequencePhaseStep` | shard/src/db/storage-driver.cpp:104-121 | takes exactly the controller step, with its loop of submitted tasks |
| `QueuedDrivers.QueuedDriver.ProcessSequenceStep` | shard/src/db/storage-driver.cpp:141-162 | takes exactly the controller step |
| `QueuedDrivers.QueuedDriver.UnqueueRequestStep` | shard/src/db/storage-driver.cpp:123-139 | takes exactly the step of a pool job |
| `DriverAccounts.RequestsAccounted` | shard/src/db/storage-driver.cpp:42-69 | in every run, the requests made are the finished ones, those that run and those that wait |
| `DriverAccounts.WaitInOrder` | shard/src/db/storage-driver.cpp:51-139 | in every run, requests that came while none could start leave the queue in the order in which they came |
| `DriverAccounts.CurrentIsCompleted` | shard/src/db/storage-driver.cpp:141-147 | in every run, the driver's sequence id is that of the last item that is completely applied |
| `DriverAccounts.CanFinish` | shard/src/db/storage-driver.cpp:78-162 | no reachable state is a dead end: with nothing new coming in there are steps after which everything sequenced is applied, in order, and every request made is finished (a waiting controller is taken to look again) |
| `RepeatableReads.SameAnswer` | shard/src/db/storage-driver.cpp:42-162 | two fetches of a document at one id, by a driver that is given what the engine delivers, get the same answer, whatever is applied between them, once a commit with an id of at least this one was applied |
| `RepeatableReads.CommitIsRead` | shard/src/db/engine.cpp:185-750 | from the call to the answer: when a driver has applied a commit, a fetch at its sequence id of a document that the transaction wrote answers with the contents that the client passed in last for it, whatever was committed and applied before or since |
| `StorageDrivers.StorageDriver.ProcessSequence` | shard/src/db/storage-driver.cpp:141-162 | storage and driver agree after every applied mutation |
| `StorageDrivers.StorageDriver.Answer` | shard/src/db/flex-storage.cpp:167-227 | whenever a running fetch is answered, the answer is the newest version among the complete transactions applied when it started |
| `PageCaches.CacheIsTransparent` | shard/src/ll/page-cache.cpp:123-309 | over every run the content of every page is that of a plain array in which only clients write |
| `PageCaches.HandedOutIsPlain` | shard/src/ll/page-cache.cpp:224-331 | every buffer handed out, at once or by a completed read, shows the plain array |
| `PageCaches.HeldIsPlain` | shard/src/ll/page-cache.cpp:259-309 | a page that a client holds is loaded and shows the plain array |
| `PageCaches.PinSafety` | shard/src/ll/page-cache.cpp:143-208 | use count = references handed out and promised; an unloaded page has none; a loaded page marked for release is pinned; the initialize flag is never set |
| `PageCaches.WaitersServed` | shard/src/ll/page-cache.cpp:195-208 | waiting clients keep their places until the next load, which serves them all in order |
| `PageCaches.DroppedWhenDone` | shard/src/ll/page-cache.cpp:177-193 | a page leaves the cache only when nobody uses or awaits it and the disk has its content |
| `PageCaches.DirtyIsWritten` | shard/src/ll/page-cache.cpp:155-176 | a dirty mark goes away only by writing the marked buffer to disk |
| `PageCaches.SomethingToRelease` | shard/src/ll/page-cache.cpp:45-46 | over the limit there is a page to release, so the throwing sentinel is never reached |
| `PageCaches.WithinLimit` | shard/src/ll/page-cache.cpp:28-91 | in every run, however threads interleave between two releases: when no thread is in its release loop, the footprint is within the limit |
| `PageCaches.FirstInFirstOut` | shard/src/ll/page-cache.cpp:28-91 | in every run, pages leave the list in the order in which they joined it |
| `PageCaches.StepInv` | shard/src/ll/page-cache.cpp:28-309 | every step of clients, host and I/O keeps the invariant of flags, counts, list and footprint |
| `PageCaches.RunInv` | shard/src/ll/page-cache.cpp:28-309 | it holds in every state of every run |
| `PageCaches.ContentStep` | shard/src/ll/page-cache.cpp:123-309 | no step but a client's change alters the content of any page |
| `PageCaches.PageCache.ReadPage` | shard/src/ll/page-cache.cpp:259-290 | a client is answered at once exactly when the page is loaded and not marked for release; otherwise it waits behind all who wait for the page |
| `PageCaches.PageCache.InitializePage` | shard/src/ll/page-cache.cpp:224-258 | takes exactly the initialize step |
| `PageCaches.PageCache.WritePage` | shard/src/ll/page-cache.cpp:291-296 | takes exactly the mark step |
| `PageCaches.PageCache.ReleasePage` | shard/src/ll/page-cache.cpp:297-309 | takes exactly the release step of a client |
| `PageCaches.PageCache.Acquire` | shard/src/ll/page-cache.cpp:123-141 | takes exactly the acquire step |
| `PageCaches.PageCache.Enlist` | shard/src/ll/page-cache.cpp:33-43 | takes exactly the enlist step |
| `PageCaches.PageCache.Evict` | shard/src/ll/page-cache.cpp:74-88 | takes exactly the evict step on the least recently acquired page |
| `PageCaches.PageCache.Release` | shard/src/ll/page-cache.cpp:143-168 | takes exactly the release step of the host |
| `PageCaches.PageCache.EvictAll` | shard/src/ll/page-cache.cpp:45-46 | run by a thread that nobody disturbs between two releases, the eviction loop ends within the limit, takes a front of the list, and changes no content |
| `PageCaches.PageCache.DiskRead` | shard/src/ll/page-cache.cpp:195-208 | takes exactly the load step |
| `PageCaches.PageCache.Complete` | shard/src/ll/page-cache.cpp:323-331 | the longest waiting client gets the content of the page |
| `PageCaches.PageCache.DiskWrite` | shard/src/ll/page-cache.cpp:169-176 | takes exactly the write-back step |
| `PageCaches.PageCache.FinishRelease` | shard/src/ll/page-cache.cpp:177-193 | takes exactly the last step: drop the page, or acquire it again for those who wait |
| `CacheAccounts.EveryoneAccounted` | shard/src/ll/page-cache.cpp:224-331 | in every run and for every page, the clients that were not answered at once, in the order of their calls, are those served by callbacks, then those whose callback is queued, then those who wait |
| `CacheAccounts.ReferencesAccounted` | shard/src/ll/page-cache.cpp:224-331 | in every run, the references that clients hold are those handed out, at once or by a callback, less those given back |
| `CacheAccounts.LoopAccounted` | shard/src/ll/page-cache.cpp:33-46 | in every run, the threads in the release loop are those that entered it by acquiring a page and have not left it |
| `CacheAccounts.CanSettle` | shard/src/ll/page-cache.cpp:123-309 | no reachable state is a dead end: there are steps of the cache, and of clients that give back what they hold, after which everyone who had to wait for a page is served, in order, and a page that left the list is gone or was loaded again |
| `CacheHosts.CacheHost.RequestAcquire` | shard/src/ll/page-cache.cpp:28-47 | when nobody else acquires between two releases: the item becomes the most recently used one, and the shortest front of the ring that makes room is released |
| `CacheHosts.CacheHost.ReleaseItems` | shard/src/ll/page-cache.cpp:45-46 | when nobody else acquires between two releases: what is released is the shortest front of the list after which the footprint is within the limit |
| `CacheHosts.CacheHost.ReleaseLeast` | shard/src/ll/page-cache.cpp:74-88 | the least recently used item leaves the ring; it is never the sentinel |
| `CacheHosts.CacheHost.OnAccess` | shard/src/ll/page-cache.cpp:48-65 | an alive item moves to the end of the ring, others keep their order; an item that is not alive changes nothing |
| `CacheHosts.CacheHost.Unlink` | shard/src/ll/page-cache.cpp:82-86 | the neighbours of an item become neighbours; the ring holds the other items in order |
| `CacheHosts.CacheHost.LinkLast` | shard/src/ll/page-cache.cpp:39-43 | the ring holds one item more, at its end |
| `CacheHosts.CacheHost.constructor` | shard/src/ll/page-cache.cpp:23-26 | the ring of the sentinel alone |
| `WriteAheads.LogRoundTrip` | shard/src/ll/write-ahead.cpp:35-77 | for any serializer and hash, replaying the frames of any entries that the serializer brings back in less than 2 GiB hands out exactly these entries, in order, without an error |
| `WriteAheads.RecoveredFromFile` | shard/src/ll/write-ahead.cpp:35-77 | recovery from the file is recovery from the logged entries, for the same serializers and entries |
| `WriteAheads.ReplayFrames` | shard/src/ll/write-ahead.cpp:39-58 | complete frames are read back one by one, whatever stands before and behind them |
| `WriteAheads.CorruptionDetected` | shard/src/ll/write-ahead.cpp:47-50 | changed bytes of an entry make replay throw at that entry, unless the hash collides, after exactly the entries before it |
| `WriteAheads.ParseErrorDetected` | shard/src/ll/write-ahead.cpp:52-55 | a body that is not a message makes replay throw, after exactly the entries before it |
| `WriteAheads.TailIsNoticed` | shard/src/ll/write-ahead.cpp:39-58 | whatever stands behind complete frames is noticed: replay throws, or hands out more |
| `WriteAheads.FrameLayout` | shard/src/ll/write-ahead.cpp:61-77 | the bytes of a frame: the length, least significant byte first, 16 bytes of hash, the message |
| `WriteAheads.TornTail` | shard/src/ll/write-ahead.cpp:39-58 | whatever stands behind complete frames, their entries are handed out |
| `DbTypes.LeRoundTrip` | shard/src/ll/write-ahead.cpp:43-66 | the 32-bit length survives the frame |
| `WriteAheads.WriteAhead.Log` | shard/src/ll/write-ahead.cpp:61-77 | the file grows by exactly the frame of the entry |
| `WriteAheads.WriteAhead.Read` | shard/src/ll/write-ahead.cpp:35-59 | on any file content the loop ends, with the outcome of the specification: all entries, hash mismatch or parse error |
| `WriteAheads.WriteAhead.Replay` | shard/src/ll/write-ahead.cpp:35-59 | a log is read back exactly, and the cursor is at its end again |
| `LogFormats.EntryRoundTrip` | shard/src/ll/write-ahead.cpp:35-77 | a concrete serializer brings back every log entry, whatever its ids and mutations |
| `LogFormats.PlainLogs` | shard/src/ll/write-ahead.cpp:61-77 | with it, every entry whose bytes fit a frame can be logged |
| `LogFormats.SomeLog` | shard/src/ll/write-ahead.cpp:35-77 | a log with an entry of each kind, replayed from its bytes |
| `EngineLogs.CommitsAreLogged` | shard/src/db/engine.cpp:403-473 | replay finds exactly the logged commits, in order, with their ids; their mutations are insertions with the storage, document and contents of those logged for the transaction |
| `EngineLogs.BookBeyond` | shard/src/db/engine.cpp:486-522 | after replay the transaction, sequence and document counters are beyond everything logged |
| `EngineLogs.CountersAreLogged` | shard/src/db/engine.cpp:486-522 | and no further: the transaction and document counters are those of something logged, or initial |
| `EngineTheorems.ConflictFreedom` | shard/src/db/engine.cpp:568-609 | in every reachable state no submitted transaction modifies a document that a constraint of another one wants unchanged |
| `EngineTheorems.SubmitGuaranteesCommit` | shard/src/db/engine.cpp:212-292 | with the rollback guard repaired the processor never throws, every queue item finds its transaction in the right state, every queued commit finds it submitted, and no transaction has two items |
| `EngineTheorems.FirstDecides` | shard/src/db/engine.cpp:578-605 | the first submitted transaction that does not pass decides whether a submission throws, fails with a constraint conflict or fails with a mutation conflict |
| `EngineTheorems.ChecksDecide` | shard/src/db/engine.cpp:610-657 | a constraint check ends a submission exactly when the document must exist and was not found; after the last constraint it is logged under the next sequence id |
| `EngineTheorems.StaleExactly` | shard/src/db/engine.cpp:751-765 | an inactive transaction gets into the submitted list exactly when a submitted one is rolled back with the guard as it is |
| `RollbackGuards.StaleIsLeftBehind` | shard/src/db/engine.cpp:751-765 | in every run the inactive transactions in the submitted list are exactly the submitted ones that were rolled back, with the guard as it is, since the last restart |
| `RollbackGuards.OpenRollbacksAreSafe` | shard/src/db/engine.cpp:272-292 | in every run in which clients only roll back open transactions the processor never throws and nothing inactive is listed, with the guard as it is |
| `EngineTheorems.ThrowsExactly` | shard/src/db/engine.cpp:568-605 | a submission throws exactly when its scan comes to an inactive transaction before a conflict |
| `EngineTheorems.OnlySubmissionsThrow` | shard/src/db/engine.cpp:546-827 | nothing else of the processor throws |
| `EngineTheorems.RollbackBreaksSubmit` | shard/src/db/engine.cpp:751-772 | a concrete run: submit, rollback, submit - and the processor throws |
| `EngineTheorems.ReferenceCount` | shard/src/db/engine.cpp:377-388 | a reference count is the engine's hold, plus one per unfinished driver item, plus one that recovery never gives back |
| `EngineTheorems.NothingFreed` | shard/src/db/engine.cpp:710-740 | no driver and no queue item holds a freed transaction |
| `EngineTheorems.IdsIncrease` | shard/src/db/engine.cpp:693-748 | committed ids strictly increase along the log and in every driver's deliveries, which are the logged ids; no transaction is delivered twice |
| `EngineTheorems.ReturnedIsLogged` | shard/src/db/engine.cpp:742-748 | the id returned for a commit is the logged one |
| `EngineTheorems.NeverReissued` | shard/src/db/engine.cpp:175-200 | no transaction or document id that the log mentions is issued again |
| `ClientAccounts.MutationsAreTold` | shard/src/db/engine.cpp:185-200 | in every run, across restarts: an active transaction holds, and every driver is given for it, exactly the mutations of its `updateMutation` calls, in order, insertions with the id allocated for them (after a restart as insertions); they are what is logged, up to their kinds |
| `ClientAccounts.ConstraintsAreGiven` | shard/src/db/engine.cpp:201-211 | in every run, an active transaction has exactly the constraints of its `updateConstraint` calls since the last restart, in order |
| `ClientAccounts.CallsAreAccepted` | shard/src/db/engine.cpp:175-292 | in every reachable state in which the processor has not thrown: which calls are allowed for a transaction, by its state, and that calls for one that is gone change nothing |
| `ClientAccounts.QueueInOrder` | shard/src/db/engine.cpp:212-566 | in every run, the processor takes what clients queued since the last restart, each item once and in the order of the calls |
| `ClientAccounts.FinishedInOrder` | shard/src/db/engine.cpp:710-727 | in every run, the objects that a driver holds are those of its last deliveries, all but as many as it has finished since the last restart, in order |
| `ClientAccounts.ReferencesExact` | shard/src/db/engine.cpp:377-388 | in every run, a transaction's reference count is one while it is active, plus one per item that a driver has not finished, plus one for good if the last restart recovered it |
| `EndToEnd.SubmitRun` | shard/src/db/engine.cpp:546-672 | a queued submission from the queue to the log, undisturbed: the transaction is logged and submitted exactly when every submitted transaction is active, none of their modifications hits a document that its constraints want unchanged and none of its own hits theirs, and every document that must exist was found; otherwise the first transaction in its way decides between a throw and a failure, and nothing else has changed |
| `EndToEnd.CommitRun` | shard/src/db/engine.cpp:546-750 | a queued commit from the queue to the client, undisturbed: one entry with the next sequence id in the log, the same commit as the last one of every driver, with the transaction's mutations, the id reported, the transaction gone |
| `EndToEnd.SubmitCommitRun` | shard/src/db/engine.cpp:546-750 | a combined submission and commit does both completely, exactly when the submission would be accepted, and otherwise ends as the submission would |
| `EndToEnd.RollbackRun` | shard/src/db/engine.cpp:546-772 | a queued rollback ends the transaction, logs nothing, and takes it off the submitted list with the guard repaired, never with the guard as it is |
| `EngineProofs.StepInv` | shard/src/db/engine.cpp:175-827 | every client call, processor step, driver completion and restart keeps the engine invariant |
| `EngineProofs.RunInv` | shard/src/db/engine.cpp:175-827 | it holds in every state of every run, across any number of restarts |
| `EngineProofs.JudgeMeans` | shard/src/db/engine.cpp:578-605 | the scan passes exactly when all submitted transactions are active and agree with the new one in both directions |
| `Recoveries.Recovery` | shard/src/db/engine.cpp:397-536 | after any run the engine can restart: replay does not throw, and every driver is given exactly the logged commits, of which its earlier deliveries are a prefix, short of at most the one in delivery |
| `Recoveries.AcknowledgedSurvive` | shard/src/db/engine.cpp:710-750 | every acknowledged commit is given to every driver again |
| `Recoveries.FetchSurvives` | shard/src/db/engine.cpp:524-531 | a storage answers every fetch as before the restart, for all ids whose commits it had been given |
| `Recoveries.ViewSurvives` | shard/src/db/engine.cpp:397-536 | after a restart the view of every storage is given, document for document, what it had indexed before, and behind it at most the one commit that was being delivered |
| `Recoveries.CanRestart` | shard/src/db/engine.cpp:82-98 | the engine can be stopped in every reachable state and started again |
| `Recoveries.CountersRestart` | shard/src/db/engine.cpp:486-522 | after a restart the next transaction id is one more than a logged one, and every storage's document counter is a logged document id, unless nothing was logged |
| `Recoveries.AcknowledgedFetchSurvives` | shard/src/db/engine.cpp:397-536 | up to any acknowledged sequence id, every storage answers every fetch after a restart as before it |
| `Recoveries.UndeliveredIsLater` | shard/src/db/engine.cpp:710-750 | a commit that a driver has not been given yet is later than every acknowledged one |
| `RestartLosses.SubmittedSurvive` | shard/src/db/engine.cpp:500-508 | a transaction that is active before a restart is active after it if and only if it was submitted and its commit is not logged - a queued commit or rollback does not matter - and then it can be committed, with its mutations as insertions and without constraints |
| `RestartLosses.RolledBackReturns` | shard/src/db/engine.cpp:272-292 | whatever happens between a call of `rollback` and the next restart, the transaction comes back after it if and only if it was submitted when the client called |
| `RestartLosses.RollbackLeavesOpen` | shard/src/db/engine.cpp:751-772 | when the processor rolls a transaction back, replay still finds it open if and only if it was submitted |
| `RestartLosses.RecoveredAcceptAll` | shard/src/db/engine.cpp:578-605 | after a restart from any reachable state every transaction passes the scan against the recovered ones |
| `RestartLosses.ConstraintForgotten` | shard/src/db/engine.cpp:500-508 | a concrete run: a submission is refused, and the same one is accepted after a restart |
| `Recoveries.SequenceIdRestarts` | shard/src/db/engine.cpp:493-498 | the sequence id restarts at the greatest committed one; ids used by submissions are forgotten |
| `Recoveries.RollbackForgotten` | shard/src/db/engine.cpp:751-772 | a concrete run: a rolled-back submission is submitted again after a restart, because rollbacks are not logged |
| `Recoveries.LaterCommitsInvisible` | shard/src/db/engine.cpp:710-727 | commits with greater ids never change what a reader at a sequence id gets |
| `Recoveries.StoredNorms` | shard/src/db/engine.cpp:411-424 | insertions and modifications store the same |
| `Engines.Engine.Begin` | shard/src/db/engine.cpp:175-184 | the id is new, and its transaction is open, without mutations and constraints; nothing else changes |
| `Engines.Engine.UpdateMutation` | shard/src/db/engine.cpp:185-200 | the transaction gets the mutation as it was passed in, behind those it has; an insertion gets the storage's next document id; an unknown transaction changes nothing |
| `Engines.Engine.UpdateConstraint` | shard/src/db/engine.cpp:201-211 | the transaction gets the constraint as it was passed in, behind those it has; an unknown transaction changes nothing |
| `Engines.Engine.Enqueue` | shard/src/db/engine.cpp:212-292 | the four queueing calls: the item goes to the end of the queue, and the transaction's state says what it waits for; an unknown transaction changes nothing |
| `Engines.Engine.Process` | shard/src/db/engine.cpp:546-566 | the first item of the queue is at work, the others stay |
| `Engines.Engine.CheckAll` | shard/src/db/engine.cpp:583-592 | the nested loops answer whether all mutations are compatible with all constraints |
| `Engines.Engine.Scan` | shard/src/db/engine.cpp:578-605 | the loop over the submitted transactions yields the specified verdict |
| `Engines.Engine.ProcessSubmit` | shard/src/db/engine.cpp:568-609 | takes exactly the step, failure and throw included |
| `Engines.Engine.SubmitCheckConstraint` | shard/src/db/engine.cpp:610-657 | takes exactly the step |
| `Engines.Engine.ProcessCommit` | shard/src/db/engine.cpp:693-708 | takes exactly the step, and does not throw |
| `Engines.Engine.ProcessRollback` | shard/src/db/engine.cpp:751-772 | takes exactly the step, with the guard as written or repaired |
| `Engines.Engine.LogEntryAhead` | shard/src/db/engine.cpp:774-815 | takes exactly the step: logs the entry of the item, with the current sequence id |
| `Engines.Engine.SubmitComplete` | shard/src/db/engine.cpp:658-672 | takes exactly the step after the log |
| `Engines.Engine.DeliverNext` | shard/src/db/engine.cpp:711-727 | takes exactly the step: the next driver gets the transaction and a reference |
| `Engines.Engine.CommitComplete` | shard/src/db/engine.cpp:728-750 | takes exactly the step; the client gets the id that was logged |
| `Engines.Engine.RefDecrement` | shard/src/db/engine.cpp:383-388 | the count is positive before, and falls by one |
| `Engines.Engine.Replay` | shard/src/db/engine.cpp:397-473 | the loop over the log yields the specified book |
| `Engines.Engine.RestoreSubmitted` | shard/src/db/engine.cpp:500-508 | the submitted transactions are active again, each with two references |
| `Engines.Engine.LoadConfig` | shard/src/db/engine.cpp:82-98 | takes exactly the restart step, in any order of the recovered transactions |
| `JsViews.JsView.Apply` | shard/src/db/js-view.cpp:101-123 | mutations of the base storage extend the history by one version, others change nothing; key file, index and history stay in step |
| `JsViews.IndexedInsert` | shard/src/db/js-view.cpp:384-391 | the order tree stays in key order, equal keys in the order of application |
| `JsViews.IsCut` | shard/src/db/js-view.cpp:392-409 | the comparisons over serialized keys cut the index as the keys themselves do |
| `JsViews.JsView.FindBegin` | shard/src/db/js-view.cpp:435-456 | a search starts at the first key that is at least the given key, or at the first entry |
| `JsViews.QueryClosure.Next` | shard/src/db/js-view.cpp:475-540 | one entry: skipped, reported, filtered as outdated, or missing, by what the storage has when it is asked; then on to the next |
| `JsViews.QueryClosure.Collect` | shard/src/db/js-view.cpp:534-537 | rows are collected in order, and full batches handed out |
| `JsViews.QueryClosure.Complete` | shard/src/db/js-view.cpp:541-549 | the batches concatenate to all rows; all but the last are full and none is empty |
| `JsViews.Query` | shard/src/db/js-view.cpp:431-549 | it starts at the first entry whose document's key compares >= 0 with the key that the request's from-key means, or at the first of all; while the storage goes on between any two fetches: a query ends normally if and only if no document in its range is missing when it is asked for, and then its batches concatenate to the rows of all entries from its start on, each as the storage answers it then |
| `JsViews.QuietRows` | shard/src/db/js-view.cpp:496-501 | what the storage applies with greater ids between the fetches changes neither the rows nor whether a document is missing |
| `JsViews.HistoryIsApplied` | shard/src/db/js-view.cpp:496-501 | what the storage has during a query is what it had before, and then everything applied meanwhile, in order |
| `JsViews.QueryClosure.Elapse` | shard/src/db/js-view.cpp:496-501 | between two fetches the storage applies any mutations, and the query stays in order |
| `ViewQueries.QueryExact` | shard/src/db/js-view.cpp:435-548 | against a storage with any history: the query throws exactly when a document in its range has no version at the sequence id; otherwise its rows are those of exactly the versions that the storage answers with their own sequence id, from the from-key on, in key order |
| `ViewQueries.QueryShown` | shard/src/db/js-view.cpp:431-549 | the query itself, from-key and batches included, while the storage goes on; if what it applies meanwhile has greater ids, it throws exactly when a document in range had no version at the start, and otherwise reports exactly the versions shown at the start |
| `ViewQueries.RowOfShown` | shard/src/db/js-view.cpp:506-528 | an entry has a row exactly when the storage answers its document with the sequence id of the entry, and the row is the report of that answer |
| `ViewQueries.ShownExactly` | shard/src/db/js-view.cpp:435-548 | when the storage has applied the mutations of all storages that the view was given (and perhaps later ones): a version has a row exactly when it carries the sequence id of its current one and no other storage has a newer visible mutation of the same document id; without a mask the row is the report of the current version |
| `ViewQueries.UnmaskedAnswers` | shard/src/db/js-view.cpp:435-548 | when nothing is masked, the rows are the reports of exactly the current versions with key >= the from-key, in key order |
| `ViewQueries.SingleStorageUnmasked` | shard/src/db/js-view.cpp:101-123 | with a single storage nothing is masked |
| `ViewQueries.TiedShowsForeign` | shard/src/db/flex-storage.cpp:61-72 | what is masked within one transaction is answered with a version of the other storage |
| `ViewQueries.EveryDocumentOnce` | shard/src/db/js-view.cpp:506-528 | every document with a version at the sequence id that no other storage outdates is reported; it has more than one row if and only if the transaction of its current version touched it more than once |
| `ViewQueries.NoneStandsTwice` | shard/src/db/js-view.cpp:506-528 | if no transaction touches a document twice, every document has one row |
| `ViewQueries.TwiceInOneTransaction` | shard/src/db/js-view.cpp:506-528 | a document written twice by one transaction has two rows, both with the later contents |
| `ViewQueries.EarlyQueryThrows` | shard/src/db/js-view.cpp:529-532 | a document first written at id 5 makes a query at 4 throw |
| `DbTypes.StandingIsCurrent` | shard/src/db/js-view.cpp:506-528 | if no transaction touches a document twice, only current versions carry the id of the current one |
| `StorageMasks.SelectsOwnExactly` | shard/src/db/flex-storage.cpp:167-227 | a document storage, which stores the mutations of all storages, selects the newest version of its own storage if and only if no visible mutation of another storage on the same document id is newer |
| `StorageMasks.UnmaskedLookup` | shard/src/db/flex-storage.cpp:167-227 | then it answers as if it were the only storage |
| `StorageMasks.FoundExactly` | shard/src/db/flex-storage.cpp:61-72 | it answers with the sequence id of an own version exactly when this is the id of the current one and no other storage has a greater visible one |
| `StorageMasks.OwnPlaceIs` | shard/src/db/flex-storage.cpp:61-72 | the own version is the newest visible mutation of the own storage, if there is any |
| `TwoStorages.SameDocumentId` | shard/src/db/engine.cpp:194-197 | first insertions into two storages get the same document id |
| `TwoStorages.OtherStorageMasks` | shard/src/db/engine.cpp:711-727 | the second one hides the first: a fetch of the first storage answers with the second document, and the view of the first does not show its document |
| `TwoStorages.OneTransactionTwoStorages` | shard/src/db/engine.cpp:711-727 | in one transaction, the view of the first storage reports its document with the contents of the second |
| `ViewDrivers.ViewDriver.ProcessSequence` | shard/src/db/view-driver.cpp:141-163 | view and driver agree after every applied mutation |
| `ViewDrivers.ViewDriver.Answer` | shard/src/db/js-view.cpp:431-549 | a running query is answered from the view as it was when it started, from the key on that its from-key means, while the storage goes on; when the storage had caught up and applies only greater ids meanwhile, a version has a row exactly when it carries the id of its current one and is not outdated by another storage |

## Left out

- Machine integers: block numbers, sequence, transaction and document ids, footprints and offsets are unbounded; only the 32-bit fields of blocks and frames have their width.
- Liveness: no wake-up or fairness claims. `DriverAccounts.CanFinish` and `CacheAccounts.CanSettle` are about what is possible from a state, `RepeatableReads.CommitIsRead` is about a driver that has applied the commit; that it does so before a client asks is not claimed.
- Threads inside one locked step, data races on unlocked fields (the processor reads the submitted list and transaction maps without the lock) and memory reclamation beyond reference counts.
- I/O errors, missing `fdatasync` and crashes inside a log write: a completed `log` is durable. What replay makes of a torn or damaged file is specified, but the engine's runs do not contain one.
- Protobuf, MD5 and V8: any function that brings back the entries that are logged (`LogFormat` has one that brings back all), any function to 16 bytes, and pure hooks with a total preorder. Names of storages are taken to resolve to the same index after a restart.
- Query limits and end keys: the counter is not initialised and the end key is commented out; queries are unlimited. Waiting for script instances is left out.
- The value check of `matchSequenceId`, which is commented out (shard/src/db/engine.cpp:635-640); constraints only check existence, as the code does.
- `Btrees.Btree.Insert`: keys and values are values, not bytes; `BtreeBytes` shows separately that insertions and splits of blocks do the same in page buffers. The file head is not stored, as in the code.
- `JsViews.JsView.Snapshot`: the comparison closures read the key file entry by entry; the model reads it once per insertion or query, which is the same because nothing writes to it meanwhile.
- `PageCaches.StepInv`: the cache host's list is a sequence there; the ring of links is the subject of `CacheHosts`. Clients are taken to mark changed pages before they give back their last reference.
- `PageCaches.PageCache.EvictAll`: the loop of a thread that nobody disturbs; the source gives up the list lock while an item is released (shard/src/ll/page-cache.cpp:88-90). What holds when threads interleave there is `PageCaches.WithinLimit`, `PageCaches.FirstInFirstOut` and `PageCaches.SomethingToRelease`.
- `CacheHosts.CacheHost.ReleaseItems`: the same; "the shortest front" and "within the limit" hold when no other thread acquires an item between two releases.
- `CacheHosts.CacheHost.RequestAcquire`: the same.
- `RandomAccessFiles.RandomAccessFile.Read`: the file works on pages as the cache hands them out (what `PageCaches.CacheIsTransparent` justifies); interleavings of two operations on one file are not modelled.
- `Engines.Engine.Free`: transactions of a data replay that were never committed leak as in the code, but are not counted, since nobody refers to them.
- `setValue`, `loadTree`, `p_blockIntegrity`, registries, configuration and descriptor files, unlinking of storages and views, external files, the API server and the client: no hard property.
