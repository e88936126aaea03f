# LMDB and its Rust wrapper, verified

Dafny models of the C engine (liblmdb) and of the Rust wrapper that drives it,
with proofs of what they promise. `dafny verify dfyconfig.toml` checks all of
it. What the source changes in place (arrays, pages, cursors, buffers) is
imperative here too and proved against functions on sequences; protocols are
state machines over their atomic steps.

| files | subject |
|---|---|
| `WriteTxn`, `WriteImages`, `Mvcc`, `MvccRuns` | readers' slots, page allocation and reclamation, nested transactions, commit, crash and recovery |
| `Interlock`, `InterlockRuns` | transaction guards against the map resizer, and which call ends with a handle |
| `ResizeLoop` | growing the map before a write transaction |
| `IdSequences`, `Midl`, `MidlSort`, `FreeList` | ID lists: search, merge, sort, contiguous runs, filling the saved free list |
| `NestedMerge`, `SpillPrune`, `DirtyRoom` | dirty and spill lists at the commit of a nested transaction, and the room they take |
| `Tree`, `TreeCursor`, `PairSeq`, `DbCursors`, `Iterators` | reading: search and cursor movement in trees of any depth, DUPSORT included, and the Rust iterators |
| `Levels`, `Positions`, `Separators`, `KeyedMoves`, `KeyedItems` | a tree that changes: its rows of pages, where a cursor stands in them, and when the keys of branch nodes are right |
| `Touching`, `Tracking`, `Rebalancing`, `Deletion`, `Walk` | copying pages before they are written, rebalancing, deletes, and walks that delete |
| `Insertion`, `PageSplit`, `DealingOut`, `RowSplits`, `SplitSteps`, `Splitting`, `Putting` | puts, and page splits that go up as far as need be |
| `Searching`, `KeyValue` | searching that tree, and mdb_get, mdb_put and mdb_del on it |
| `SplitPoint` | where a page is split, and when a half does not fit |
| `PageNodes`, `SlottedPage`, `LeafBalance` | pages as bytes, and why refilling a leaf always fits |
| `PageTree`, `CompactCopy` | the compacting copy |
| `TextCodec`, `DumpLoad` | the text format of mdb_dump and mdb_load |

## How to read the models

**MVCC.** A snapshot is a meta record: the pages it reaches with their
contents, the first unused page number, and the freeDB as page sets by
transaction id. Each access to shared memory that can interleave is a step of
its own: a reader's load of mti_txnid, its store into the slot, the recheck
and the copy of the meta record; the writer's scan of the reader table, slot
by slot; each page written, spilled or written back by the system; sync, meta
write, the arrival of the meta record on disk, publication; and a crash in any
state, after which only what reached the disk is left. Which pages a tree
operation touches is left open, so the results hold for every one. The
invariant `Inv` is inductive (`StepInv`), hence the results speak of every
run with any number of readers and of crashes.

**Cursors that only read.** `Tree` is the tree as a value and `Flat` its
items in order. A cursor is a class with the stack of pages and indices of
MDB_cursor; its position refines to one index into `Flat`. Keys are compared
only through the database's comparison function, a total order, so a key is
its rank in that order. `Pairs` is the database as key/value pairs, duplicates
included.

**Cursors over a tree that changes.** `Tracking.Database` holds pages by
number, the root, the depth, the keys of branch nodes, the dirty pages and
every open cursor. Ghost rows `lv` list the pages of each level and, last, the
items. `At(pages, lv, c, q)` says that the stack c leads through the rows to
item q. Every fix-up loop of the source is a loop here, and the result says for
every open cursor which item it is on afterwards. `InOrder` says that the items
ascend and that each key of a branch node parts the items before its child from
the rest, which is what a search relies on: `Find` reaches every item and tells
when there is none. Each operation keeps it, so that mdb_put and mdb_del act on
the tree as on a map. The fill test of a page, the room in it and the split
point are arbitrary functions of the nodes and, on a branch page, of the keys
(`Sizes`), within the proportions `Proportioned` states: nodes are small next to
pages.

An object stands for one write transaction: `base` is what the pages were when
it began and `first` the number of its first new page. `Intact` says that every
page below `first` is as it was, and that the dirty pages are those from `first`
on; an operation writes only pages of which it knows that. So each change comes
with `CleanKept`: no page that was clean has been written.

**Bytes.** `SlottedPage` keeps a page's memory, its pointer array and the two
bounds, and its invariant says that the ghost sequence `nodes` is laid out in
it: each node's bytes at its pointer, no two overlapping, and the space between
the bounds exactly what the nodes leave.

## Where the code and its promises differ

- A reader copies the meta record after it has rechecked mti_txnid, so with
  two or more commits in between it reads a newer snapshot than the one its slot
  announces (`CopiedSnapshotIsPinned` says exactly when,
  `ReaderCanReadNewerThanPinned` is such a run). `SnapshotIsolation` holds for
  it all the same, since the slot protects more than it needs.
- `into_iter_dup_of` on a database without DUPSORT does not stop at the key:
  MDB_NEXT_DUP moves there like MDB_NEXT. `DupsOf` says exactly for which
  inputs only the values of the key are yielded, and `DupOfRunsOn` shows one
  where others are.
- `begin_nested_txn` while a resize is pending never returns, and neither does
  the resize (`NestedBeginDeadlocks`): the documented dead-lock of a thread
  that begins a transaction while it holds one, with the parent as the one held.
  `NestedBeginMeetsResizer` is a run that gets there, and a nested begin can
  return if and only if no blocker is raised (`NestedBeginReturns`).
- `resize_db_if_necessary` adds headroom and map size without a check. In a
  build without overflow checks the sum wraps, and the call can succeed with
  less room than asked for (`WrappedGoalFallsShort`). The same happens when
  another process has filled the file beyond this map (`OutgrownMapFallsShort`).
  `HeadroomIsMet` has the exact condition for both, in terms of what is known
  before the call.
- `Cursor::prev` on a new cursor is documented to start at the last item. The C
  function first looks at the index behind it, and in a DUPSORT database acts on
  what the bytes there say. `DbCursors.DbCursor.Prev` has the exact case:
  `Misled` holds if they pass for an item with values and the last key has
  several. Then the key found there is returned, with the value before the last.
- mdb_page_split checks its split point against the node sizes only if the page
  has fewer than 32 nodes, or the new node is large or comes last. Otherwise it
  takes the middle, and one half may exceed a page: mdb_node_add answers
  MDB_PAGE_FULL and the put fails. `SplitIndex` has the exact condition,
  `HalfOverflows` a page on which it happens, and `ManyNodesFit` the number of
  nodes from which on it cannot.

## Model

| member | source | states |
|---|---|---|
| MvccRuns.SnapshotIsolation | lmdb-sys/lmdb/libraries/liblmdb/mdb.c:2441-2631 | in every run with any number of readers, no page that mdb_page_alloc hands out is in the snapshot of a live reader or in either of the two latest committed snapshots |
| MvccRuns.ReaderSeesOneSnapshot | lmdb-sys/lmdb/libraries/liblmdb/mdb.c:3061-3066 | as long as a reader is open each page of its snapshot keeps its image, through any steps of writers, spills, flushes and commits |
| MvccRuns.OldestIsLowerBound | lmdb-sys/lmdb/libraries/liblmdb/mdb.c:2387-2402 | in every reachable state the cached me_pgoldest is at most the pin of every reader that has passed its recheck, and the pin at most mti_txnid |
| Mvcc.ScanBound | lmdb-sys/lmdb/libraries/liblmdb/mdb.c:2387-2402 | a scan of the reader table that went slot by slot while readers came and went ends with a lower bound of all pins |
| MvccRuns.ScanSetsOldest | lmdb-sys/lmdb/libraries/liblmdb/mdb.c:2387-2402 | a scan that no reader interferes with sets me_pgoldest to the least of mti_txnid and the ids in the slots |
| MvccRuns.CopiedSnapshotIsPinned | lmdb-sys/lmdb/libraries/liblmdb/mdb.c:3061-3066 | the copied meta record is never older than the announced id, and is that snapshot if and only if fewer than two meta records were written since |
| MvccRuns.ReaderCanReadNewerThanPinned | lmdb-sys/lmdb/libraries/liblmdb/mdb.c:3061-3066 | a reachable state in which a reader pinned at 0 reads snapshot 2 |
| MvccRuns.CommitsAreDurable | lmdb-sys/lmdb/libraries/liblmdb/mdb.c:4239-4362 | along every run, crashes included, the published transaction id never goes back |
| MvccRuns.CrashIsAtomic | lmdb-sys/lmdb/libraries/liblmdb/mdb.c:4033-4039 | whatever subset of writes the disk has, the newer meta record on it is the committed snapshot or the one whose meta write was under way, with every page intact and conserved |
| MvccRuns.CommittedImages | lmdb-sys/lmdb/libraries/liblmdb/mdb.c:3820-4110 | the snapshot that a commit seals has those images, whatever readers, scans, spills and write-backs went on between its operations |
| MvccRuns.PublishedIsSealed | lmdb-sys/lmdb/libraries/liblmdb/mdb.c:4239-4362 | what is published, in the file and on disk, is the snapshot as it was sealed, with every page in place |
| Mvcc.RecoveredOk | lmdb-sys/lmdb/libraries/liblmdb/mdb.c:4369-4374 | the record a restart picks is the old or the new one, and its freeDB spares the pages of both records on disk |
| MvccRuns.PagesAreConserved | lmdb-sys/lmdb/libraries/liblmdb/mdb.c:3441-3658 | in each committed snapshot the pages reached, those listed in the freeDB and the two meta pages add up to the first unused page number; in an open transaction the same partition holds at every nesting level |
| WriteTxn.TxnLevels | lmdb-sys/lmdb/libraries/liblmdb/mdb.c:2144-2186 | from the invariant: each page below mt_next_pgno is in exactly one of tree, unconsumed freeDB records, me_pghead, mt_free_pgs, loose pages, for the transaction and for each ancestor with its saved allocator state |
| WriteTxn.OpTxnOk | lmdb-sys/lmdb/libraries/liblmdb/mdb.c:2725-2757 | every writer operation (consuming a record, the three kinds of allocation, touching, freeing, loosening, freeing an overflow run, nesting) keeps the transaction's partition of pages |
| WriteTxn.OpExposed | lmdb-sys/lmdb/libraries/liblmdb/mdb.c:2441-2631 | no writer operation makes a page of a held snapshot writable, reusable or allocated |
| WriteTxn.ReusedAtOnce | lmdb-sys/lmdb/libraries/liblmdb/mdb.c:2441-2631 | any run of a record just reclaimed, or of an overflow run just freed, and a page just loosened, can be handed out next |
| WriteImages.LatestImages | lmdb-sys/lmdb/libraries/liblmdb/mdb.c:3863-3995 | in every run from the start of a transaction, nested commits and aborts included, each of its pages has the image that the last operation on it gave it that no abort has undone, and otherwise that of the last commit |
| WriteImages.DirtyIsTouched | lmdb-sys/lmdb/libraries/liblmdb/mdb.c:2725-2818 | in every run a transaction edits a page only after it has itself touched or allocated it, at its own level of nesting, however often its ancestors have |
| WriteTxn.SavedListed | lmdb-sys/lmdb/libraries/liblmdb/mdb.c:3570-3606 | the saved freeDB, with leftovers re-filed under keys up to me_pglast, lists exactly the unconsumed, left over and freed pages, once each, under keys no greater than the transaction id |
| Mvcc.SealConserved | lmdb-sys/lmdb/libraries/liblmdb/mdb.c:3441-3658 | the snapshot a commit writes partitions its pages, and its own freeDB lists none of them |
| WriteTxn.NestedLeavesParent | lmdb-sys/lmdb/libraries/liblmdb/mdb.c:3201-3243 | whatever a nested transaction and its descendants do, the lists and saved allocator state of the levels below are unchanged |
| WriteTxn.NestedAbortRestores | lmdb-sys/lmdb/libraries/liblmdb/mdb.c:3370-3376 | aborting a nested transaction after any operations restores the parent and its allocator state exactly |
| Mvcc.StepInv | lmdb-sys/lmdb/libraries/liblmdb/mdb.c:2997-4362 | the invariant behind these results is kept by each step of readers, writer, commit, disk and crash |
| MvccRuns.RunInv | lmdb-sys/lmdb/libraries/liblmdb/mdb.c:2997-4362 | the invariant holds in every state of every run |
| Interlock.RemapExcludesTransactions | src/transaction_guard.rs:13-85 | in every run the map is replaced only while no transaction handle is live, reset handles and writers not yet guarded included, although the backoff poll may read anything |
| Interlock.CountIsExact | src/transaction.rs:150-269 | tx_count is the number of guards held plus increments in flight, is positive at every decrement, and is zero once all is idle: no leak on failed begin or renew |
| Interlock.BlockerIsSingleOwner | src/environment.rs:349-359 | at most one blocker, raised exactly when the owner of db_resize_lock is in the middle of a remap; a top-level writer never sees one |
| Interlock.NoWriterBackoff | src/environment.rs:194-197 | a top-level writer never takes back its count and never spins |
| Interlock.HeldHandleStopsResizer | src/transaction_guard.rs:39-50 | while the owner of a counted handle does nothing, a resizer stays draining and no call gets out of TransactionGuard::new, in every continuation |
| Interlock.NestedBeginDeadlocks | src/transaction.rs:451-462 | a nested begin that meets a draining resizer: in every continuation neither returns and the map is never replaced |
| Interlock.NestedBeginReturns | src/transaction_guard.rs:13-39 | in every invariant state a nested begin inside TransactionGuard::new has a continuation in which it gets out if and only if no blocker is raised |
| Interlock.NestedBeginMeetsResizer | src/transaction.rs:451-462 | a reachable state in which a live writer begins a nested transaction while a resizer drains: no continuation lets it out |
| Interlock.StepInv | src/transaction_guard.rs:13-85 | the interlock's invariant is kept by each atomic step of each actor |
| Interlock.RunInv | src/transaction_guard.rs:13-85 | the invariant holds in every state of every interleaving of any number of actors |
| InterlockRuns.HandlesAreEarned | src/transaction.rs:150-269 | in every run each actor holds exactly what its own moves have earned: a handle of its kind from the begin or renew that succeeded until its end, parked between reset and renew, and nothing after one that failed |
| InterlockRuns.WriterGetsHandle | src/environment.rs:184-198 | a writer waiting for the lock while no handle is counted: whoever has the lock, and however often the writer maps the file anew, there is a continuation in which it gets its transaction |
| ResizeLoop.StepMoves | src/environment.rs:414-457 | a step's new size is a multiple of the page size and grows by at least min_step and less than max_step plus a page, and by at least the clamped request |
| ResizeLoop.AlignedIsLeast | src/environment.rs:429-435 | rounding gives the least multiple of the page size that is not smaller |
| ResizeLoop.StepPanics | src/environment.rs:429-442 | with the pages in use representable, a step panics if and only if the grown size is more than a page below the top of the word range |
| ResizeLoop.RatioStep | src/environment.rs:414-457 | a step without a request grows the map by the set per cent of its size, rounded up to a page, within the smallest and largest step |
| ResizeLoop.RequestStep | src/environment.rs:414-457 | a step on request grows it by the request, rounded up to a page, within the same bounds |
| ResizeLoop.DiskSuffices | src/environment.rs:445-478 | a growth beyond what the disk has free, or with no answer from it, is an error that leaves the map alone, and any other is made |
| ResizeLoop.ResizeIsBounded | src/environment.rs:146-162 | whatever the disk answers, at most max(1, ceil(required / max_step)) steps, and the map never shrinks |
| ResizeLoop.NothingToDo | src/environment.rs:372-392 | a call succeeds without a step if and only if the used part does not cross the trigger and the headroom, if one is asked for, is there |
| ResizeLoop.SuccessMeans | src/environment.rs:146-162 | on success without wrap-around the used part does not cross the trigger and the headroom is there, or the map has grown by the headroom, or, if none was asked for, by its share of the size |
| ResizeLoop.HeadroomIsMet | src/environment.rs:146-162 | on success, whatever the pages in use: the headroom is there if and only if it was there before, or the goal of the loop, wrapped or not, makes the least number of steps that reaches it long enough |
| ResizeLoop.InsideTheMap | src/environment.rs:146-162 | for pages in use inside the map that condition is: the goal does not wrap, or is not needed, or the first step makes the room |
| ResizeLoop.StepsAreLeast | src/environment.rs:154-161 | the number of steps in that condition is the least positive one that reaches the goal |
| ResizeLoop.WrappedGoalFallsShort | src/environment.rs:157 | an input with success and too little room, by wrap-around: a map of 256 MiB with two pages in use |
| ResizeLoop.OutgrownMapFallsShort | src/environment.rs:157 | an input with success and too little room, the file being larger than the map: 101 pages against a map of two |
| ResizeLoop.Environment.SetMapSize | lmdb-sys/lmdb/libraries/liblmdb/mdb.c:4512-4550 | the map gets at least the size asked for, or for 0 the size in the newest meta record, and at least the pages in use, and exactly that size if and only if the pages in use fit into it |
| ResizeLoop.Environment.DoResizeLocked | src/environment.rs:414-478 | the step against its specification: result, new map size in every outcome, alignment and bounds of the growth |
| ResizeLoop.Environment.ResizeIfNecessary | src/environment.rs:146-162 | the loop against its specification, its bound, and on success the headroom if and only if the condition known before the call holds |
| Midl.Search | lmdb-sys/lmdb/libraries/liblmdb/midl.c:34-66 | binary search: everything before the position is greater, everything from it on is not |
| Midl.Xmerge | lmdb-sys/lmdb/libraries/liblmdb/midl.c:201-213 | the in-place backward merge leaves the descending union of both lists as multisets and the rest of the array alone, also when the merged list lies in the tail of the same buffer |
| IdSequences.MergeOfDisjoint | lmdb-sys/lmdb/libraries/liblmdb/midl.c:201-213 | a merge of strictly descending lists without a common ID is strictly descending and holds exactly the IDs of both |
| MidlSort.Sort | lmdb-sys/lmdb/libraries/liblmdb/midl.c:221-279 | a descending permutation of any list under 2^30 IDs, in place; no index leaves the list or the 64-slot stack, and it terminates |
| MidlSort.Partition | lmdb-sys/lmdb/libraries/liblmdb/midl.c:245-266 | the median step and the two sentinel scans split a range around one ID |
| MidlSort.InsertionSort | lmdb-sys/lmdb/libraries/liblmdb/midl.c:232-240 | sorts a range with a scan that goes down to index 1, stopped by what lies left of the range |
| MidlSort.Divide | lmdb-sys/lmdb/libraries/liblmdb/midl.c:245-276 | pushing the larger part and keeping the smaller keeps at most 54 stack slots in use and makes progress |
| MidlSort.DepthBound | lmdb-sys/lmdb/libraries/liblmdb/midl.c:267-276 | a range worth partitioning has at most 26 pending ranges under it |
| MidlSort.SplitRange | lmdb-sys/lmdb/libraries/liblmdb/midl.c:267-276 | after a partition the pending ranges are still all that is left to sort |
| FreeList.TakeRun | lmdb-sys/lmdb/libraries/liblmdb/mdb.c:2491-2500 | the tail scan finds num consecutive pages if and only if there are any, takes the lowest run, and leaves a strictly descending list of exactly the others |
| FreeList.CutRun | lmdb-sys/lmdb/libraries/liblmdb/mdb.c:2614-2621 | moving the stragglers down removes exactly the run |
| FreeList.FillRecords | lmdb-sys/lmdb/libraries/liblmdb/mdb.c:3630-3656 | with enough room reserved, the records hold each page once in well-formed descending lists whose concatenation is me_pghead, none beyond me_pglast is reached, and the array is restored |
| FreeList.WriteSlice | lmdb-sys/lmdb/libraries/liblmdb/mdb.c:3648-3652 | borrowing the element before a slice for its count leaves the array unchanged |
| NestedMerge.Merge | lmdb-sys/lmdb/libraries/liblmdb/mdb.c:3945-3956 | the backward merge leaves the dirty list ascending, its pages the union with the child's entry winning, returns the replaced entries for freeing, and meets the asserted i == x |
| NestedMerge.MergedLength | lmdb-sys/lmdb/libraries/liblmdb/mdb.c:3928-3941 | the scan from the top counts the pages of both lists exactly |
| DirtyRoom.RoomGivesLength | lmdb-sys/lmdb/libraries/liblmdb/mdb.c:3942-3956 | in every run of a write transaction and one nested in it (spills, unspills, freed overflow pages, further nested commits and aborts included), the length the merged dirty list needs is UM_MAX less the room left in the child |
| DirtyRoom.ListsFit | lmdb-sys/lmdb/libraries/liblmdb/mdb.c:2760-2778 | in every run at any nesting depth the merged list fits into UM_MAX entries, and so does a copy made for a page dirty in an ancestor |
| DirtyRoom.CommitKeeps | lmdb-sys/lmdb/libraries/liblmdb/mdb.c:3942-3995 | the commit of a nested transaction, which hands its mt_dirty_room to the parent, keeps room and dirty pages of the parent in step |
| DirtyRoom.RunInv | lmdb-sys/lmdb/libraries/liblmdb/mdb.c:3191-3995 | at every level of every run, UM_MAX less the room is the number of pages that would be dirty if all nested transactions committed |
| NestedMerge.Search | lmdb-sys/lmdb/libraries/liblmdb/midl.c:281-314 | binary search in an ascending list |
| NestedMerge.Insert | lmdb-sys/lmdb/libraries/liblmdb/midl.c:316-345 | inserts in order, or reports a duplicate or a full list and changes nothing |
| SpillPrune.PruneSpill | lmdb-sys/lmdb/libraries/liblmdb/mdb.c:3887-3906 | of the live entries in the spill list exactly the child's dirty pages are removed, and the order is kept |
| SpillPrune.MarkDirty | lmdb-sys/lmdb/libraries/liblmdb/mdb.c:3889-3900 | one pass over the two oppositely ordered lists marks exactly the entries that name dirty pages |
| TreeCursor.NodeSearch | lmdb-sys/lmdb/libraries/liblmdb/mdb.c:5889-5977 | binary search in a page: the lower bound of the key, and whether it is there |
| TreeCursor.Route | lmdb-sys/lmdb/libraries/liblmdb/mdb.c:6396-6473 | the child followed from a branch page is the one whose range holds the key |
| TreeCursor.Cursor.PageSearch | lmdb-sys/lmdb/libraries/liblmdb/mdb.c:6509-6594 | the search arrives at the leaf outside of which no item can have the key |
| TreeCursor.RankInLeaf | lmdb-sys/lmdb/libraries/liblmdb/mdb.c:5889-5977 | the position found in that leaf is the key's rank among all items |
| Tree.ChildRange | lmdb-sys/lmdb/libraries/liblmdb/mdb.c:6427-6440 | separators send a key to the child that holds every item equal to it |
| TreeCursor.Cursor.Sibling | lmdb-sys/lmdb/libraries/liblmdb/mdb.c:6748-6802 | at any depth, the neighbouring page is the one whose items follow or precede; none is found exactly at the edge of the tree |
| TreeCursor.Cursor.First | lmdb-sys/lmdb/libraries/liblmdb/mdb.c:7184-7226 | the first item, or none in an empty tree |
| TreeCursor.Cursor.Last | lmdb-sys/lmdb/libraries/liblmdb/mdb.c:7230-7271 | the last item with C_EOF set, or none in an empty tree |
| TreeCursor.Cursor.Next | lmdb-sys/lmdb/libraries/liblmdb/mdb.c:6806-6894 | the position advances by one item across pages; at the end nothing moves and C_EOF is set |
| TreeCursor.Cursor.Prev | lmdb-sys/lmdb/libraries/liblmdb/mdb.c:6898-6980 | the position goes back by one item across pages, and stays at the start |
| TreeCursor.Cursor.Set | lmdb-sys/lmdb/libraries/liblmdb/mdb.c:6984-7180 | from any position, shortcuts within the current page included, the first item not below the key, or exactly it |
| TreeCursor.Cursor.OnThisPage | lmdb-sys/lmdb/libraries/liblmdb/mdb.c:7000-7089 | the shortcut on an initialised cursor answers only what the search from the root would |
| TreeCursor.Cursor.GetCurrent | lmdb-sys/lmdb/libraries/liblmdb/mdb.c:7288-7315 | the item under the cursor, without moving it |
| PairSeq.RankFrames | lmdb-sys/lmdb/libraries/liblmdb/mdb.c:6984-7180 | in a sorted database the pairs of a key are the consecutive ones from the rank of the key on |
| DbCursors.DbCursor.Enter | lmdb-sys/lmdb/libraries/liblmdb/mdb.c:8486-8523 | entering an item stands on its first or last value, in a sub-page as in a sub-tree |
| DbCursors.DbCursor.First | lmdb-sys/lmdb/libraries/liblmdb/mdb.c:7184-7226 | the first pair, duplicates counted |
| DbCursors.DbCursor.Last | lmdb-sys/lmdb/libraries/liblmdb/mdb.c:7230-7271 | the last pair, duplicates counted |
| DbCursors.DbCursor.Next | lmdb-sys/lmdb/libraries/liblmdb/mdb.c:6806-6894 | with MDB_NEXT the next pair; with MDB_NEXT_DUP the next pair of the same key, but any next pair without DUPSORT; the first pair from a new cursor, and in a plain database from any position, also one on no pair |
| DbCursors.DbCursor.Prev | lmdb-sys/lmdb/libraries/liblmdb/mdb.c:6898-6980 | the pair before, across values and keys; the last pair from a new cursor, but with what is returned instead if the bytes behind the last item mislead it; in a plain database from any position |
| DbCursors.DbCursor.Set | lmdb-sys/lmdb/libraries/liblmdb/mdb.c:6984-7180 | the first pair of the key, or of the first key not below it |
| DbCursors.DbCursor.LastDup | lmdb-sys/lmdb/libraries/liblmdb/mdb.c:7412-7447 | the last pair of the current key; errors without a position or without DUPSORT |
| DbCursors.DbCursor.GetCurrent | lmdb-sys/lmdb/libraries/liblmdb/mdb.c:7288-7315 | the current pair, without moving |
| Iterators.Iter.Next | src/cursor.rs:556-585 | yields the first of the remaining pairs and keeps the rest, or ends when none remain |
| Iterators.IntoIterStart | src/cursor.rs:94-101 | remaining pairs: all, whatever the cursor's position |
| Iterators.IntoIterRev | src/cursor.rs:122-132 | remaining pairs: all in reverse |
| Iterators.IntoIterFrom | src/cursor.rs:103-120 | remaining pairs: those with key at least k, in order |
| Iterators.IntoIterFromRev | src/cursor.rs:134-165 | remaining pairs: those with key at most k, in reverse |
| Iterators.IntoIterDupOf | src/cursor.rs:167-181 | remaining pairs: those of the key, or without DUPSORT all from a present key on |
| Iterators.Forward | src/cursor.rs:94-101 | from a fresh cursor on any tree, polling to the end yields every pair in order |
| Iterators.Backward | src/cursor.rs:122-132 | the exact reverse of all pairs |
| Iterators.FromKey | src/cursor.rs:103-120 | exactly the pairs with key at least k, in order |
| Iterators.FromKeyBackward | src/cursor.rs:134-165 | the exact reverse of the pairs with key at most k |
| Iterators.DupsOf | src/cursor.rs:167-181 | exactly the key's values if and only if the database has DUPSORT, lacks the key, or has no greater key |
| Iterators.DupOfRunsOn | src/cursor.rs:167-181 | a plain database on which the values of key 1 include those of key 2 |
| Levels.FromLeftKeeps | lmdb-sys/lmdb/libraries/liblmdb/mdb.c:8901-8930 | after a node moved in from the left neighbour at any level, every cursor's stack leads to the item it led to |
| Levels.FromRightKeeps | lmdb-sys/lmdb/libraries/liblmdb/mdb.c:8931-8957 | the same from the right |
| Levels.MergeKeeps | lmdb-sys/lmdb/libraries/liblmdb/mdb.c:9133-9157 | after a page is merged into its left neighbour every cursor's stack leads to the same item |
| Levels.ShrunkKeeps | lmdb-sys/lmdb/libraries/liblmdb/mdb.c:9399-9421 | after a delete every cursor keeps its item, and those on the deleted one get C_DEL and the next |
| Levels.GrownKeeps | lmdb-sys/lmdb/libraries/liblmdb/mdb.c:7907-7925 | after an insertion every cursor keeps its item |
| Levels.TornMoves | lmdb-sys/lmdb/libraries/liblmdb/mdb.c:9940-9950 | after a split a cursor whose item went to the new page is led there |
| Levels.TornStays | lmdb-sys/lmdb/libraries/liblmdb/mdb.c:9951-9954 | after a split every other cursor keeps its item |
| Levels.CollapseKeeps | lmdb-sys/lmdb/libraries/liblmdb/mdb.c:9265-9304 | after the root gave way to its only child every cursor keeps its item |
| Levels.RaiseKeeps | lmdb-sys/lmdb/libraries/liblmdb/mdb.c:9921-9939 | after a new root every cursor keeps its item |
| Tracking.Database.NodeMove | lmdb-sys/lmdb/libraries/liblmdb/mdb.c:8891-8957 | the part of mdb_node_move that takes the node over: every other cursor is adjusted by the fix-up that keeps its place |
| Tracking.Database.MoveKeyed | lmdb-sys/lmdb/libraries/liblmdb/mdb.c:8806-9020 | the whole of mdb_node_move but the write to the parent: with the key it returns in the parent, all keys of branch nodes are right again |
| Tracking.Database.PageMerge | lmdb-sys/lmdb/libraries/liblmdb/mdb.c:9059-9170 | the part of mdb_page_merge that takes the nodes over: the parent loses its entry, a dirty page becomes loose, and every other cursor is adjusted |
| Tracking.Database.KeyBeforeMerge | lmdb-sys/lmdb/libraries/liblmdb/mdb.c:9072-9101 | the first node of a merged branch page gets the lowest key below it, and with that all keys are right after the merge |
| Tracking.Database.Borrow | lmdb-sys/lmdb/libraries/liblmdb/mdb.c:9361-9366 | a move from a neighbour leaves the items as they were, each page with enough keys, and every cursor, the acting one included, on its item; the key it returns for the parent makes all keys right |
| Tracking.Database.Absorb | lmdb-sys/lmdb/libraries/liblmdb/mdb.c:9367-9379 | a merge leaves the items as they were and all keys right, only the parent possibly short, every cursor on its item, and the row with one page less |
| Tracking.Database.RootCase | lmdb-sys/lmdb/libraries/liblmdb/mdb.c:9229-9308 | an empty tree releases every cursor; a root with one child gives way; items, keys and cursors keep |
| Rebalancing.UpdateKey | lmdb-sys/lmdb/libraries/liblmdb/mdb.c:8716-8782 | a new key in a branch node: a key that fits leaves the pages as they are, and one that does not has the node deleted and the page split with MDB_SPLIT_REPLACE, up to the root if need be, so that its row has one page more; items, rows below, keys and every cursor keep |
| Rebalancing.BorrowAndUpdate | lmdb-sys/lmdb/libraries/liblmdb/mdb.c:8806-9020 | a move from a neighbour with its pages touched and the separator updated, split of the parent included: the page has one node more, and items, keys and cursors keep |
| Rebalancing.AbsorbAndGoOn | lmdb-sys/lmdb/libraries/liblmdb/mdb.c:9035-9190 | a merge with its pages touched, and the parent refilled after it: the row has one page less |
| Rebalancing.Rebalance | lmdb-sys/lmdb/libraries/liblmdb/mdb.c:9202-9382 | at any depth and for any fill, room and fit tests on nodes and keys: a page that has enough is left alone; any other but the root gets a node from a neighbour or is merged with it; the items are unchanged, the tree is well formed, all keys of branch nodes are right, every open cursor is on the item it was on, and no clean page is written |
| Touching.Touch | lmdb-sys/lmdb/libraries/liblmdb/mdb.c:2725-2817 | a clean page is copied, node for node, to a new number in its parent and in every cursor that has it; no clean page is written or becomes dirty; every cursor keeps its place, and keys that were right are right |
| Touching.CursorTouch | lmdb-sys/lmdb/libraries/liblmdb/mdb.c:7465-7487 | afterwards the whole path of the cursor consists of pages of this transaction, with items, keys and cursors kept and no clean page written |
| KeyedMoves.MovedKeys | lmdb-sys/lmdb/libraries/liblmdb/mdb.c:8806-9020 | after a node moved to its neighbour, on a leaf or on a branch page, the keys are right with the new separator and the lowest key put in |
| KeyedMoves.FusedKeys | lmdb-sys/lmdb/libraries/liblmdb/mdb.c:9035-9190 | the same for a merge |
| KeyedItems.KeysWithout | lmdb-sys/lmdb/libraries/liblmdb/mdb.c:9386-9480 | keys that are right stay right when an item goes |
| KeyedItems.KeysWith | lmdb-sys/lmdb/libraries/liblmdb/mdb.c:7890-7925 | and when an item comes into the leaf where a search leads its key |
| Deletion.Sibling | lmdb-sys/lmdb/libraries/liblmdb/mdb.c:6748-6802 | moving to the right neighbour page at any level; none exactly at the end of the row |
| Deletion.Settle | lmdb-sys/lmdb/libraries/liblmdb/mdb.c:9436-9450 | a cursor past the last node of its page goes to the next page, or gets C_EOF |
| Deletion.Del0 | lmdb-sys/lmdb/libraries/liblmdb/mdb.c:9386-9480 | exactly the item under the acting cursor goes, and all keys are right; a leaf with enough left stays, any other is helped out by a neighbour; every other cursor keeps its item, and those on the deleted one are on its successor with C_DEL, or at the end with C_EOF; no clean page is written |
| Walk.Next | lmdb-sys/lmdb/libraries/liblmdb/mdb.c:6806-6894 | the next item, or after a delete the one that took the deleted item's place; no other cursor moves |
| Walk.Del | src/cursor.rs:308-343 | the path is touched, the item under the cursor goes, the tree stays in order and every cursor follows; no clean page is written; the two error cases change nothing |
| Walk.WalkAndDelete | src/cursor.rs:372-404 | for every tree of a database without duplicates and every predicate, "next; if it matches, del" visits each original item once in order and leaves exactly those that do not match, in a tree in order, with no clean page written |
| Insertion.AddNode | lmdb-sys/lmdb/libraries/liblmdb/mdb.c:7890-7925 | an insertion or replacement for which the leaf has room, after mdb_cursor_touch, changes that leaf alone and the items just so, keeps all keys right, and every other cursor keeps its item |
| PageSplit.DealNodes | lmdb-sys/lmdb/libraries/liblmdb/mdb.c:9814-9889 | the loop deals the nodes and the new one out as the two halves of the page with the new node, and finds its index |
| SplitSteps.SplitSimple | lmdb-sys/lmdb/libraries/liblmdb/mdb.c:9554-9960 | a split of a page of any row whose parent has room: the rows below take in the new node, keys are right, every cursor keeps its place |
| SplitSteps.SplitRoot | lmdb-sys/lmdb/libraries/liblmdb/mdb.c:9594-9640 | a split of the root, leaf or branch: the same, with one row more |
| Splitting.SplitDeep | lmdb-sys/lmdb/libraries/liblmdb/mdb.c:9761-9795 | a split whose parent is full: the parent is split first, both pages find their parents again, and the same holds |
| Splitting.LeftParentFound | lmdb-sys/lmdb/libraries/liblmdb/mdb.c:9781-9799 | after the split of the parent the index of the left page is inside its parent, so the search for a changed parent is never entered for a tracked cursor |
| Splitting.Split | lmdb-sys/lmdb/libraries/liblmdb/mdb.c:9554-9967 | mdb_page_split of a page of any row, for a new node or in place of one, recursive up to a new root: the page is divided exactly at the split point its nodes call for; rows, keys and every cursor as they should be, and no clean page written |
| Putting.Put | lmdb-sys/lmdb/libraries/liblmdb/mdb.c:7495-7925 | mdb_cursor_put of one item where its key belongs, or over the one with its key: the items change just so; if the leaf has room no row changes in length, and if not there is one leaf more; keys are right, every other cursor keeps its item, and no clean page is written |
| SplitPoint.SplitIndex | lmdb-sys/lmdb/libraries/liblmdb/mdb.c:9656-9745 | a split leaves each page the nodes it needs, both halves fit if and only if the split point was checked or the new node fits beside the half it joins, and the point is the middle or the nearest to it that fits, but as far right as fits when the new node comes last |
| SplitPoint.HalfOverflows | lmdb-sys/lmdb/libraries/liblmdb/mdb.c:9700-9740 | a full leaf of 32 nodes in which the unchecked split point leaves a half that no page can hold |
| SplitPoint.ManyNodesFit | lmdb-sys/lmdb/libraries/liblmdb/mdb.c:9718 | with enough nodes in the page the unchecked split point always fits |
| SplitPoint.FullHasNodes | lmdb-sys/lmdb/libraries/liblmdb/mdb.c:4938-4939 | a page without room for one more node holds at least as many as always fit: two on a leaf by me_nodemax, seven on a branch page of 4096 bytes by MDB_MAXKEYSIZE |
| Searching.Route | lmdb-sys/lmdb/libraries/liblmdb/mdb.c:6421-6440 | the child of a branch page that a search for a key goes on to |
| Searching.PageSearch | lmdb-sys/lmdb/libraries/liblmdb/mdb.c:6396-6462 | the search ends at the leaf where the key belongs: no item with the key is outside of it |
| Searching.Find | lmdb-sys/lmdb/libraries/liblmdb/mdb.c:6984-7100 | in a tree in order the search is exact if and only if some item has the key, and is then on it; otherwise it is where the key keeps the order |
| KeyValue.Begin | lmdb-sys/lmdb/libraries/liblmdb/mdb.c:3098-3102 | a transaction on any well-formed tree that a commit has left meets the invariant that every operation keeps |
| KeyValue.Create | lmdb-sys/lmdb/libraries/liblmdb/mdb.c:10772-10784 | so does one on a database without a root |
| KeyValue.CommitStands | lmdb-sys/lmdb/libraries/liblmdb/mdb.c:2725-2757 | in every state of a transaction the tree of the last commit is there as it was: all its pages unchanged and clean, with the same items |
| KeyValue.Get | lmdb-sys/lmdb/libraries/liblmdb/mdb.c:6714-6737 | an item with the key if and only if there is one |
| KeyValue.Put | lmdb-sys/lmdb/libraries/liblmdb/mdb.c:9969-9990 | after mdb_put the items are those before but any with the key, and the new one; with MDB_NOOVERWRITE a present key changes nothing; every open cursor is on its item or on what replaced it; the tree stays in order, and the committed one is untouched |
| KeyValue.Delete | lmdb-sys/lmdb/libraries/liblmdb/mdb.c:9483-9535 | after mdb_del the items are those before but any with the key; every open cursor follows, the tree stays in order, and the committed one is untouched |
| PageNodes.AddLaid | lmdb-sys/lmdb/libraries/liblmdb/mdb.c:8292-8335 | a node written just below the others leaves all others' bytes and overlaps none |
| PageNodes.DelLaid | lmdb-sys/lmdb/libraries/liblmdb/mdb.c:8386-8400 | closing the gap leaves every other node's bytes, at its adjusted pointer |
| PageNodes.KeyLaid | lmdb-sys/lmdb/libraries/liblmdb/mdb.c:8749-8779 | moving the lower nodes by the difference of the key sizes leaves every other node's bytes |
| SlottedPage.SlottedPage.FreeSpace | lmdb-sys/lmdb/libraries/liblmdb/mdb.c:8225-8401 | the free space is the page without its header and without each node's even size plus its pointer |
| SlottedPage.SlottedPage.NodeAdd | lmdb-sys/lmdb/libraries/liblmdb/mdb.c:8225-8344 | adds the node at the index if and only if it fits, and leaves a full page as it was; the bytes then read back as what was given: the page number, or the data size, the flags with F_BIGDATA exactly if the data is elsewhere, the key, and the data or the number of its overflow page |
| SlottedPage.SlottedPage.NodeDel | lmdb-sys/lmdb/libraries/liblmdb/mdb.c:8352-8401 | removes exactly the node at the index from the sequence |
| SlottedPage.SlottedPage.UpdateKey | lmdb-sys/lmdb/libraries/liblmdb/mdb.c:8716-8782 | replaces exactly the key of the node at the index if and only if the growth fits; when it does not the page is left for the split |
| LeafBalance.MoveFits | lmdb-sys/lmdb/libraries/liblmdb/mdb.c:9361-9362 | a leaf under the fill threshold has room for any node of at most me_nodemax |
| LeafBalance.MergeFits | lmdb-sys/lmdb/libraries/liblmdb/mdb.c:9367-9377 | if a neighbour cannot spare a node, all nodes of both leaves fit into one page |
| LeafBalance.MoveNode | lmdb-sys/lmdb/libraries/liblmdb/mdb.c:8806-9020 | moving a node between leaves in the case rebalancing chooses never meets MDB_PAGE_FULL, and the two pages hold the same nodes in the same order |
| LeafBalance.MergeInto | lmdb-sys/lmdb/libraries/liblmdb/mdb.c:9059-9102 | merging in the case rebalancing chooses never meets MDB_PAGE_FULL and appends the nodes |
| PageTree.EmitTiles | lmdb-sys/lmdb/libraries/liblmdb/mdb.c:10123-10276 | the pages written number their range exactly, with no gap or repeat, overflow runs counted by their length |
| PageTree.EmitCopies | lmdb-sys/lmdb/libraries/liblmdb/mdb.c:10123-10276 | a file holding those pages holds at the root number a tree isomorphic to the source: keys, data, overflow runs and sub-databases |
| PageTree.FileHolds | lmdb-sys/lmdb/libraries/liblmdb/mdb.c:10123-10276 | no page written overwrites another |
| CompactCopy.Copier.CWalk | lmdb-sys/lmdb/libraries/liblmdb/mdb.c:10123-10276 | the walk with its explicit stack writes exactly the post-order sequence and returns the root's number |
| CompactCopy.Copier.CopyNode | lmdb-sys/lmdb/libraries/liblmdb/mdb.c:10169-10226 | a leaf node: its overflow run copied, or its sub-database walked, and the reference renumbered |
| CompactCopy.CopyFd1 | lmdb-sys/lmdb/libraries/liblmdb/mdb.c:10350-10386 | succeeds if and only if no page is unaccounted for; then the root is where it was predicted, pages are 2..n, and the file holds an isomorphic copy |
| TextCodec.TextRoundTrip | lmdb-sys/lmdb/libraries/liblmdb/mdb_dump.c:58-77 | parsing a printed value gives the value back, whatever isprint says |
| TextCodec.BytesRoundTrip | lmdb-sys/lmdb/libraries/liblmdb/mdb_dump.c:79-90 | the same for hexadecimal digits |
| TextCodec.UnhexHex | lmdb-sys/lmdb/libraries/liblmdb/mdb_load.c:161-173 | the masked arithmetic of unhex undoes hex for every byte |
| TextCodec.EncodedPlain | lmdb-sys/lmdb/libraries/liblmdb/mdb_dump.c:58-90 | a printed value holds no line end and no NUL |
| TextCodec.PrintedOne | lmdb-sys/lmdb/libraries/liblmdb/mdb_dump.c:50-76 | a printable byte is printed as itself, a backslash doubled, any other as an escape with the high digit first |
| TextCodec.PrintedAs | lmdb-sys/lmdb/libraries/liblmdb/mdb_dump.c:50-76 | the bytes of a value are printed one after the other |
| TextCodec.ReadableAsIs | lmdb-sys/lmdb/libraries/liblmdb/mdb_dump.c:50-76 | readable text is printed as it is |
| TextCodec.DigitsAs | lmdb-sys/lmdb/libraries/liblmdb/mdb_dump.c:50-90 | in the other format each byte is two digits, the high one first |
| DumpLoad.PrintText | lmdb-sys/lmdb/libraries/liblmdb/mdb_dump.c:58-77 | the loop prints the line the codec specifies |
| DumpLoad.PrintBytes | lmdb-sys/lmdb/libraries/liblmdb/mdb_dump.c:79-90 | the same in digits |
| DumpLoad.Dump | lmdb-sys/lmdb/libraries/liblmdb/mdb_dump.c:134-147 | prints the records of all pairs and DATA=END |
| DumpLoad.Gather | lmdb-sys/lmdb/libraries/liblmdb/mdb_load.c:200-233 | with a buffer doubled as often as needed the whole line, however long, arrives unchanged; none if the input ends first |
| DumpLoad.DecodeText | lmdb-sys/lmdb/libraries/liblmdb/mdb_load.c:235-253 | the two-pointer decoding in place succeeds exactly when the line parses and leaves its value at the front |
| DumpLoad.DecodeBytes | lmdb-sys/lmdb/libraries/liblmdb/mdb_load.c:254-270 | the same for digits, odd lengths and bad digits refused |
| DumpLoad.Readline | lmdb-sys/lmdb/libraries/liblmdb/mdb_load.c:175-275 | one call: a value and the input right after its line, or the end, or malformed input |
| DumpLoad.Load | lmdb-sys/lmdb/libraries/liblmdb/mdb_load.c:418-440 | on any NUL-free input, what is loaded is what the input amounts to, and it stops after the end line |
| DumpLoad.RecordsReadBack | lmdb-sys/lmdb/libraries/liblmdb/mdb_dump.c:134-147 | what is printed for any list of pairs amounts to that list |
| DumpLoad.RoundTrip | lmdb-sys/lmdb/libraries/liblmdb/mdb_load.c:175-275 | dumping any list of byte-string pairs in either format and loading it with any initial buffers gives the list and consumes the whole input |

## Left out

- Memory ordering weaker than the atomic interleaving of the SeqCst operations, and the wrap-around of the 32-bit counters tx_count and tx_blocker_count.
- Operating-system plumbing: mmap, file writes, lock files, mutex recovery, clearing of stale readers. Writes, write-back and sync are atomic steps.
- A failed or torn write of a meta record, and the recovery attempt after it; the meta record is written and reaches the disk as one.
- MDB_WRITEMAP, MDB_NOSYNC, MDB_NOMETASYNC, MDB_NOLOCK, MDB_PREVSNAPSHOT, MDB_VL32, MDB_DEVEL and Windows.
- LEAF2 pages (DUPFIXED), MDB_MULTIPLE, MDB_APPEND and MDB_RESERVE.
- Termination of the outer loop of mdb_freelist_save; that loop appears only through the records it may leave behind.
- Growing an ID list (mdb_midl_need, mdb_midl_grow) and failing allocations.
- Page spilling, beyond the step that writes a dirty page early, its effect on the room in the dirty list, and the pruning of the parent's spill list; removing a child's spilled pages from the parent's dirty list.
- DUPSORT in the models that write (Tracking to KeyValue): the sub-cursor refreshes are not modelled, and an item is a key with one value.
- Splitting.Split: MDB_APPEND, which puts the split point at the new node. A half that does not fit (SplitPoint) ends the put with an error in the source; the model goes on as if it fitted.
- Rebalancing.Rebalance: a branch page below the fill threshold has room for the lowest key that mdb_node_move puts into its first node, and the erasing of a first node's key always fits.
- Rebalancing.UpdateKey: whether the longer key fits is an arbitrary function of the page's nodes and keys.
- Tracking.Database: that its size tests meet `Proportioned` is a precondition; SplitPoint.SplitIndex and SplitPoint.FullHasNodes prove what it says from the sizes of nodes. The key of a branch node is kept by the page the node leads to, so the keys in a committed branch page are not apart from those in its copy; that committed pages stay as they are is said of their nodes.
- Searching.Find: the search goes from the root, as in mdb_get, mdb_put and mdb_del with their new cursors; the shortcut of a cursor that stands on the page is TreeCursor.Cursor.OnThisPage.
- KeyValue.Put: MDB_RESERVE and the other flags but MDB_NOOVERWRITE; overflow pages are not apart from the items they hold.
- The freelist in the cursor models: mdb_page_new hands out loose pages and then new numbers. A failing allocation, and what the source leaves behind after one, is not modelled.
- Trees deeper than CURSOR_STACK, for which the source returns MDB_CURSOR_FULL.
- TreeCursor.Cursor.Set: the key is not empty (MDB_BAD_VALSIZE), which is also what the iterators demand.
- DbCursors.DbCursor.Prev: a positioned DUPSORT cursor stands on a pair, as any move but a failed exact MDB_SET leaves it. From a new DUPSORT cursor, bytes behind the last item that pass for an item with values, when the last key has one value, make the source follow a value cursor that was never set up; there is no result to state.
- DbCursors.DbCursor.Next: a positioned DUPSORT cursor stands on a pair, as any move but a failed exact MDB_SET leaves it.
- MDB_FIRST_DUP, MDB_GET_BOTH, MDB_GET_BOTH_RANGE, MDB_NEXT_NODUP and MDB_PREV_NODUP: no iterator uses them.
- LeafBalance covers leaves, and SplitPoint takes a page's node sizes as given.
- SlottedPage.SlottedPage.UpdateKey: a growth that does not fit is answered with false; the split it leads to is Rebalancing.UpdateKey.
- SlottedPage.SlottedPage: the pointer array is a field of its own, beside the bytes it shares the page with in the source; that pointers and nodes do not overlap is the order of the two bounds.
- Double buffering, the writer thread and write errors of the compacting copy.
- Headers, several databases, the modes without header and for appending in mdb_load; NUL bytes in its input, at which fgets and strlen disagree.
- ResizeLoop.Environment.ResizeIfNecessary: the used fraction against the trigger is an arbitrary predicate instead of 32-bit floating point; the page count in use stays fixed during the call; the resize callback is left out.
- Error-code mapping, flags, bindings, builders, getters, named-database handles and lifetimes.
