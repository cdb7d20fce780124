# Verified models of the storage engine and of the host table

The arp tools keep their data in a vendored copy of LMDB (`lib/liblmdb`), and `hostwatch` keeps a table of byte
counts of its own. This project models the parts of both in which most can go wrong, and proves what they promise.
`dafny verify dfyconfig.toml` checks everything.

The configuration modelled is the default build: 64 bits, no `MDB_VL32`, no `MDB_WRITEMAP`, POSIX mutexes, no
`MDB_DUPSORT` except where the compacting copy walks sub-databases.

**Readers, the writer and crashes** (`Mvcc`, `MvccSafety`, `MvccScan`, `MvccRecent`, `MvccCommit`, `MvccWrites`).
One state machine for the reader table, the two meta pages, the file and the page lists of the writer. Readers load,
store and re-read the published transaction id in separate steps; the writer walks the table slot by slot, and looks
at pid and id of a slot in separate steps; processes die and slots are swept; a crash leaves arbitrary contents in
every page that was not synced. Shared variables are sequentially consistent, a sync writes everything before it,
and the write of a meta page is atomic; these are the assumptions.

**The B+tree** (`SplitPoint`, `BTree`, `BTreeItems`, `BTreePut`, `BTreeMap`, `BTreeDelete`, `BTreeRebalance`,
`BTreeFill`, `BTreeFull`). Pages are nodes of a tree, with the byte sizes that decide about splits, moves and
merges. A key is its place in the user's order, a real number (every countable order embeds in the reals), and its
length. Put and delete refine the update of a map. `SplitPoint` is the search for the split point, as the loop it
is. One promise does not hold: when the split point is not searched for, because the page has 32 nodes or more and
the new one is small and not the last, the page is cut in the middle, and the half that takes the new node may be
too large. Then the whole operation fails with `MDB_PAGE_FULL`. `BTreeFull.UnluckyPut` is a well-formed database and
a put that fails, `BTreeFull.UnluckyDelete` one and a deletion that fails (a longer separator asks for the split).
`BTreeMap.PutCorrect` and `BTreeRebalance.DeleteCorrect` say for all databases exactly when it happens: some page on
the way to the key must take a node, has no room for it, has 32 nodes or more, and the half of it with the new node
is larger than a page.

**Cursors** (`Cursor`). The stack of pages from the root to a leaf, updated in place by search, sibling steps and
the four ways to move. A cursor stands at an index of the list of all entries, and all operations are specified by
that index.

**Page lists** (`Midl`, `MidlSort`, `MidlGrow`, `PageRuns`, `PageAlloc`, `AllocSteps`, `FreelistSave`). ID lists are
arrays with their length in front: search, merge, quicksort with the explicit stack, growth; runs of consecutive
pages; the allocator, which refines the writer of the state machine; and the loop that saves the free pages in the
database whose own pages come from the list being saved. What the operations on the free database change on the way
is a parameter, a finite script over which everything is proved, termination included.

**Nested transactions** (`NestedTxn`, `NestedViews`, `NestedLists`). A stack of transactions with dirty and spill
lists over one another, and the in-place merge of the lists at commit.

**The compacting copy** (`Compact`, `CompactRoot`, `CopyPipe`). The walk that renumbers pages as it writes them; the
root that is computed beforehand from the number of free pages, and what it says about leaked ones; and the two
threads with their two buffers.

**Slotted pages** (`SlottedPage`, `PageMoves`, `PageDecode`). Pages as bytes: adding, deleting and rekeying nodes
moves bytes and pointers; splitting, merging and borrowing copies nodes from page to page, with the pointer array of
the temporary page overwritten while it is read. The split of a page of bytes is the one whose split point
`SplitPoint` finds. For every meaning given to keys and data, a page decodes to a node of the tree, and splits,
merges and moves of bytes are those of the tree.

**The sweep for stale readers** (`ReaderSweep`, `SweepAlone`). Processes, pid locks, slots and the reader mutex,
with pids that are used again.

**Dump and load** (`DumpLoad`). The printer, and the parser that decodes in its own buffer.

**sntools' own list and host table** (`LinkedItems`, `Hostwatch`). The intrusive list with its sort by relinking,
and the sliding window of byte counts that is sorted with it.

Where the code and its comments disagree, the code is modelled: `mdb_midl_search` works on descending lists, though
midl.h:84 says that it looks for the first id greater than or equal.

## Model

| member | source | states |
|---|---|---|
| `MvccSafety.StepKeeps` | lib/liblmdb/mdb.c:2994-3064 | Every step of readers, writer, process death and crash keeps the whole invariant: at most one state of the reader table, page lists, snapshots and file contents that fit together |
| `MvccSafety.RunKeeps` | lib/liblmdb/mdb.c:3019-3064 | Every state of every run, with any number of readers and any interleaving, satisfies the invariant |
| `MvccSafety.NeverHandedOut` | lib/liblmdb/mdb.c:2434-2624 | Over every run: a page that the writer takes or overwrites is in no snapshot that a registered reader uses, or is about to find in its meta page, and not in the newest committed snapshot |
| `MvccSafety.ReadersSeeTheirSnapshot` | lib/liblmdb/mdb.c:3058-3063 | Over every run: all pages of the snapshot a reader copied from its meta page are in the file with the contents they were committed with, even if that snapshot is newer than the id the reader registered |
| `MvccSafety.ReadsRepeat` | lib/liblmdb/mdb.c:761-771 | A reader that stays in one transaction finds the same contents in a page of its snapshot whenever it looks |
| `MvccSafety.OldestIsLowerBound` | lib/liblmdb/mdb.c:2376-2391 | Over every run: the oldest-reader id that any process has cached, also from a scan that read slots one by one while readers came and went, is never above the id of a live reader |
| `MvccScan.OldestWasThere` | lib/liblmdb/mdb.c:2376-2391 | Over every run: the id that the walk over the reader table leaves as the oldest is the writer base or was held, when it was looked at, by a slot in which a pid had been seen; it is not above the base nor any id that was looked at; and no slot was left out |
| `MvccScan.OldestAlone` | lib/liblmdb/mdb.c:2376-2391 | With no other step in between it is exactly the least of the writer base and the ids in all slots with a pid |
| `MvccScan.AloneEnds` | lib/liblmdb/mdb.c:2382-2388 | Such a walk always comes to its end |
| `MvccScan.NobodyReads` | lib/liblmdb/mdb.c:2376-2391 | Over every run: if no slot belongs to a reader in a transaction, such a walk finds the base, so that everything before it may be reclaimed |
| `MvccRecent.ReaderAlone` | lib/liblmdb/mdb.c:3052-3063 | A reader that begins with nothing else in between is registered at the first attempt, at the published id, and finds the snapshot of that id in its meta page; that is the newest one if nobody is writing |
| `MvccRecent.ReadsAreRecent` | lib/liblmdb/mdb.c:3052-3063 | Over every run: a reader that had not begun when a transaction was published sees that transaction or a later one |
| `MvccRecent.IdleHoldsNothing` | lib/liblmdb/mdb.c:3325-3334 | Over every run: a reader that has ended its transaction holds back no record |
| `MvccRecent.DeadHoldOn` | lib/liblmdb/mdb.c:11217-11266 | The slots of a process that dies stay as they are and hold back records until they are swept |
| `MvccRecent.SlotComesFree` | lib/liblmdb/mdb.c:3019-3050 | A slot that is given up, or swept after its process died, can be claimed again |
| `MvccWrites.CommittedIsWritten` | lib/liblmdb/mdb.c:3663-3760 | Over every run: a committed snapshot holds on every page what the last step of its transaction that wrote there put on it, no page that was freed and not used again, and for the rest exactly what the newest snapshot held when the transaction began |
| `MvccWrites.FreedPagesWait` | lib/liblmdb/mdb.c:2133-2174 | Over every run: a page that a transaction frees, and did not take itself, is not taken again as long as the transaction lasts |
| `MvccWrites.ListedUnderId` | lib/liblmdb/mdb.c:3529-3562 | It is listed under the id of the transaction in the snapshot that is committed |
| `MvccSafety.SavedIsNext` | lib/liblmdb/mdb.c:3564-3593 | After the free lists are saved, with what is left of me_pghead under any keys from 1 to me_pglast, the new snapshot accounts for every page once and keeps the order of the history that later reclaiming relies on |
| `MvccSafety.PagesConserved` | lib/liblmdb/mdb.c:967-970 | Over every run: the pages from 2 up are the disjoint union of tree and free records in the newest snapshot; in a running transaction, of tree, unread records, me_pghead, freed pages and loose pages |
| `MvccSafety.CrashReopens` | lib/liblmdb/mdb.c:4287-4395 | A crash in any state, with arbitrary contents for all pages written since the last sync, leaves the newest snapshot or the one before it, complete; the older one only if the newest meta page was not yet durable |
| `MvccSafety.DurableStays` | lib/liblmdb/mdb.c:4107-4114 | What was durable in some state of a run stays durable in all later ones |
| `MvccSafety.CommitsSurvive` | lib/liblmdb/mdb.c:4391-4394 | A transaction whose commit returned is never lost, whatever happens after it, crashes included |
| `MvccCommit.CommitAlone` | lib/liblmdb/mdb.c:4095-4113 | A commit with nothing else in between goes through from any state of the work: all pages are written, and the snapshot it saves becomes the newest one, durable and published |
| `MvccCommit.AbortLeavesNothing` | lib/liblmdb/mdb.c:3350-3365 | After an abort the file, the snapshots and the published id are as they were, the newest snapshot is complete, and another transaction can begin |
| `MvccSafety.TwoSnapshotsKept` | lib/liblmdb/mdb.c:4402-4407 | Over every run: all pages of the newest snapshot are durable with their contents, and all of the one before it while no record under its key has been reclaimed: transaction N overwrites nothing of N-1 and N-2 before its meta page |
| `MvccSafety.PreviousStaysWanted` | lib/liblmdb/mdb.c:4402-4407 | When that condition ends in a run: by a step, if and only if the step is a crash that falls back to the older meta page after a later transaction has reclaimed a record under its key |
| `MvccSafety.PreviousIsWanted` | lib/liblmdb/mdb.c:4402-4407 | So it holds in every state of a run up to which no such crash happens, whatever else does |
| `SplitPoint.FindSplit` | lib/liblmdb/mdb.c:9791-9821 | The two-way scan computes the split index that the following lemmas are about, for every page and place of the new node |
| `SplitPoint.ScannedSplitFits` | lib/liblmdb/mdb.c:9791-9821 | Whenever the scan runs, both pages get at least one node and hold their nodes, for all sizes up to me_nodemax, the key of the first node of a right branch page being dropped |
| `SplitPoint.UnscannedSplitFits` | lib/liblmdb/mdb.c:9707-9821 | Without the scan the page is cut in the middle, and the split succeeds if and only if the half that takes the new node is not too large |
| `SplitPoint.SplitSucceeds` | lib/liblmdb/mdb.c:9747-9933 | A split succeeds if and only if the scan runs or the half that takes the new node is not too large |
| `SplitPoint.UnluckySplit` | lib/liblmdb/mdb.c:9707-9821 | A concrete page of 32 small and large nodes for which the cut in the middle does not fit |
| `BTreePut.PutInOk` | lib/liblmdb/mdb.c:9628-10041 | Insertion below a page, through any number of splits, leaves well-formed pages of uniform depth whose entries are the old ones with the new one in its place; it fails if and only if a page on the way that must take a node has no room and cannot be split |
| `BTreeMap.PutCorrect` | lib/liblmdb/mdb.c:7559-8083 | mdb_put yields an ordered tree of uniform depth, no page overfull or underfull beyond what the code allows, in which one entry is put in or replaced and all others are unchanged: it has the key and the data as given, and is on overflow pages exactly if key and data are too long for half a page, or, overwritten in place, it is the old one with the new data; so the tree denotes the updated map; MDB_BAD_VALSIZE exactly when the key size is bad; MDB_PAGE_FULL exactly when a page on the way to the key must take a node, has no room, and cannot be split |
| `BTreeMap.PutNeverFull` | lib/liblmdb/mdb.c:9791-9798 | In particular a put never fails with MDB_PAGE_FULL if the pages on the way to the key have fewer than 32 nodes |
| `BTreeFull.UnluckyPut` | lib/liblmdb/mdb.c:9791-9933 | A well-formed database, one leaf with 16 small and 16 large records, and a record of ordinary size whose put fails with MDB_PAGE_FULL |
| `BTreeFull.UnluckyDelete` | lib/liblmdb/mdb.c:8782-8848 | A well-formed database of 34 leaves and a key in it whose deletion fails with MDB_PAGE_FULL: the separator that replaces another is longer and asks for a split of the branch page that does not fit |
| `BTreeMap.GetCorrect` | lib/liblmdb/mdb.c:6784-6807 | mdb_get returns the data that the map has for the key, and MDB_NOTFOUND exactly when it has none |
| `BTreeMap.SeekCorrect` | lib/liblmdb/mdb.c:7049-7243 | MDB_SET_RANGE returns the stored entry with the least key at or above the one asked for, and MDB_NOTFOUND exactly when there is none |
| `BTreeMap.ItemsSorted` | lib/liblmdb/mdb.c:954-958 | The entries of a well-formed tree, left to right, are in strictly ascending order |
| `BTreeRebalance.RightMoveOk` | lib/liblmdb/mdb.c:8872-9090 | A node that mdb_rebalance borrows from the right neighbour fits; both pages and the separator between them are well formed afterwards and hold the same entries |
| `BTreeRebalance.LeftMoveOk` | lib/liblmdb/mdb.c:8872-9090 | The same for a node borrowed from the left neighbour |
| `BTreeRebalance.MergeOk` | lib/liblmdb/mdb.c:9101-9236 | If one neighbour is short and the other has nothing to lend, the merged page fits and holds the entries of both |
| `BTreeRebalance.UpdateSepOk` | lib/liblmdb/mdb.c:8782-8848 | A separator replaced by a longer one, which may split the branch page, leaves the same entries and an ordered page |
| `BTreeRebalance.BalanceOk` | lib/liblmdb/mdb.c:9268-9448 | Borrowing or merging two neighbours, one of them short, leaves a well-formed branch with the same entries; it may lose one node |
| `BTreeRebalance.AfterChangeOk` | lib/liblmdb/mdb.c:9268-9448 | After any change of a child that leaves it at most one node short, rebalancing with the neighbour the code chooses leaves the branch well formed |
| `BTreeRebalance.DelInOk` | lib/liblmdb/mdb.c:9452-9554 | Deletion below a page, with rebalancing on all levels, leaves well-formed pages of uniform depth with the old entries less the key; it fails if and only if a branch page on the way must take a longer separator or another one, has no room, and cannot be split |
| `BTreeRebalance.RebalanceRootOk` | lib/liblmdb/mdb.c:9288-9375 | An empty root leaf gives an empty database, a root branch with one child gives way to the child, and the entries stay the same |
| `BTreeRebalance.DeleteCorrect` | lib/liblmdb/mdb.c:9575-9614 | mdb_del yields a well-formed tree with the entry taken out and all others unchanged, so that it denotes the old map without the key; MDB_NOTFOUND exactly when the map does not have it; MDB_PAGE_FULL exactly when a branch page on the way must take a longer separator or another one, has no room, and cannot be split |
| `BTreeRebalance.DeleteNeverFull` | lib/liblmdb/mdb.c:8782-8848 | In particular deleting a key that is there succeeds if the pages on the way to it have fewer than 32 nodes |
| `BTreeFill.DeletionRefills` | lib/liblmdb/mdb.c:9268-9448 | What a deletion leaves of the branch above the leaf: a leaf at least a quarter full stays as it is; one that is less full gets exactly one entry if the neighbour the code looks at is a quarter full and has two; otherwise the two become one leaf |
| `BTreeFill.NodemaxIsLargest` | lib/liblmdb/mdb.c:4994-4995 | me_nodemax is the largest even length of which two nodes with their slots fit a page |
| `BTreeRebalance.RunDenotes` | lib/liblmdb/mdb.c:7559-8083 | Over every run of puts and deletes the tree is well formed and denotes the map that the same operations leave |
| `Cursor.NodeSearch` | lib/liblmdb/mdb.c:5959-6047 | The binary search in a page finds, in a leaf, the first key at or above the one asked for; in a branch, the child to follow |
| `Cursor.Segment` | lib/liblmdb/mdb.c:1369-1376 | The entries of the page on any level of a cursor path are a segment of all entries, beginning where the indices on the levels above say |
| `Cursor.BelongsDown` | lib/liblmdb/mdb.c:6466-6543 | Following the child that the node search picks never leaves the page to which a key belongs |
| `Cursor.SiblingAdjoins` | lib/liblmdb/mdb.c:6818-6872 | The page to which the sibling step goes begins where the old one ended, or ends where it began; if there is none the old page was the last or the first |
| `Cursor.Cursor.Sibling` | lib/liblmdb/mdb.c:6818-6872 | The in-place step to a sibling on the stack of pages, recursive over the levels, is the step that the path lemmas are about; without a sibling the cursor is as it was |
| `Cursor.Cursor.Search` | lib/liblmdb/mdb.c:6579-6664 | A search from the root ends, on the whole stack, in the leaf to which the key belongs, or the first or last one; it fails exactly if there is no root page |
| `Cursor.Cursor.Look` | lib/liblmdb/mdb.c:7065-7157 | The shortcut of mdb_cursor_set: what it concludes from the current page, without a search, is true of the whole tree |
| `Cursor.Cursor.OnLeaf` | lib/liblmdb/mdb.c:7166-7182 | The search in the leaf, with the step to the next leaf, stops at the least entry at or above the key of the whole tree |
| `Cursor.Cursor.Set` | lib/liblmdb/mdb.c:7049-7243 | mdb_cursor_set from any cursor position: MDB_SET finds exactly a key that is there, MDB_SET_RANGE the least key at or above; the cursor stands on the entry it returns |
| `Cursor.Cursor.GoFirst` | lib/liblmdb/mdb.c:7247-7290 | The first of all entries, or MDB_NOTFOUND exactly if there is none |
| `Cursor.Cursor.GoLast` | lib/liblmdb/mdb.c:7294-7335 | The last of all entries, or MDB_NOTFOUND exactly if there is none |
| `Cursor.Cursor.GoNext` | lib/liblmdb/mdb.c:6876-6960 | mdb_cursor_next returns the entries of the whole tree in order, none twice and none left out, and then MDB_NOTFOUND |
| `Cursor.Cursor.GoPrev` | lib/liblmdb/mdb.c:6964-7045 | mdb_cursor_prev returns them in reverse order |
| `Midl.Search` | lib/liblmdb/midl.c:34-67 | On a descending list: the place of the id, or the place that parts the larger ids from the smaller ones. (midl.h:84 says "greater than or equal"; the code, and this contract, is about descending lists.) |
| `Midl.XMerge` | lib/liblmdb/midl.c:201-213 | The in-place merge with its sentinel yields the descending multiset union and touches nothing outside the list; both lists may be in one buffer |
| `Midl.MergeDone` | lib/liblmdb/midl.c:201-213 | What the merge loop keeps gives, at its end, a descending list with the multiset of both |
| `MidlSort.Sort` | lib/liblmdb/midl.c:221-279 | Quicksort with the explicit stack leaves a descending permutation and changes nothing outside the list; every access to list and stack is in bounds |
| `MidlSort.Partition` | lib/liblmdb/midl.c:245-266 | The two unbounded scans never leave the segment, and cut it at the pivot |
| `MidlSort.InsertionSort` | lib/liblmdb/midl.c:232-240 | The insertion pass, whose scan runs down to the first id of the list, never crosses below its segment, because what is before the segment is not smaller |
| `MidlSort.DepthBound` | lib/liblmdb/midl.c:224-231 | As the larger part is pushed each time, a segment that is long enough to be cut lies less than 27 levels deep |
| `MidlSort.SegCut` | lib/liblmdb/midl.c:265-276 | After a cut, two ids out of order are both in one of the pending segments |
| `MidlSort.SortCut` | lib/liblmdb/midl.c:267-276 | Pushing the larger part keeps everything the main loop relies on, in either order of the parts, and shrinks the work left |
| `MidlGrow.Idl.Need` | lib/liblmdb/midl.c:143-155 | There is room for the ids asked for, and the list is as before |
| `MidlGrow.Idl.Append` | lib/liblmdb/midl.c:157-169 | The id is added at the end, in the same or in a larger buffer |
| `MidlGrow.Idl.AppendList` | lib/liblmdb/midl.c:171-183 | The list becomes the concatenation of both |
| `MidlGrow.Idl.AppendRange` | lib/liblmdb/midl.c:185-199 | The n ids from id up are added in descending order |
| `MidlGrow.Search2` | lib/liblmdb/midl.c:281-314 | On an ascending list of pairs: the first place whose id is not smaller |
| `MidlGrow.Insert2` | lib/liblmdb/midl.c:316-345 | The pair is put where it belongs and the list stays strictly ascending; -1 exactly for an id that is there, -2 exactly for a full list, and then nothing changes |
| `MidlGrow.PlacedAt` | lib/liblmdb/midl.c:336-341 | The place that the search finds is the only one that keeps the order |
| `MidlGrow.RemovePtr` | lib/liblmdb/mdb.c:6705-6720 | The dirty page is taken out while later pairs move down, and the others keep their order; a page that is not in the list leaves it rotated by one |
| `PageRuns.RunIsContiguous` | lib/liblmdb/mdb.c:2484-2493 | In a strictly descending list the test mop[i-n2] == pgno+n2 holds if and only if the places between hold n2+1 consecutive pages, and if and only if all of them are listed |
| `PageRuns.HasRunMeans` | lib/liblmdb/mdb.c:2484-2493 | Some place passes the test if and only if some run of free pages of that length exists |
| `PageRuns.FindRun` | lib/liblmdb/mdb.c:2484-2493 | The search finds the lowest run of the length asked for, and nothing if and only if there is none |
| `PageRuns.CutRun` | lib/liblmdb/mdb.c:2607-2611 | Moving the stragglers down removes exactly the run |
| `PageRuns.WithoutRunOk` | lib/liblmdb/mdb.c:2607-2611 | The list without the run is strictly descending and lists the other pages |
| `PageRuns.PutRun` | lib/liblmdb/mdb.c:6725-6732 | The insertion loop of mdb_ovpage_free puts the run where it belongs in place |
| `PageRuns.WithRunOk` | lib/liblmdb/mdb.c:6725-6732 | For a run that is not listed, the list stays strictly descending and lists the old pages and the run |
| `PageRuns.RunInverse` | lib/liblmdb/mdb.c:6725-6732 | Taking out a run that was put in gives the old list |
| `PageRuns.RunRestored` | lib/liblmdb/mdb.c:2607-2611 | Putting back a run that was taken out gives the old list |
| `PageAlloc.MergedStrictly` | lib/liblmdb/mdb.c:2551-2573 | Merging a record of pages that are not in the head keeps the head strictly descending, with the pages of both |
| `PageAlloc.Allocator.Fetch` | lib/liblmdb/mdb.c:2546-2573 | Reading the next record into me_pghead keeps the pages that may be handed out, and no page is listed twice |
| `PageAlloc.Allocator.FindPages` | lib/liblmdb/mdb.c:2476-2582 | The loop reads records in order, only those older than every reader, looking at the reader table again when the oldest id it knows does not allow more; it finds a run, the lowest, if and only if there is one in what may be read before num * 60 + 1 searches have been in vain |
| `PageAlloc.Allocator.Alloc` | lib/liblmdb/mdb.c:2434-2624 | mdb_page_alloc hands out a loose page, or the lowest run that was free and leaves the free lists, or new pages at the end of the map; the map grows, or is full, exactly if there is no run in the free list with all records older than every reader, as far as the search gets before it gives up; no page is handed out twice; errors leave the free pages as they were |
| `PageAlloc.Allocator.PutBack` | lib/liblmdb/mdb.c:6724-6732 | Pages of this transaction given back are free again, and the lists stay strictly descending and without repetitions |
| `AllocSteps.ReadsAreSteps` | lib/liblmdb/mdb.c:2540-2573 | Reading records in order, each older than the oldest reader, is a series of fetches of the writer in Mvcc, and ends in the lists that reading leaves |
| `AllocSteps.SearchIsSteps` | lib/liblmdb/mdb.c:2495-2573 | All that one call reads are two stretches of fetches: those below the oldest reader known before, and, only if the reader table was looked at again, those below the one found then |
| `AllocSteps.AllocPages` | lib/liblmdb/mdb.c:2434-2624 | mdb_page_alloc on lists in memory refines the writer of Mvcc: it does such fetches, and then takes a loose page, a free run or new pages as that writer may; if it fails it has done fetches only |
| `AllocSteps.GiveBack` | lib/liblmdb/mdb.c:6724-6732 | Giving overflow pages back to me_pghead is the step of that name in Mvcc |
| `FreelistSave.Saver.DeleteRead` | lib/liblmdb/mdb.c:3514-3527 | All records that were read, and those reserved for them, are deleted, while the deletions themselves change the lists |
| `FreelistSave.Saver.SaveOwn` | lib/liblmdb/mdb.c:3529-3562 | The pages freed by this transaction end up in one record under its id, though writing it may free more |
| `FreelistSave.Saver.Reserve` | lib/liblmdb/mdb.c:3571-3602 | Room is reserved in records without gaps up to me_pglast, and without changes from outside the loop makes progress |
| `FreelistSave.Saver.ReserveAll` | lib/liblmdb/mdb.c:3508-3603 | The main loop ends for every finite series of changes that its own cursor operations cause, with room for all pages of me_pghead and all loose pages |
| `FreelistSave.WholePages` | lib/liblmdb/mdb.c:3580-3590 | A record that would be more than a page, with ids left below it, fills whole pages, and as many such records as there are ids left hold all pages |
| `FreelistSave.Saver.TakeLoose` | lib/liblmdb/mdb.c:3605-3625 | The loose pages that are left join me_pghead, every one once, in order |
| `FreelistSave.Saver.FillIn` | lib/liblmdb/mdb.c:3627-3653 | The reserved records, read from the highest to the lowest key, concatenate to me_pghead |
| `FreelistSave.Saver.Save` | lib/liblmdb/mdb.c:3438-3655 | mdb_freelist_save as a whole: the pages of me_pghead and the loose pages, as the last operation on the free database left them, are listed under keys up to me_pglast, each as often as it was there; the freed ones under the transaction id; other records are as they were; with no change from the operations these are exactly the pages there were |
| `FreelistSave.ReadDownOnce` | lib/liblmdb/mdb.c:967-970 | If me_pghead has no page twice, no page is in two of its records |
| `FreelistSave.SavedIsLeftover` | lib/liblmdb/mdb.c:3564-3653 | What the saving loop leaves of the lists, as the last operation left them, is exactly what the readers-and-writer protocol allows a commit to leave |
| `FreelistSave.SavedIsCommit` | lib/liblmdb/mdb.c:3508-3653 | The whole free database afterwards is what the commit of the protocol leaves: the records not read, the leftover, and a record under the transaction id if and only if pages were freed |
| `NestedTxn.StepKeeps` | lib/liblmdb/mdb.c:1353-1358 | Over any depth of nesting every operation keeps: no page dirty and spilled at once, or spilled twice; mt_dirty_room is what is left of one dirty list with all visible dirty pages; no page in me_pghead, nor in one that an abort would bring back, is on a list or in use |
| `NestedTxn.AllocIsFresh` | lib/liblmdb/mdb.c:2434-2624 | Over every run: a page that is taken from me_pghead or from the end of the map, at any depth of nesting, aborts included, is on no list and in no tree of an open transaction |
| `NestedTxn.TouchHasRoom` | lib/liblmdb/mdb.c:2718-2790 | Copying a page that an ancestor has dirty always finds room in the dirty list |
| `NestedTxn.MergedFits` | lib/liblmdb/mdb.c:4001-4018 | At commit the merged dirty list fits, and with a single ancestor its length is MDB_IDL_UM_MAX less mt_dirty_room |
| `NestedTxn.CommitKeepsView` | lib/liblmdb/mdb.c:3926-4055 | After a nested commit mdb_page_get finds for every page in the parent what it found in the child |
| `NestedTxn.AncestorsKeep` | lib/liblmdb/mdb.c:6398-6460 | No operation of a nested transaction, spilling included, changes what an ancestor sees of its own pages |
| `NestedTxn.ParentKeeps` | lib/liblmdb/mdb.c:3146-3260 | While a nested transaction lives, its parent keeps its lists, its saved free-page state and its view |
| `NestedTxn.AbortRestores` | lib/liblmdb/mdb.c:3366-3373 | Aborting a nested transaction, whatever it and transactions inside it did, leaves the parent with the lists, the free-page state and the view it had |
| `NestedViews.RunRefines` | lib/liblmdb/mdb.c:6398-6450 | Over every run, at any depth of nesting: each open transaction sees, on the pages it uses, exactly what the same steps leave if each transaction has a copy of its own, taken at its begin, which replaces the original at commit and is dropped at abort; the freed pages of a child become those of its parent at commit |
| `NestedViews.StepView` | lib/liblmdb/mdb.c:2231-2372 | One step: a transaction sees what it writes and else what it saw; spilling, reading back and copying pages changes nothing at any page |
| `NestedViews.ReadsItsWrites` | lib/liblmdb/mdb.c:6398-6450 | Over every run: a page keeps the contents written until others are put on it, it is given back, or a transaction is aborted |
| `NestedViews.NothingLostOverRun` | lib/liblmdb/mdb.c:6667-6733 | Over every run without aborts no page is lost: it stays in use, free, freed, or on a list |
| `NestedLists.MergeOk` | lib/liblmdb/mdb.c:4001-4029 | The merged list is strictly ascending and stands for the parent map overridden by the child map |
| `NestedLists.MergedLen` | lib/liblmdb/mdb.c:4002-4018 | The counting loop computes the length of the merged list |
| `NestedLists.MergeDirty` | lib/liblmdb/mdb.c:4019-4029 | The in-place merge from the end ends with i == x and leaves the merged list, the child entry winning on equal ids |
| `NestedLists.RemoveDirty` | lib/liblmdb/mdb.c:3961-3980 | Exactly the pages of the child dirty list leave the parent spill list, which stays in order |
| `NestedLists.RemoveSpilled` | lib/liblmdb/mdb.c:3982-3999 | Exactly the live pages of the child spill list leave the parent dirty list |
| `NestedLists.JoinSpill` | lib/liblmdb/mdb.c:4032-4043 | The joined and sorted spill list holds the live pages of both |
| `NestedLists.CommitLists` | lib/liblmdb/mdb.c:3959-4043 | All of these in sequence, on arrays, yield the lists that NestedTxn says a commit yields |
| `Compact.ReadTreeBack` | lib/liblmdb/mdb.c:10197-10350 | The copy of a tree, read back through its page numbers, is the tree, overflow data and sub-databases included |
| `Compact.TreeNumbered` | lib/liblmdb/mdb.c:10197-10350 | Every page written stands at the position its number says |
| `Compact.CopyCorrect` | lib/liblmdb/mdb.c:10197-10350 | The whole copy: same contents, dense numbers from 2 up, children before parents, and the root is the last page |
| `CompactRoot.CountFree` | lib/liblmdb/mdb.c:10438-10449 | The loop over the free database adds up the lengths of all its records and the pages of that database itself |
| `CompactRoot.PagesCounted` | lib/liblmdb/mdb.c:10424-10449 | Pages that the tree, the records and a set of leaked pages share without overlap are, counted, all pages from 2 up to mt_next_pgno |
| `CompactRoot.NewRootRight` | lib/liblmdb/mdb.c:10424-10460 | For a database whose pages are in the tree to be copied, in the free database, in one of its records, or leaked, and nowhere twice: the root computed beforehand equals the root of the walk if and only if no page has leaked, and is otherwise too high by as many |
| `CompactRoot.SnapshotCopies` | lib/liblmdb/mdb.c:10424-10460 | In every state of every run of readers, writers and crashes the newest snapshot has leaked nothing, so the root computed for its copy is right |
| `CompactRoot.CopyEnv` | lib/liblmdb/mdb.c:10354-10481 | The whole copy, with the free pages counted: it succeeds if and only if the number of pages is right, and then it reads back as the database from the root in its meta page |
| `CompactRoot.CopyAccounted` | lib/liblmdb/mdb.c:10354-10481 | The copy of a database whose pages are accounted for succeeds if and only if no page has leaked |
| `Compact.Copier.Walk` | lib/liblmdb/mdb.c:10197-10350 | The iterative walk with its stack of pages, writing through the buffer, writes exactly the pages of the recursive definition |
| `Compact.Copier.CopyNodes` | lib/liblmdb/mdb.c:10241-10301 | Overflow pages and sub-databases of a leaf are copied before the leaf, and its nodes refer to them |
| `CopyPipe.StepKeeps` | lib/liblmdb/mdb.c:10095-10189 | Every step of the two threads, in every interleaving, keeps the invariant of buffers, mutex and condition |
| `CopyPipe.BuffersKept` | lib/liblmdb/mdb.c:10176-10189 | Over every run: a buffer that was handed over and is not returned is as it was handed over, so the provider never touches it |
| `CopyPipe.RunKeeps` | lib/liblmdb/mdb.c:10095-10168 | Over every run, what was written is a beginning of the buffers handed over, in order, each followed by its tail |
| `CopyPipe.PutsKept` | lib/liblmdb/mdb.c:10176-10189 | Over every run: what was handed over, with what is still in the provider buffer, is all that it put in |
| `CopyPipe.EndComplete` | lib/liblmdb/mdb.c:10462-10466 | When both threads are through without an error, everything the provider put into its buffers was written, in order; after an error a beginning of it |
| `CopyPipe.ErrorsReported` | lib/liblmdb/mdb.c:10115-10140 | Over every run an error is reported if and only if one of the threads had one |
| `CopyPipe.NoDeadlock` | lib/liblmdb/mdb.c:10115-10189 | Over every run: in every state that is not the end one of the threads can go on, without relying on spurious wake-ups, and while a buffer is being written by writing more of it |
| `CopyPipe.EofEnds` | lib/liblmdb/mdb.c:10462-10466 | After EOF every step but a spurious wake-up lowers the number of steps left |
| `CopyPipe.RunEnds` | lib/liblmdb/mdb.c:10462-10466 | So a run without spurious wake-ups goes on after EOF for no longer than that number, and both threads finish |
| `SlottedPage.LayoutInsert` | lib/liblmdb/mdb.c:8291-8410 | An extent put in at mp_upper keeps the exact tiling |
| `SlottedPage.LayoutRemove` | lib/liblmdb/mdb.c:8418-8467 | Closing the gap of a deleted extent keeps the exact tiling |
| `SlottedPage.LayoutResize` | lib/liblmdb/mdb.c:8782-8848 | Growing or shrinking one extent keeps the exact tiling |
| `SlottedPage.EveryByteOnce` | lib/liblmdb/mdb.c:954-958 | Every byte from mp_upper to the end of the page belongs to exactly one node |
| `SlottedPage.DelTiled` | lib/liblmdb/mdb.c:8442-8466 | After the bytes below a node have moved up, all other nodes have their bytes and the page is tiled |
| `SlottedPage.UpdTiled` | lib/liblmdb/mdb.c:8810-8845 | After the bytes below a node have moved by the difference of key lengths, all other nodes have their bytes and the page is tiled |
| `SlottedPage.Page.Add` | lib/liblmdb/mdb.c:8291-8410 | mdb_node_add on the bytes: the new node stands at its index with its header, key and data, all others are unchanged, and it fails, changing nothing, exactly when there is no room |
| `SlottedPage.Page.AddLeaf` | lib/liblmdb/mdb.c:8328-8399 | Data that would make the node longer than me_nodemax, or is there already, is referred to by page number with F_BIGDATA set, the data size staying in the header |
| `SlottedPage.Page.Delete` | lib/liblmdb/mdb.c:8418-8467 | mdb_node_del on the bytes: the other nodes keep their order and their bytes, and the room of the node and its pointer is free |
| `SlottedPage.Page.UpdateKey` | lib/liblmdb/mdb.c:8782-8848 | mdb_update_key on the bytes: the node gets the new key, all others are unchanged; it gives up, changing nothing, exactly when the longer key has no room |
| `PageMoves.NodesAre` | lib/liblmdb/mdb.c:954-958 | What the pointers of a page lead to are whole nodes, whose length is the one in their header |
| `PageMoves.NodeParts` | lib/liblmdb/mdb.c:8358-8399 | A node is made up of its header, its key and what it stores, so copying these copies the node |
| `PageMoves.HalvesFit` | lib/liblmdb/mdb.c:9888-9933 | The two halves find room on empty pages, by the checks of mdb_node_add, if and only if the split point is right in the sense of SplitPoint |
| `PageMoves.MoveNodes` | lib/liblmdb/mdb.c:9888-9933 | The single loop that fills first the right page and then the temporary one, overwriting the pointers behind the place where it reads them, deals out all nodes in order; it stops exactly if a half does not fit |
| `PageMoves.CopyBack` | lib/liblmdb/mdb.c:9935-9941 | The old page gets pointers, bounds and nodes of the temporary one |
| `PageMoves.SplitPage` | lib/liblmdb/mdb.c:9747-9943 | mdb_page_split on the bytes of a page: both pages are nonempty and share the old nodes and the new one in order, byte for byte; it fails, leaving the page as it was, exactly if the split point was not searched for and the half with the new node is too large |
| `PageMoves.CutNonempty` | lib/liblmdb/mdb.c:9747-9943 | Both pages of a split have nodes, and together one more than before |
| `PageMoves.MergePages` | lib/liblmdb/mdb.c:9125-9168 | All nodes of the source follow those of the target, the first of a branch under the lowest key below it; they find room if and only if their bytes do |
| `PageMoves.MoveNode` | lib/liblmdb/mdb.c:8872-9090 | Exactly one node goes from one page to the other, at the right end, with the keys that first nodes of branches gain and lose; the key for the parent is that of the first node of the right page; it succeeds exactly if the bytes fit |
| `PageDecode.SizesDecode` | lib/liblmdb/mdb.c:8328-8399 | For every order of keys and meaning of data: the bytes that the nodes of a page take are the sizes by which the tree operations decide |
| `PageDecode.RoomDecodes` | lib/liblmdb/mdb.c:954-958 | SIZELEFT of a page of bytes is exactly what the tree node to which it decodes counts as unused |
| `PageDecode.InsertDecodes` | lib/liblmdb/mdb.c:8291-8410 | A node put in at an index decodes to the entry, or child and separator, put in there |
| `PageDecode.RemoveDecodes` | lib/liblmdb/mdb.c:8418-8467 | A node taken out decodes to the entry, or child and separator, taken out |
| `PageDecode.RekeyDecodes` | lib/liblmdb/mdb.c:8782-8848 | A node with another key decodes to the page with that separator replaced |
| `PageDecode.SplitDecodes` | lib/liblmdb/mdb.c:9747-9943 | Splitting bytes is splitting trees: the two pages and the key for the parent decode to what the split of the decoded tree node gives, and one fails if and only if the other does |
| `PageDecode.MergeDecodes` | lib/liblmdb/mdb.c:9125-9168 | Merging bytes is merging trees: the joined nodes decode to the merged tree node |
| `PageDecode.MoveRightDecodes` | lib/liblmdb/mdb.c:8872-9090 | Moving the first node of the right page decodes to that move between tree nodes, separator and bytes needed included |
| `PageDecode.MoveLeftDecodes` | lib/liblmdb/mdb.c:8872-9090 | The same for the last node of the left page |
| `PageDecode.SplitTree` | lib/liblmdb/mdb.c:9747-9943 | mdb_page_split on the bytes in memory does what the tree operation does |
| `PageDecode.MergeTrees` | lib/liblmdb/mdb.c:9125-9168 | mdb_page_merge on the bytes in memory leaves a page that decodes to the merged tree node; it succeeds if and only if that fits a page |
| `PageDecode.MoveTree` | lib/liblmdb/mdb.c:8872-9090 | mdb_node_move on the bytes in memory leaves pages that decode to the tree nodes after the move; it succeeds if and only if the receiving page holds, at its fullest, no more than a page |
| `ReaderSweep.StepKeeps` | lib/liblmdb/mdb.c:3019-3050 | Every step of processes that start, claim and give up slots, sweep, and die, keeps the invariant of slots, pid locks and mutex |
| `ReaderSweep.ClearsOnlyDead` | lib/liblmdb/mdb.c:11217-11266 | A slot that a sweep clears belongs to a dead process |
| `ReaderSweep.LiveSlotsSafe` | lib/liblmdb/mdb.c:11217-11266 | Over every run, with pids that are used again, a live process keeps its slot until it gives it up or dies |
| `SweepAlone.SweepEnds` | lib/liblmdb/mdb.c:11217-11266 | A sweep with nothing else in between ends, and then a slot keeps its pid if and only if that is the sweeper own or one for which a live process holds the lock |
| `ReaderSweep.FirstCheckIsNotEnough` | lib/liblmdb/mdb.c:11235-11247 | A concrete run in which clearing after the first check alone, without the check under the mutex, would hit a live process |
| `ReaderSweep.PidSearch` | lib/liblmdb/mdb.c:11169-11195 | The binary search finds the pid, or the place where it keeps the list in order |
| `ReaderSweep.PidInsert` | lib/liblmdb/mdb.c:11169-11203 | The list of pids stays strictly ascending and gains exactly the pid; -1 exactly for one that is there |
| `ReaderSweep.ReaderCheck` | lib/liblmdb/mdb.c:11217-11266 | With nothing else going on, exactly the slots of other processes that hold no lock are cleared |
| `LinkedItems.Append` | src/lib/linked_items.c:29-42 | The item comes directly after prev, links on both sides consistent |
| `LinkedItems.Remove` | src/lib/linked_items.c:99-110 | The chain without the item, links on both sides consistent |
| `LinkedItems.SwapInversions` | src/lib/linked_items.c:165-177 | Relinking two neighbours that are out of order removes exactly one inversion |
| `LinkedItems.SwapReorders` | src/lib/linked_items.c:169-176 | Relinking keeps the items and the order of any two that were not out of order |
| `LinkedItems.AllSorted` | src/lib/linked_items.c:157-182 | A pass without a change means that all items, not only neighbours, are in order |
| `LinkedItems.Exchange` | src/lib/linked_items.c:169-176 | Remove and append in sequence swap two neighbours of the chain |
| `LinkedItems.Sort` | src/lib/linked_items.c:148-185 | For every strict weak order the sort ends and returns the head of a consistent chain of the same items, sorted and stable |
| `DumpLoad.RoundTrip` | lib/liblmdb/mdb_load.c:235-270 | For every byte string and both formats, decoding what was printed gives the byte string |
| `DumpLoad.EncodePrintable` | lib/liblmdb/mdb_dump.c:58-90 | Only printable characters are printed for an item, so no line break and no NUL |
| `DumpLoad.EncodeAt` | lib/liblmdb/mdb_dump.c:51-90 | Every byte stands in its place in a printed item: in text a printable character for itself, a backslash doubled, any other as a backslash and its two hexadecimal digits; in the other format all as these digits |
| `DumpLoad.PlainText` | lib/liblmdb/mdb_dump.c:58-77 | So an item of printable characters without a backslash is printed as it is |
| `DumpLoad.Output.Text` | lib/liblmdb/mdb_dump.c:58-77 | The printing loop prints the line that the round trip is about |
| `DumpLoad.Output.Bytes` | lib/liblmdb/mdb_dump.c:79-90 | The same for the format of hexadecimal pairs |
| `DumpLoad.Output.Dump` | lib/liblmdb/mdb_dump.c:134-147 | The record loop prints all records in order and the end line |
| `DumpLoad.ReadWhole` | lib/liblmdb/mdb_load.c:200-229 | A line of any length is reassembled in the doubled buffer, exactly up to its line break; without a line break Eof is set |
| `DumpLoad.DecodeTextInPlace` | lib/liblmdb/mdb_load.c:230-253 | Decoding escapes in the buffer itself never overwrites what is still to be read, and fails exactly on a bad escape |
| `DumpLoad.DecodePairsInPlace` | lib/liblmdb/mdb_load.c:254-269 | The same for hexadecimal pairs |
| `DumpLoad.ReadLine` | lib/liblmdb/mdb_load.c:175-275 | readline returns the decoded item of one line, recognises DATA=END without setting Eof, and sets Eof on anything else |
| `DumpLoad.Load` | lib/liblmdb/mdb_load.c:420-444 | From a dump, whatever follows it, the reading loop takes exactly the records that were dumped, and stops right after the dump |
| `DumpLoad.DumpAndLoad` | lib/liblmdb/mdb_dump.c:134-147 | For every list of records and both formats, and buffers of any starting size, loading what was dumped gives the records |
| `Hostwatch.DropIsSince` | src/hostwatch.c:159-180 | Stopping at the first recent count is the same as filtering all counts by time |
| `Hostwatch.SinceTwice` | src/hostwatch.c:159-180 | Pruning in several steps is the same as pruning once |
| `Hostwatch.TotalIsSum` | src/hostwatch.c:550-552 | Adding up byte counts in 64 bits gives their sum modulo 2^64 |
| `Hostwatch.OfParts` | src/hostwatch.c:539-548 | Which packets belong to an item: those from its first host to its second, and with -x those the other way, in the order in which they came |
| `Hostwatch.WindowPruned` | src/hostwatch.c:185-196 | Pruning leaves exactly the packets of the pair within the time span |
| `Hostwatch.HostData.RemoveBefore` | src/hostwatch.c:159-180 | The loop with its early exit leaves the counts that are recent enough |
| `Hostwatch.HostData.CountBytes` | src/hostwatch.c:550-552 | After a packet the cached sum is the sum of the counts held, modulo the width of unsigned long |
| `Hostwatch.Watch.ItemFor` | src/hostwatch.c:539-548 | There is at most one item per pair, per unordered pair with -x, and the packet gets it |
| `Hostwatch.Watch.PacketSeen` | src/hostwatch.c:539-552 | Every item still holds all recent packets of its pair in order of time, with their sum |
| `Hostwatch.Watch.Cleanup` | src/hostwatch.c:185-196 | Afterwards every item holds exactly the packets of its pair within the time span, and their sum |
| `Hostwatch.Watch.SortData` | src/hostwatch.c:303-303 | The items are sorted by falling sum, equal ones in their old order, none lost |
| `Hostwatch.Watch.CreateOut` | src/hostwatch.c:294-331 | The table shows the items with the most bytes within the time span, most first, at most as many as asked for, each with its two hosts in order, its sum over exactly the packets seen in the window, and their number |

## Left out

- BTreeMap.PutCorrect: is about trees as values. The B+tree functions build new trees where the code updates page buffers; that other cursors on the same pages are kept up to date, and that touched pages are copied, is not modelled in them. The updates of page buffers themselves are the subject of `SlottedPage` and `PageMoves`, and `PageDecode` says that they are those of the trees page by page; the whole operation on buffers, over all levels, is not put together. Copying and freeing of pages are the subject of `Mvcc`.
- BTreeMap.PutCorrect: keys are put without `MDB_NOOVERWRITE`, `MDB_APPEND`, `MDB_MULTIPLE`; the split for `MDB_APPEND`, which moves only the new node, is left out. Whether an overflow page is reused is a parameter.
- Cursor.Cursor.Set: `MDB_SET` and `MDB_SET_RANGE` on plain databases, in trees less than 32 levels deep (`CURSOR_STACK`); custom comparison functions are total orders.
- MidlSort.Sort: lists of at most 2^30 ids; for longer ones `l + ir` is beyond the range of int and what the code does is undefined.
- MidlGrow.Idl.Need: up to 0xC0000000 ids in all, so that the computation of the new size stays within unsigned int; mdb_midl_shrink and mdb_mid2l_append are left out as easy.
- PageAlloc.Allocator.Alloc: the pages of the free database itself, which a search through it may touch, are not part of the allocator's state; the number of entries that fit a list is bounded as for `MidlGrow.Idl.Need`.
- AllocSteps.AllocPages: the contents of the pages handed out, and the lists of dirty pages, are those of `Mvcc` and `NestedTxn`.
- FreelistSave.Saver.Save: `total_room` may exceed what is needed at most once more in the code (`more`), as modelled; the contents of the free database's own tree pages are the subject of the B+tree modules.
- NestedTxn.AbortRestores: a transaction is the pages it uses, its lists and its room; database handles and cursors are left out. A run of overflow pages counts as its first page, as on the lists; that records read from the free database list no page in use is taken from `MvccSafety.PagesConserved`.
- NestedLists.JoinSpill: joined spill lists of at most 2^30 ids, as for the sort.
- CompactRoot.CopyEnv: write errors are the subject of `CopyPipe`; flags of an empty database in the meta page are left out. Which pages belong to the free database itself is given by its page counts, as in the code.
- CopyPipe.StepKeeps: the mutex and the condition variable are taken as POSIX specifies them, spurious wake-ups included.
- PageMoves.SplitPage: the separator's way into the parent, with the recursion over the levels, is the subject of `BTreePut.PutInOk`; the node to be added is given as bytes, a large one already with the number of its overflow page.
- PageMoves.MoveNode: a branch page that would have to be split for a longer key makes it fail here; in the code it is split. When mdb_rebalance makes the call this does not come up: `BTreeRebalance.RightMoveOk` and `LeftMoveOk` prove that the bytes fit. Calls on pages with fewer than two nodes are left out, as mdb_rebalance makes none.
- SlottedPage.Page.UpdateKey: the case in which the page is split is the subject of `BTreeRebalance.UpdateSepOk`; LEAF2 pages are left out.
- ReaderSweep.ReaderCheck: the loop alone, with nothing else going on; the interleavings are in the state machine.
- DumpLoad.ReadLine: input without NUL characters, on which fgets and strlen agree; a dump has none (`DumpLoad.EncodePrintable`).
- DumpLoad.Load: the header lines, `-a` and batches of 100 puts per transaction are left out.
- Hostwatch.Watch.PacketSeen: time does not go backwards, as the comment at src/hostwatch.c:175 takes for granted; the counts of an item are a sequence, the list operations on them are those of `LinkedItems`.
- `MDB_DUPSORT` sub-pages and their cursors, `MDB_WRITEMAP`, `MDB_VL32`, Windows and System V variants: other ways to the same ends.
- `MDB_NOSYNC`, `MDB_NOMETASYNC`, torn writes of a meta page: the assumptions of the crash model do not hold there.
- Recovery after the death of a process that held a mutex (mdb_mutex_failed) beyond what a crash of the writer does to the lists.
- Failed allocations and I/O errors, except for the copying threads.
- Parsing of tcpdump output, ports, readable numbers and the HTTP side of hostwatch; the other tools of the repository.
