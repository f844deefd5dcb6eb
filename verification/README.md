# A verified model of MiniOB's index, SEDA runtime, query executors and helpers

MiniOB is a small SQL database in C++. This project models its most intricate parts in Dafny
and proves what they are for. It stands alone: `dafny verify dfyconfig.toml` checks all of it.

**The B+ tree index** (`Keys`, `BTree*`, `IndexNode`, `BplusTreeHandler`, `BplusTreeScanner`,
`BplusTreeIndex`, `IndexRuns`, `Departures`). A page is an object with the two arrays of the
source, of `order` slots each; slots not in use keep whatever was left there, because deletion
reads some of them. `BplusTreeHandler` maps page numbers to such pages. Beside them runs an
abstract tree: what each page means, and between which bounds its subtree may lie. `WF` says that
this is a B+ tree: occupancy, parent and child pointers inverse, all leaves at one depth, strict
order within pages and around separators, and the leaf chain. Insertion, with its recursive splits
up to a new root, deletion, with borrowing, merging and the collapse of the root, and scanning are
the methods of the source, proved against that tree; `IndexRuns` speaks of whole runs, and
`Departures` has programs that build trees of two and three levels and break them. Where the code departs from its intent, the code is kept and the departure is delimited exactly (below); the
constant `repaired` chooses between the shipped moves of `redistribute_nodes` and the intended ones.

**Stages and the thread pool** (`SedaProtocol`, `SedaRuns`, `SedaStage`). A state machine with one
step per critical section, any number of threads and stages in any interleaving, including
connecting, disconnecting and killing threads, and the flag that `connect` reads after it has given
up the mutex. One inductive invariant is proved for every step, and the promises of the protocol are
proved of every run, or it is said of which runs they hold: some steps can be taken that the code does
not guard against, and these are in the model (`Careless`). The classes of `SedaStage` tie the methods to
the steps.

**SELECT** (`Permutations`, `Rows`, `QueryPlan`, `QueryBuilder`, `TableScan`, `CartesianPath`,
`SelectPaths`). The plan builder that pushes conditions into scans and nested-loop joins, proved
equal, as sequences of rows, to filtering the cross product; and the older path that reads every
table through an index, if a condition has one, and runs an odometer through all combinations of the
filtered tables. That path is proved to yield the same rows exactly when its index scans meet them.

**Smaller parts.** Aggregation over shared value objects (`Aggregation`), Julian dates and date
arithmetic (`Calendar`, `DateTime`), MD5 as a stream (`MD5`), the timer stage (`Timers`), the
expression parser and printer (`Expressions`), and the layout and the JSON form of a table
(`TableLayout`).

## What does not hold, and exactly when it does

- `insert_entry` has no duplicate check on the splitting path: the tree is kept if and only if the
  entry is not already present in a full leaf (`BplusTreeHandler.InsertEntry`; example in
  `Departures`). A maintainer can see this from the leaf before the call.
- `redistribute_nodes` forgets the RID when a leaf borrows from the left, and misplaces the last
  child when internal pages borrow. `DeleteEntry` keeps the tree if and only if no borrow on the way
  up meets a stale slot (`FaultyDelete`, a recursion over the pages of the old tree that never
  looks at the result). Two of the bugs can be harmless: a slot that is not written may still hold
  the right value.
- A scan for a value misses entries with that value whose RID is below (-1, -1) and that lie before
  the leaf of the search key (`ScanIsExact`); RIDs of records are not like that.
- `IntValue::compare` subtracts: it is right for all operators if and only if the difference fits in
  32 bits. Two group keys are ordered right if and only if at the first place where they differ their
  values are less than 2^31 apart (`Aggregation.CodeBelowIsBelow`); 2000000000, 0 and -2000000000 compare
  in a circle. MIN and MAX depend on the order of the rows; they are right in every order if and only if
  any two values differ by less than 2^31 (`LeastInEveryOrder`, `GreatestInEveryOrder`).
- The older path of SELECT passes the operator of a condition to the index as it stands, also when
  the value is on the left: `5 < t.x` scans for x < 5. It yields the rows of the query if and only if
  its scans meet them all (`SelectPaths.OlderPathIsComplete`), which for comparable values means that
  the chosen condition has its attribute on the left, or its operator is `=` or `<>`, or only rows
  with the value itself pass (`WhichAreMet`). Where an index is chosen the rows come in key order.
- `connect` asserts that the stage is not connected and has a pool, but without the mutex, and while a
  disconnect waits both hold. Connected then, with an event still in hand, the stage has its count reset,
  which later goes below zero; with none in hand, the disconnect takes the pool of the connected stage, and
  the next event fails an assertion (`SedaRuns.EarlyIsReached`, `SlowIsReached`).
- `connect` reads `connected_` again after it has given up the mutex: when another thread has begun to
  disconnect the stage in between, the backlog has been counted and is not scheduled, and the
  disconnect never returns (`RaceIsReached`, `LostForEver`).
- A run is sound, that is, no assertion fails, every reference is accounted for and connected stages have
  their pool, if and only if nothing of this happens and no call of `kill_threads` comes too early (see
  below): no step is careless and no connect with a backlog is overtaken (`SoundUnlessOvertaken`). Callers
  see to it by not letting calls of connect and disconnect of one stage overlap, which the code does not
  check (`OneByOneIsSound`).
- The plan builder drops an ON condition between a value and an attribute of an earlier table, and
  one that needs a table joined later (`Dropped`); `Build` says what the plan then yields, and
  `AnswersUnlessDropped` when that is what was asked for.
- `NestLoopJoinExecutor` emits the columns of its left side first: heads and columns agree if and
  only if the select list does the same.
- `DateTime::operator+=` tests with `>` instead of `>=`: a time of day that comes to exactly a full
  day is left as it is.
- `add_duration` takes the months before January of a year to have 28 days: the day before 1 January
  comes out as 28 December (`DateTimes.BeforeJanuary`). The date is exact if and only if the days do
  not lead back beyond January of the year (`DateTime.AddDuration`).
- `kill_threads(0)`, or any call on an empty pool, sleeps for ever; a service thread that has all threads
  killed sleeps until others are added (`SedaRuns.KillingOneselfSleeps`); and a second call fails an
  assertion if and only if it is made while the first, all its kills done, has not woken up yet
  (`SedaRuns.SecondKillFails`).
- The calendar functions overflow an `int` if and only if the day number is above 536838867.
- `TableMeta::deserialize` keeps the indexes of the object it reads into when the description has
  none.

## Model

| member | source | states |
|---|---|---|
| Keys.CmpRid | src/observer/storage/common/bplus_tree.cpp:137-147 | the sign of the result is the lexicographic order of (page, slot), and 0 is equality |
| Keys.CmpKey | src/observer/storage/common/bplus_tree.cpp:148-197 | keys are totally ordered by attribute and then by RID: the sign of the result is the order of an injective rank, and 0 means the same key |
| Keys.RankIsInjective | src/observer/storage/common/bplus_tree.cpp:188-197 | two keys of one rank are the same key, so that the order of the pairs is total |
| Keys.PlaceReflectsStrNCmp | src/observer/storage/common/bplus_tree.cpp:167-181 | comparing CHARS or DATES attributes byte by byte up to the terminator orders them as numbers in base 256, hence totally |
| Comparisons.SymmetricOpExchanges | src/observer/sql/executor/executor_builder.cpp:132-157 | exchanging the operands and the operator keeps the truth of a comparison, and doing it twice changes nothing |
| Comparisons.ComparingBySubtraction | src/observer/sql/executor/value.h:47-65 | IntValue::compare subtracts: its sign answers all six comparisons correctly if and only if the difference fits in 32 bits; equality is always right |
| BTree.ContentsHas | src/observer/storage/common/bplus_tree.cpp:246-291 | the set of stored entries is what the leaves hold |
| BTree.LevelDisjoint | src/observer/storage/common/bplus_tree.cpp:199-244 | on one level of a well-formed tree no rank belongs to two pages |
| BTree.FoundInItsLeaf | src/observer/storage/common/bplus_tree.cpp:199-244 | an entry is in the index if and only if it is in the one leaf whose range holds it |
| BTree.ChainIsComplete | src/observer/storage/common/bplus_tree.cpp:1613-1658 | following next-leaf pointers from a leaf meets, in strictly ascending order, exactly the entries at or above its range |
| BTree.ChainVisitsEveryLeaf | src/observer/storage/common/bplus_tree.cpp:1613-1658 | the chain from a leaf meets every leaf from there on exactly once and ends |
| BTreeInsert.LeafInsertShape | src/observer/storage/common/bplus_tree.cpp:246-291 | inserting into a leaf keeps the shape; only this leaf may become overfull, and only when it was full |
| BTreeInsert.LeafInsertOrder | src/observer/storage/common/bplus_tree.cpp:246-291 | inserting a new entry at the place found keeps every page sorted and within its range |
| BTreeInsert.LeafInsertHas | src/observer/storage/common/bplus_tree.cpp:246-291 | the entries are then the old ones and the new one |
| BTreeInsert.SplitLeafShape | src/observer/storage/common/bplus_tree.cpp:329-458 | splitting an overfull leaf and telling the parent leaves a well-shaped tree: occupancy, one leaf depth, parent and child pointers inverse; only the parent may now be overfull |
| BTreeInsert.SplitLeafOrder | src/observer/storage/common/bplus_tree.cpp:329-458 | and an ordered one: left of the separator is smaller, right of it at least as large, and the leaf chain stays in order |
| BTreeInsert.SplitLeafHas | src/observer/storage/common/bplus_tree.cpp:329-458 | no entry is lost or added by a leaf split |
| BTreeInsert.SplitInnerShape | src/observer/storage/common/bplus_tree.cpp:502-663 | the same for the split of an internal page, whose middle key moves up and whose upper children change their parent |
| BTreeInsert.SplitInnerOrder | src/observer/storage/common/bplus_tree.cpp:502-663 | an internal split keeps the tree ordered |
| BTreeInsert.GrowRootShape | src/observer/storage/common/bplus_tree.cpp:699-782 | a new root over two halves gives a tree at rest, one level higher |
| BTreeInsert.GrowRootOrder | src/observer/storage/common/bplus_tree.cpp:699-782 | a new root keeps the tree ordered |
| BTreeInsert.TwiceIsDisorder | src/observer/storage/common/bplus_tree.cpp:385-399 | an entry stored twice breaks the strict order of the tree |
| BTreeInsert.ToldIsOne | src/observer/storage/common/bplus_tree.cpp:665-697 | what the parent is told of a split leads, split by split, to one tree |
| BTreeInsert.InsertedIsOne | src/observer/storage/common/bplus_tree.cpp:784-846 | inserting is determined: one place in one leaf, and one tree, page by page |
| BTreeDelete.LeafRemoved | src/observer/storage/common/bplus_tree.cpp:893-944 | removing an entry from a leaf keeps shape and order but for the minimum occupancy of that leaf |
| BTreeDelete.LeafRemovedHas | src/observer/storage/common/bplus_tree.cpp:893-944 | exactly the removed entry is gone |
| BTreeDelete.MergeShape | src/observer/storage/common/bplus_tree.cpp:946-1076 | merging two neighbours and dropping the separator keeps the shape, only the parent possibly becoming underfull |
| BTreeDelete.MergeOrder | src/observer/storage/common/bplus_tree.cpp:946-1076 | a merge keeps the tree ordered, the separator coming down between two internal pages |
| BTreeDelete.MergeHas | src/observer/storage/common/bplus_tree.cpp:946-1076 | a merge neither loses nor adds entries |
| BTreeBorrow.ResplitShape | src/observer/storage/common/bplus_tree.cpp:1078-1243 | dealing the joined contents of two neighbours out anew, each getting its fair share, restores a well-shaped tree |
| BTreeBorrow.ResplitOrder | src/observer/storage/common/bplus_tree.cpp:1078-1243 | and an ordered one, whatever the number of keys dealt to the left |
| BTreeBorrow.ResplitHas | src/observer/storage/common/bplus_tree.cpp:1078-1243 | with the same entries |
| BTreeBorrow.BorrowedIsResplit | src/observer/storage/common/bplus_tree.cpp:1078-1243 | each of the four moves of a key is such a new deal, provided the slot in doubt holds the right value |
| BTreeShrink.BorrowOutcome | src/observer/storage/common/bplus_tree.cpp:1078-1243 | taking over a key gives a well-formed tree if and only if the slot in doubt (the RID of a leaf entry that moved right, or the last child of an internal page) holds what it must; then the entries are unchanged |
| BTreeShrink.NoUnderflow | src/observer/storage/common/bplus_tree.cpp:1245-1428 | a page with keys enough needs no help: the tree is at rest |
| BTreeShrink.CollapseShape | src/observer/storage/common/bplus_tree.cpp:1245-1428 | when the root has lost its last key, its only child as root gives a well-shaped tree |
| BTreeShrink.CollapseOrder | src/observer/storage/common/bplus_tree.cpp:1245-1428 | the collapse keeps the order |
| BTreeShrink.CollapseHas | src/observer/storage/common/bplus_tree.cpp:1245-1428 | the collapse keeps the entries |
| BTreeShrink.HasNeighbour | src/observer/storage/common/bplus_tree.cpp:1245-1428 | a page other than the root has a neighbour below the same parent, at the same height and of the same kind |
| BTreeShrink.Underflow | src/observer/storage/common/bplus_tree.cpp:1245-1428 | an underfull page lacks exactly one key, and its neighbour either can give one or can be merged with it without overflow |
| BTreeShrink.MergeStep | src/observer/storage/common/bplus_tree.cpp:1245-1428 | after a merge the deletion of the separator poses the same problem one level up, with the same verdict on whether the deletion will go wrong |
| BTreeShrink.SlotOutcome | src/observer/storage/common/bplus_tree.cpp:1139-1189 | the slot in doubt is right if and only if the moves are the intended ones or the deletion meets no stale slot |
| BTreeShrink.FaultyDeleteIs | src/observer/storage/common/bplus_tree.cpp:1430-1454 | whether a deletion goes wrong depends only on the leaf and place of the entry |
| IndexPages.InsertSlot | src/observer/storage/common/bplus_tree.cpp:270-283 | the shifting loop opens a gap: the result is the old contents with the new element inserted, the slots behind untouched |
| IndexPages.DeleteSlot | src/observer/storage/common/bplus_tree.cpp:920-931 | the shifting loop closes a gap, and the last slot keeps what it had |
| IndexPages.CopySlots | src/observer/storage/common/bplus_tree.cpp:399-430 | the copying loops change exactly the slots copied to |
| IndexPages.Gather | src/observer/storage/common/bplus_tree.cpp:385-397 | the temporary buffer holds the old contents with the new element in its place |
| IndexPages.IndexNode.InsertEntry | src/observer/storage/common/bplus_tree.cpp:246-291 | a leaf page gets key and RID at the place found |
| IndexPages.IndexNode.InsertKid | src/observer/storage/common/bplus_tree.cpp:460-500 | an internal page gets the separator and, behind it, the new child |
| IndexPages.IndexNode.SplitLeaf | src/observer/storage/common/bplus_tree.cpp:329-458 | a full leaf and the new entry are dealt out to two leaves; the lower leads to the upper, the upper to the old successor |
| IndexPages.IndexNode.SplitInner | src/observer/storage/common/bplus_tree.cpp:502-663 | a full internal page and the new child are dealt out, the middle key being in neither half |
| IndexPages.IndexNode.RemoveSlot | src/observer/storage/common/bplus_tree.cpp:893-944 | exactly entry d goes (with it, in an internal page, the child behind key d), and what is left in the slots behind |
| IndexPages.IndexNode.AppendLeaf | src/observer/storage/common/bplus_tree.cpp:946-1076 | the left leaf holds both contents and takes over the successor |
| IndexPages.IndexNode.AppendInner | src/observer/storage/common/bplus_tree.cpp:946-1076 | the left page holds both contents with the separator between them |
| IndexPages.IndexNode.TakeEntry | src/observer/storage/common/bplus_tree.cpp:1127-1136 | a leaf takes the first entry of its right neighbour, whose new first key is the separator |
| IndexPages.IndexNode.GiveEntry | src/observer/storage/common/bplus_tree.cpp:1139-1147 | a leaf gives its last entry to its right neighbour; as shipped the RID is not copied and the first slot keeps what it had |
| IndexPages.IndexNode.TakeKid | src/observer/storage/common/bplus_tree.cpp:1153-1162 | an internal page takes the first child of its right neighbour; as shipped one child too few is moved along |
| IndexPages.IndexNode.GiveKid | src/observer/storage/common/bplus_tree.cpp:1184-1193 | an internal page gives its last child; as shipped the last child of the neighbour is overwritten |
| IndexHandler.EmptyTreeIsWF | src/observer/storage/common/bplus_tree.cpp:26-93 | an empty leaf is a well-formed tree without entries |
| IndexHandler.BplusTreeHandler.Create | src/observer/storage/common/bplus_tree.cpp:26-93 | a new index is one empty leaf, a well-formed tree without entries |
| IndexHandler.BplusTreeHandler.FindLeaf | src/observer/storage/common/bplus_tree.cpp:199-244 | the leaf found is the one whose range holds the key |
| IndexHandler.BplusTreeHandler.InsertIntoLeaf | src/observer/storage/common/bplus_tree.cpp:246-291 | an entry that is present is reported as duplicate and nothing changes; otherwise it is inserted at its place |
| IndexHandler.BplusTreeHandler.InsertInternNode | src/observer/storage/common/bplus_tree.cpp:460-500 | the parent has the separator and the new child behind the old one |
| IndexHandler.BplusTreeHandler.SplitLeafPage | src/observer/storage/common/bplus_tree.cpp:329-452 | the pages then are those of the abstract leaf split, and the key for the parent is the first of the upper half |
| IndexHandler.BplusTreeHandler.SplitInnerPage | src/observer/storage/common/bplus_tree.cpp:502-657 | the same for an internal split, every child that moved knowing its new parent |
| IndexHandler.BplusTreeHandler.ReparentKids | src/observer/storage/common/bplus_tree.cpp:606-630 | exactly the parent pointers of the children that moved are changed |
| IndexHandler.BplusTreeHandler.InsertIntoParent | src/observer/storage/common/bplus_tree.cpp:665-697 | through any number of recursive splits, up to a new root, the tree ends well shaped, with the same leaves, and ordered if it was to be; and it is the one tree that the splits lead to, each new page having the next free number (`Told`) |
| IndexHandler.BplusTreeHandler.InsertInternNodeAfterSplit | src/observer/storage/common/bplus_tree.cpp:502-663 | a full parent is split and its own parent told in turn, with the same outcome, page by page |
| IndexHandler.BplusTreeHandler.InsertIntoNewRoot | src/observer/storage/common/bplus_tree.cpp:699-782 | a split root gets a new root above it, with the same outcome |
| IndexHandler.BplusTreeHandler.NewRoot | src/observer/storage/common/bplus_tree.cpp:699-782 | a page at the next free number is filled with the two halves and the separator, both are told their parent, and it is the root |
| IndexHandler.BplusTreeHandler.InsertIntoLeafAfterSplit | src/observer/storage/common/bplus_tree.cpp:329-458 | a new entry is added and the tree stays ordered; one that was present is stored twice and breaks the order; the new tree page by page |
| IndexHandler.BplusTreeHandler.InsertEntry | src/observer/storage/common/bplus_tree.cpp:784-846 | the tree stays well formed if and only if the entry was not already present in a full leaf; a new entry is added and nothing else changes; a present one is reported as duplicate unless its leaf is full; and on success the new tree is determined page by page, page numbers of splits included (`Inserted`) |
| IndexHandler.BplusTreeHandler.GetEntry | src/observer/storage/common/bplus_tree.cpp:848-891 | success if and only if the pair is stored, and then its RID |
| IndexHandler.BplusTreeHandler.DeleteEntryFromNode | src/observer/storage/common/bplus_tree.cpp:893-944 | a missing key changes nothing; a present one goes, with the child behind it |
| IndexHandler.BplusTreeHandler.MergePages | src/observer/storage/common/bplus_tree.cpp:946-1067 | the pages are merged, children re-parented, the right page given back, and the separator to delete is the one between the two |
| IndexHandler.BplusTreeHandler.RedistributeNodes | src/observer/storage/common/bplus_tree.cpp:1078-1243 | one key moves between neighbours through the parent, with the child that belongs to it; what the slot in doubt holds as shipped |
| IndexHandler.BplusTreeHandler.CollapseRoot | src/observer/storage/common/bplus_tree.cpp:1268-1301 | an empty internal root gives way to its only child |
| IndexHandler.BplusTreeHandler.CoalesceNode | src/observer/storage/common/bplus_tree.cpp:946-1076 | after a merge and everything it causes above, the tree is well formed if and only if the deletion does not go wrong, and then has the entries it should |
| IndexHandler.BplusTreeHandler.HelpPage | src/observer/storage/common/bplus_tree.cpp:1310-1427 | the same for an underfull page, whichever neighbour and whichever remedy is chosen |
| IndexHandler.BplusTreeHandler.DeleteEntryInternal | src/observer/storage/common/bplus_tree.cpp:1245-1428 | the same for the removal of an entry from any page, the recursion ending at the root |
| IndexHandler.BplusTreeHandler.DeleteEntry | src/observer/storage/common/bplus_tree.cpp:1430-1454 | a missing pair is reported and nothing changes; for a present pair the tree stays well formed if and only if the moves are the intended ones or no stale slot is met, and then exactly that pair is gone; a leaf that keeps enough keys is the only page that changes |
| IndexHandler.BplusTreeHandler.GetFirstLeafPage | src/observer/storage/common/bplus_tree.cpp:1613-1658 | the first leaf of the chain |
| IndexHandler.BplusTreeHandler.FindFirstIndexSatisfied | src/observer/storage/common/bplus_tree.cpp:1526-1611 | from the position found on, filtering by the comparison yields exactly the result of the scan; end of file only if that is empty; for equality the position has the value or there is none |
| BTreeScan.PickHas | src/observer/storage/common/bplus_tree.cpp:1795-1942 | an entry passes the filter if and only if it satisfies the comparison |
| BTreeScan.AllKeysAreAll | src/observer/storage/common/bplus_tree.cpp:1613-1658 | the keys along the whole chain are, in ascending order, exactly the entries |
| BTreeScan.OnlySmallRidsAreOverlooked | src/observer/storage/common/bplus_tree.cpp:1541-1549 | only an entry whose RID is below (-1, -1) can be missed by a search that starts from that RID |
| BTreeScan.ScanIsExact | src/observer/storage/common/bplus_tree.cpp:1526-1611 | for each comparison, what a scan yields is the filter of the sorted entries, once each and in key order, if and only if no entry is overlooked |
| BTreeScan.ProperScanIsExact | src/observer/storage/common/bplus_tree.cpp:1526-1611 | with RIDs as records have them the scan is exact |
| BTreeScan.StartAtProbe | src/observer/storage/common/bplus_tree.cpp:1541-1595 | starting at the leaf of the probe misses nothing but overlooked entries |
| BTreeScan.StartAtFirst | src/observer/storage/common/bplus_tree.cpp:1534-1540 | for the comparisons that start at the first leaf the scan is exact |
| BTreeScan.FoundSome | src/observer/storage/common/bplus_tree.cpp:1526-1611 | a search for a value finds something if and only if some entry has it and is not overlooked |
| IndexScanner.BplusTreeScanner.Open | src/observer/storage/common/bplus_tree.cpp:1663-1692 | an open scanner refuses and is unchanged; otherwise what remains to be yielded is the whole result |
| IndexScanner.BplusTreeScanner.Close | src/observer/storage/common/bplus_tree.cpp:1694-1702 | closing reports whether the scan was open, and leaves it closed |
| IndexScanner.BplusTreeScanner.NextEntry | src/observer/storage/common/bplus_tree.cpp:1704-1723 | success yields the first of what remains and leaves the rest; no-more-in-memory changes nothing of it but uses up a page; end only when nothing remains; for equality the first call succeeds if and only if something is there |
| IndexScanner.BplusTreeScanner.FindIdxPages | src/observer/storage/common/bplus_tree.cpp:1725-1761 | the next page is pinned without losing an entry; end only when nothing remains |
| IndexScanner.BplusTreeScanner.GetNextIdxInMemory | src/observer/storage/common/bplus_tree.cpp:1763-1794 | the next satisfying RID of the page, skipping only keys that do not satisfy the comparison |
| IndexScanner.BplusTreeScanner.ScanAll | src/observer/storage/common/bplus_tree.cpp:1663-1793 | driven to the end and past every no-more-in-memory, the scanner yields the whole result and stops |
| TableIndex.FoundIsPresent | src/observer/storage/common/bplus_tree_index.cpp:49-64 | the equality scan finds something if and only if the value is in the index |
| TableIndex.BplusTreeIndex.InsertEntry | src/observer/storage/common/bplus_tree_index.cpp:49-64 | a unique index refuses exactly the values it has, changing nothing, and adds every other entry; its invariant, at most one RID per value and RIDs as records have them, is kept if and only if the entry is not present in a full leaf and its RID is such a one |
| TableIndex.BplusTreeIndex.DeleteEntry | src/observer/storage/common/bplus_tree_index.cpp:66-68 | deletion keeps at most one RID per value under the same condition as for the tree, and removes exactly the entry |
| TableIndex.BplusTreeIndex.CreateScanner | src/observer/storage/common/bplus_tree_index.cpp:70-81 | a fresh open scanner with the whole result before it |
| IndexRuns.Apply | src/observer/storage/common/bplus_tree.cpp:784-1454 | one operation makes of a well-formed tree, and reports, what the outcome of a run says, faults included |
| IndexRuns.RunStaysWellFormed | src/observer/storage/common/bplus_tree.cpp:784-1454 | a run of any insertions and deletions, as shipped or with the intended moves, keeps the tree well formed throughout if and only if no operation meets a fault in the tree of its moment |
| IndexRuns.RunHoldsEntries | src/observer/storage/common/bplus_tree.cpp:784-1454 | as long as it does, the entries are those of the set after the same operations, and every result code is as it should be |
| IndexRuns.ScanOfRun | src/observer/storage/common/bplus_tree.cpp:1526-1611 | a scan at any moment of such a run yields, in key order, the RIDs of the satisfying entries of that set, if and only if none is overlooked |
| IndexRuns.ApplyUnique | src/observer/storage/common/bplus_tree_index.cpp:49-68 | the same for one operation on a unique index, which refuses values that are present |
| IndexRuns.UniqueRunStaysWellFormed | src/observer/storage/common/bplus_tree_index.cpp:49-68 | a run of a unique index breaks the tree if and only if a deletion meets a fault: no insertion does |
| IndexRuns.UniqueRunHoldsEntries | src/observer/storage/common/bplus_tree_index.cpp:49-68 | in such a run no value ever has two RIDs, and an insertion is refused if and only if its value is present |
| IndexRuns.Replay | src/observer/storage/common/bplus_tree.cpp:784-1454 | a program that makes such runs from the empty file on and returns the index with exactly the entries of the set |
| IndexRuns.ReplayAndScan | src/observer/storage/common/bplus_tree.cpp:1663-1793 | and a scan of it yields, in key order and once each, the RIDs of the satisfying entries |
| Departures.DuplicateIntoFullLeaf | src/observer/storage/common/bplus_tree.cpp:385-389 | the guard of insert_entry is met by a real tree: a duplicate in a full leaf |
| Departures.BuildTwoLeaves | src/observer/storage/common/bplus_tree.cpp:784-1454 | a program of four insertions and a deletion on a new index that leads to exactly the tree of the next three examples |
| Departures.DropUntilLeafBorrows | src/observer/storage/common/bplus_tree.cpp:1430-1454 | one more deletion, and the tree is well formed if and only if the moves are the intended ones |
| Departures.AddTwice | src/observer/storage/common/bplus_tree.cpp:784-846 | or one more insertion of what is there, and the tree is not well formed |
| Departures.LeafBorrowsFromLeft | src/observer/storage/common/bplus_tree.cpp:1139-1147 | the guard of the deletion is met there: as shipped a leaf is left with a wrong RID |
| Departures.InnerBorrowsFromLeft | src/observer/storage/common/bplus_tree.cpp:1184-1189 | a well-formed tree from which one deletion as shipped loses a child by overwriting it |
| Departures.InnerBorrowsFromRight | src/observer/storage/common/bplus_tree.cpp:1158-1161 | a well-formed tree from which one deletion as shipped loses a child that is not moved along |
| Departures.BuildThreeAndTwo | src/observer/storage/common/bplus_tree.cpp:784-1454 | a program of seven insertions and a deletion on a new index that leads to exactly the first of these trees, which has three levels |
| Departures.BuildTwoAndThree | src/observer/storage/common/bplus_tree.cpp:784-1454 | a program of six insertions that leads to exactly the second |
| Departures.DropUntilInnerBorrowsFromLeft | src/observer/storage/common/bplus_tree.cpp:1430-1454 | one more deletion from the first tree, and it is well formed if and only if the moves are the intended ones |
| Departures.DropUntilInnerBorrowsFromRight | src/observer/storage/common/bplus_tree.cpp:1430-1454 | and so it is with the second tree |
| Departures.SmallRidsAreOverlooked | src/observer/storage/common/bplus_tree.cpp:1541-1549 | a well-formed tree with an entry that a scan for its value misses |
| SedaProtocol.AddEventKeeps | deps/common/seda/stage.cpp:139-156 | adding an event keeps the protocol invariant, in every state of all threads |
| SedaProtocol.CheckNotEmptyKeeps | deps/common/seda/thread_pool.cpp:194-195 | the assertion at the head of schedule never fails |
| SedaProtocol.PushKeeps | deps/common/seda/thread_pool.cpp:197-208 | putting a stage on the run queue keeps the invariant |
| SedaProtocol.PopKeeps | deps/common/seda/thread_pool.cpp:233-245 | taking a stage off the run queue keeps the invariant |
| SedaProtocol.RemoveEventKeeps | deps/common/seda/stage.cpp:191-201 | a thread that has taken a stage off the run queue finds an event there |
| SedaProtocol.ReleaseEventKeeps | deps/common/seda/stage.cpp:208-215 | releasing an event keeps the reference count equal to what is outstanding |
| SedaProtocol.ConnectKeeps | deps/common/seda/stage.cpp:79-88 | connecting and counting the backlog keeps the invariant, unless it is careless: references are outstanding, or the pool is gone |
| SedaProtocol.EnterKeeps | deps/common/seda/stage.cpp:73-112 | passing the assertions of connect or disconnect, without the mutex, keeps the invariant |
| SedaProtocol.LookAgainKeeps | deps/common/seda/stage.cpp:89-98 | looking at the flag again, without the mutex, before the backlog is scheduled keeps the invariant, with what is lost when the flag has been cleared in between |
| SedaProtocol.BeginDisconnectKeeps | deps/common/seda/stage.cpp:114-123 | beginning to disconnect keeps the invariant, with other threads still at work on the stage or, if there are none, with the pool given up at once |
| SedaProtocol.EndDisconnectKeeps | deps/common/seda/stage.cpp:121-127 | giving up the pool when the count has come to 0 keeps the invariant, unless the stage has been connected again |
| SedaProtocol.BeginKillKeeps | deps/common/seda/thread_pool.cpp:105-122 | beginning to kill threads keeps the invariant, unless an earlier call has all its kills done and has not woken up |
| SedaProtocol.AddKillEventKeeps | deps/common/seda/thread_pool.cpp:166-180 | every kill event generated keeps the invariant |
| SedaProtocol.BlockKillKeeps | deps/common/seda/thread_pool.cpp:128-129 | going to sleep until the threads are killed keeps the invariant |
| SedaProtocol.ThreadKillKeeps | deps/common/seda/thread_pool.cpp:144-155 | a thread that obeys a kill event keeps the invariant, the counters going down together |
| SedaProtocol.ReleaseDyingKeeps | deps/common/seda/kill_thread.cpp:15-20 | a dying thread releases its own event exactly once |
| SedaProtocol.WakeKillKeeps | deps/common/seda/thread_pool.cpp:129-131 | waking kill_threads keeps the invariant |
| SedaProtocol.EndKillKeeps | deps/common/seda/thread_pool.cpp:131-135 | its return keeps the invariant |
| SedaProtocol.AddThreadsKeeps | deps/common/seda/thread_pool.cpp:68-92 | new threads keep the invariant |
| SedaProtocol.StepKeepsInv | deps/common/seda/thread_pool.cpp:194-278 | every step that any thread can take keeps the invariant, unless it is careless (`Careless`) |
| SedaRuns.RunKeepsInv | deps/common/seda/stage.cpp:73-215 | it holds in every state of a run up to its first careless step |
| SedaRuns.TokensMatchQueues | deps/common/seda/stage.cpp:73-215 | in every state of a run up to its first careless step no assertion has failed; the reference count is the pending schedule calls, run-queue places and threads about to remove plus the events in hand, plus what connect has counted and not scheduled, of which a connected stage has none; while connected the queue is as long as those tokens; whoever schedules finds a pool and a non-empty queue |
| SedaRuns.CarelessIsUnsound | deps/common/seda/stage.cpp:73-129 | the harm of a careless step is done at once: an assertion fails, a reference is not accounted for, or a connected stage has no pool |
| SedaRuns.SoundUnlessOvertaken | deps/common/seda/stage.cpp:73-129 | no assertion fails, every reference is accounted for by a token or an event in hand, and connected stages have their pool, in all states of a run, if and only if no step is careless and no disconnect begins between a connect of a stage with a backlog and the moment at which that connect looks at the flag again |
| SedaRuns.OneByOneIsSound | deps/common/seda/stage.cpp:73-129 | which is so if the callers do not let calls of connect and disconnect of one stage overlap, nor call kill_threads while another call has all its kills done and has not woken up |
| SedaRuns.CarelessConnectIs | deps/common/seda/stage.cpp:73-88 | a careless connect comes while a disconnect waits, after another connect, or after the pool has been given up since its assertions |
| SedaRuns.EarlyIsReached | deps/common/seda/stage.cpp:73-129 | a run of 14 steps in which a connect during a waiting disconnect resets the count, which then goes below zero |
| SedaRuns.SlowIsReached | deps/common/seda/stage.cpp:73-156 | a run of 16 steps in which the waiting disconnect takes the pool of the stage that has been connected again, and the next event fails an assertion |
| SedaRuns.LostForEver | deps/common/seda/stage.cpp:114-129 | once a backlog is lost, the stage stays disconnected and the disconnect never returns, in any careful continuation |
| SedaRuns.RaceIsReached | deps/common/seda/stage.cpp:73-129 | a careful run of seven steps that loses a backlog of one event: a reference with no token behind it |
| SedaRuns.DisconnectIsSafe | deps/common/seda/stage.cpp:114-129 | in a careful run disconnect returns only when no thread has or will take an event of the stage, and leaves the queue as it is |
| SedaRuns.QueueWaits | deps/common/seda/stage.cpp:139-156 | in a careful run the queue of a disconnected stage only grows |
| SedaRuns.ConnectSchedulesBacklog | deps/common/seda/stage.cpp:73-100 | no token of a stage is left when it is connected, and a connect that is not overtaken goes on to schedule the stage exactly as often as events were waiting |
| SedaRuns.FirstComeFirstServed | deps/common/seda/stage.cpp:139-201 | over any run, careless ones included, what was removed, followed by the queue, is what arrived, in order and once each |
| SedaRuns.RemovedIsHandled | deps/common/seda/stage.cpp:191-215 | in a careful run every event that was removed has been released or is in hand |
| SedaRuns.KillThreadsIsExact | deps/common/seda/thread_pool.cpp:105-183 | when kill_threads returns, as many threads are gone as it says (the request, or all), but for those added meanwhile so many fewer live; no kill is pending, and every kill event has been removed and released |
| SedaRuns.KillingOneselfSleeps | deps/common/seda/thread_pool.cpp:105-135 | a service thread that has asked for all threads to be killed is not woken up until others are added: it is one of them |
| SedaRuns.KillingNobodySleeps | deps/common/seda/thread_pool.cpp:128-129 | asked to kill nobody, kill_threads never wakes up, in any continuation of the run |
| SedaRuns.WakesWhenAllAreKilled | deps/common/seda/thread_pool.cpp:128-155 | kill_threads can wake up if and only if somebody was to be killed and all who were have been |
| SedaRuns.KillsGetDone | deps/common/seda/thread_pool.cpp:128-155 | a request to kill somebody is never stuck: unless a service thread waits in disconnect or is about to connect carelessly, or the caller is itself the only thread left to be killed, the threads need only go on with their work for kill_threads to wake up |
| SedaRuns.WorkGoesDown | deps/common/seda/thread_pool.cpp:219-278 | and every step of that work leaves less of it |
| SedaRuns.SecondKillFails | deps/common/seda/thread_pool.cpp:109-122 | a call of kill_threads fails its assertion if and only if it falls between the last kill of another call, or the moment at which a call for nobody went to sleep, and that call waking up |
| SedaRuns.WindowIsReached | deps/common/seda/thread_pool.cpp:105-135 | a run of eight steps that gets to that moment |
| SedaStage.Threadpool.Schedule | deps/common/seda/thread_pool.cpp:194-209 | the stage is appended to the run queue; an idle thread is signalled unless the caller is of this pool and the queue was empty |
| SedaStage.Threadpool.Take | deps/common/seda/thread_pool.cpp:233-245 | the first stage is taken off |
| SedaStage.Stage.AddEvent | deps/common/seda/stage.cpp:139-156 | the fields change as the step of the protocol says, and the stage is scheduled once if connected |
| SedaStage.Stage.RemoveEvent | deps/common/seda/stage.cpp:191-201 | the first event is taken |
| SedaStage.Stage.ReleaseEvent | deps/common/seda/stage.cpp:208-215 | the count goes down, and the waiting disconnect is woken exactly when the last reference of a disconnected stage goes |
| SedaStage.Stage.BeginConnect | deps/common/seda/stage.cpp:79-88 | the stage is connected and its count is the backlog, whatever the stage is like by then |
| SedaStage.Stage.ScheduleBacklog | deps/common/seda/stage.cpp:89-98 | if the stage is still connected it stands on the run queue as many times more as the backlog says, and otherwise that many are lost |
| SedaStage.Stage.Connect | deps/common/seda/stage.cpp:73-100 | without interruption the whole backlog is scheduled |
| SedaStage.Stage.BeginDisconnect | deps/common/seda/stage.cpp:114-127 | the flag is cleared, and the pool is given up at once if and only if no reference is outstanding |
| SedaStage.Stage.EndDisconnect | deps/common/seda/stage.cpp:121-127 | afterwards, when the count has come to 0, the pool is given up |
| Rows.ProductAt | src/observer/sql/executor/tuple.h:210-266 | the product is in lexicographic order: row i * (rows on the right) + j pairs row i with row j |
| Rows.KeepProduct | src/observer/sql/executor/tuple.h:210-266 | combining what filters leave of two sets is filtering their product |
| Rows.PushDown | src/observer/sql/executor/executor_builder.cpp:60-90 | selecting before a product is selecting after it, as sequences |
| QueryPlan.FromConditions | src/observer/storage/common/condition_filter.cpp:646-747 | false constant conditions ban everything; the filters kept are exactly the conditions on the table, or between two attributes |
| QueryPlan.ScanRows | src/observer/sql/executor/scan_executor.cpp:30-52 | a scan yields, in order, the rows on which all filters hold |
| QueryPlan.NestLoops | src/observer/sql/executor/nest_loop_join_executor.cpp:39-82 | the nested loops yield the selected product, in lexicographic order |
| QueryPlan.Execute | src/observer/sql/executor/nest_loop_join_executor.cpp:39-82 | executing a plan yields the rows the plan means |
| QueryPlan.JoinRepresents | src/observer/sql/executor/nest_loop_join_executor.cpp:14-82 | joining a plan for some tables with a scan of another gives a plan for all of them, with all the conditions |
| QueryBuilder.RelevantFilters | src/observer/sql/executor/nest_loop_join_executor.cpp:14-23 | the constructor keeps exactly the filters whose tables the join holds |
| QueryBuilder.KeptApplies | src/observer/storage/common/condition_filter.cpp:683-721 | a condition kept for a table needs no other table |
| QueryBuilder.BuildSelect | src/observer/sql/executor/executor_builder.cpp:60-90 | the plan for the tables of FROM yields the product of their rows on which every condition of WHERE that they can answer holds |
| QueryBuilder.BuildJoins | src/observer/sql/executor/executor_builder.cpp:98-130 | after every INNER JOIN the plan yields the product on which all wanted conditions that the tables can answer hold; nothing if a constant condition is false |
| QueryBuilder.Build | src/observer/sql/executor/executor_builder.cpp:60-130 | the whole plan yields exactly the cross product filtered by all conditions of WHERE and all of ON that are not dropped, in the order of the product |
| QueryBuilder.AnswersUnlessDropped | src/observer/sql/executor/executor_builder.cpp:98-130 | the plan yields exactly the rows of the product on which every condition of WHERE and ON holds, if and only if on every row it yields the dropped conditions hold |
| QueryBuilder.NothingDropped | src/observer/sql/executor/executor_builder.cpp:98-130 | when no ON condition is dropped, the rows of the plan are those of the query, in order |
| QueryBuilder.OnEarlierTableIsDropped | src/observer/sql/executor/executor_builder.cpp:98-130 | ON with a condition on an earlier table and a value: the condition is dropped and a row comes out that violates it |
| CartesianPath.FromStart | src/observer/sql/executor/tuple.h:212-220 | from index vector 0 on, the odometer has the whole product before it |
| CartesianPath.FromStep | src/observer/sql/executor/tuple.h:242-254 | one turn of the odometer is one step in the lexicographic order of index vectors |
| CartesianPath.TupleSetDescartesIterator.constructor | src/observer/sql/executor/tuple.h:212-220 | the iterator starts with the whole product before it, and at the end if a set is empty |
| CartesianPath.TupleSetDescartesIterator.Current | src/observer/sql/executor/tuple.h:230-241 | the current tuple is the first not visited yet |
| CartesianPath.TupleSetDescartesIterator.Advance | src/observer/sql/executor/tuple.h:242-254 | advancing leaves all but the first of what was left, so that every index vector is visited once |
| CartesianPath.ExecuteCartesian | src/observer/sql/executor/execution_node.cpp:50-65 | the node yields, in order, the combinations that pass the filter, and terminates |
| SelectPaths.TableConditions | src/observer/sql/executor/execute_stage.cpp:556-579 | exactly the conditions on one table, and the constant ones, go to its selection |
| SelectPaths.PairConditions | src/observer/sql/executor/execute_stage.cpp:600-615 | exactly the conditions between two attributes go to the product |
| TableScans.CompareIsRank | src/observer/storage/common/table.cpp:928-966 | the filters and the index order values alike: integers whose difference fits in 32 bits, and strings that fit into the field |
| TableScans.WhoIsReached | src/observer/storage/common/table.cpp:928-966 | of the rows that pass the condition for which an index is chosen, the scan meets those, and only those, for which the attribute stands on the left, or the operator is its own mirror image, or the values are equal: the operator is passed on as it stands |
| TableScans.ScanTable | src/observer/storage/common/table.cpp:423-501 | the index scan and the scan of the record file deliver, filtered, what the choice of the index says: the rows of the satisfying entries in key order, or all rows in file order |
| TableScans.DeliveredAreReached | src/observer/storage/common/table.cpp:470-501 | what an index scan delivers is, as a multiset, the rows that the scan meets |
| TableScans.ScanIsComplete | src/observer/storage/common/table.cpp:423-501 | a scan yields all rows that pass the filters if and only if it meets every one of them; and the rows in file order when no index is chosen |
| TableScans.ValueOnTheLeft | src/observer/storage/common/table.cpp:928-966 | WHERE 5 < t.x with an index on x: the row with 7 passes the filter and is not found |
| SelectPaths.SelectionNodes | src/observer/sql/executor/execute_stage.cpp:379-440 | the tables as they are read, filtered and combined, are the product on which the conditions of single tables hold |
| SelectPaths.DoSelect | src/observer/sql/executor/execute_stage.cpp:379-490 | the older path yields the product of the tables as they are read, filtered by all conditions of WHERE |
| SelectPaths.OlderPathIsComplete | src/observer/sql/executor/execute_stage.cpp:379-490 | these are, in some order, the rows of the query if and only if every one of them is met by the scans of all tables; and the same sequence when no condition chooses an index |
| SelectPaths.WhichAreMet | src/observer/storage/common/table.cpp:928-966 | a row of the query is met if and only if for every table the chosen condition has its attribute on the left, or an operator that is its own mirror image, or the row has the value itself |
| SelectPaths.PathsAgree | src/observer/sql/executor/execute_stage.cpp:379-520 | the plan yields the rows of the query in the order of the product; the older path yields the same rows if and only if its scans meet them all, and the same sequence when no condition chooses an index |
| SelectPaths.HeadsMatchColumns | src/observer/sql/executor/nest_loop_join_executor.cpp:75-78 | the columns of the topmost join stand under their heads if and only if the select list names those of the left side first |
| Calendar.DateRoundTrip | deps/common/time/datetime.h:219-238 | get_ymd of julian_date is the date, for every Gregorian date from 1 March -4800 on; no intermediate result of either leaves the range of a 32-bit int if and only if the day number is at most 536838867 |
| Calendar.DayRoundTrip | deps/common/time/datetime.h:219-238 | julian_date of get_ymd is the day number, for every day number from -32044 on, and it is a date; within a 32-bit int exactly up to the same day |
| Calendar.NextDayIsNextNumber | deps/common/time/datetime.h:219-225 | the day after has the next day number, over month and year ends and leap days |
| Calendar.JulianIsMonotone | deps/common/time/datetime.h:219-225 | day numbers are ordered as dates, in both directions |
| DateTimes.ClockRoundTrip | deps/common/time/datetime.h:95-101 | get_hms takes back make_hms |
| DateTimes.TimeRoundTrip | deps/common/time/datetime.h:192-196 | make_hms takes back get_hms for every time of a day |
| DateTimes.EpochIs | deps/common/time/datetime.h:51 | the day number of 1 January 1970 is the constant |
| DateTimes.MaxDayInMonthFor | deps/common/time/datetime.cpp:189-209 | the number of days of the month, with the Gregorian leap years |
| DateTimes.BeforeJanuary | deps/common/time/datetime.cpp:162-209 | the day before 1 January comes out as 28 December: December, reached from January of the same year, is taken to have 28 days |
| DateTimes.MonthStart | deps/common/time/datetime.cpp:162-183 | the month after starts as many days later as the month has, over year ends |
| DateTimes.DateTime.AddSeconds | deps/common/time/datetime.h:159-173 | the instant moves by exactly that many seconds, negative ones included; the time of day stays below a day unless it comes to exactly a full day, which is left unnormalised |
| DateTimes.DateTime.SettleDay | deps/common/time/datetime.cpp:166-183 | the day loop ends; forwards it is exact, and backwards it is exact if and only if the day it is to reach is not before January of the year |
| DateTimes.DateTime.AddDuration | deps/common/time/datetime.cpp:116-187 | for durations of either sign: years and months first, the day cut to the month; hours, minutes and seconds add up exactly and milliseconds are zeroed; the date is exact if and only if the days do not lead back beyond January of the year |
| MD5.WordRoundTrip | deps/common/math/md5.cpp:252-273 | Decode takes back Encode |
| MD5.ByteRoundTrip | deps/common/math/md5.cpp:252-273 | Encode takes back Decode |
| MD5.PaddingIsLeast | deps/common/math/md5.cpp:141-142 | padLen is the least that makes the length 56 modulo 64 |
| MD5.PaddedIsWhole | deps/common/math/md5.cpp:131-154 | the padded message consists of whole blocks and begins with the message |
| MD5.AbsorbConcat | deps/common/math/md5.cpp:107-119 | transforming block by block does not depend on where the input is cut, at block ends |
| MD5.CountAdds | deps/common/math/md5.cpp:101-104 | the two count words with their carry hold the bit length modulo 2^64 |
| MD5.IndexIs | deps/common/math/md5.cpp:98-99 | the index computed from the low word is the number of buffered bytes |
| MD5.EncodeWords | deps/common/math/md5.cpp:252-261 | the loop writes each word with its low-order byte first |
| MD5.Context.constructor | deps/common/math/md5.cpp:80-89 | a context for the empty message |
| MD5.Context.Update | deps/common/math/md5.cpp:95-125 | the context then stands for the old message followed by the input: state of its whole blocks, rest in the buffer, length in the count |
| MD5.Context.Final | deps/common/math/md5.cpp:131-154 | the result is the one-shot digest of the padded message, as sections 3.1 to 3.4 of RFC 1321 define it |
| MD5.DigestOfParts | deps/common/math/md5.cpp:80-154 | however a message is split into updates, the digest is that of the whole |
| Timers.PutKeepsSorted | deps/common/seda/timer_stage.cpp:289-299 | inserting a token that is not there keeps the queue sorted |
| Timers.TokenIsNew | deps/common/seda/timer_stage.cpp:297-301 | the token of a registration is never in the queue, so that the assertion holds |
| Timers.RegisterKeepsInv | deps/common/seda/timer_stage.cpp:289-319 | registering keeps the invariant: unique tokens, conservation, counter, order, and a wake-up that is not missed |
| Timers.CancelKeepsInv | deps/common/seda/timer_stage.cpp:321-343 | cancelling keeps it |
| Timers.CheckKeepsInv | deps/common/seda/timer_stage.cpp:362-431 | a round of the timer thread keeps it |
| Timers.StepKeepsInv | deps/common/seda/timer_stage.cpp:248-431 | every step keeps it |
| Timers.EachEventHasOneFate | deps/common/seda/timer_stage.cpp:289-431 | over any run a registered event has been fired once, cancelled once or is in the queue, exclusively, and nothing else has; the counter is the length of the queue modulo 2^32 |
| Timers.FiredInOrder | deps/common/seda/timer_stage.cpp:103-109 | over any run nothing is fired before its time, and of two events the lesser token is fired first unless it was registered only after the other had been fired |
| Timers.CheckFiresWhatIsDue | deps/common/seda/timer_stage.cpp:376-399 | a round fires exactly the events that are due, in the order of the queue |
| Timers.DueIsServed | deps/common/seda/timer_stage.cpp:307-318 | an event that is due is never slept over: the thread is awake, can time out, or is about to be signalled, and then checks |
| Timers.ShutdownEndsThread | deps/common/seda/timer_stage.cpp:248-262 | after shutdown the thread never sleeps, and its next check is its last |
| Timers.TimerStage.RegisterTimer | deps/common/seda/timer_stage.cpp:289-319 | the fields change as the step says; a check is asked for exactly when the event is at the head |
| Timers.TimerStage.CancelTimer | deps/common/seda/timer_stage.cpp:321-343 | success if and only if the token is in the queue, and then only it goes |
| Timers.TimerStage.DisconnectPrepare | deps/common/seda/timer_stage.cpp:248-262 | asking the thread to end is the shutdown step |
| Timers.TimerStage.CheckTimer | deps/common/seda/timer_stage.cpp:362-431 | the loop collects and removes exactly what the step says, and sleeps, or ends, as it says |
| Expressions.Print | src/observer/sql/executor/util.cpp:133-170 | the printer appends the tokens of the expression, braces counted per node |
| Expressions.RunParser | src/observer/sql/parser/yacc_sql.tab.c:1779-1854 | the shift-reduce loop computes the parse function |
| Expressions.StepKeepsStack | src/observer/sql/parser/yacc_sql.y:169-170 | every shift and reduction keeps the operators on the stack in rising precedence and all subtrees well formed |
| Expressions.StepKeepsTokens | src/observer/sql/parser/yacc_sql.tab.c:1779-1854 | no step gains or loses a token |
| Expressions.RunIsSound | src/observer/sql/parser/yacc_sql.tab.c:1779-1854 | what is parsed is well formed: left-associative, * and / above + and -, unary minus as strong as binary minus; and prints as exactly the tokens consumed |
| Expressions.ReadsExpression | src/observer/sql/parser/yacc_sql.tab.c:1779-1854 | a well-formed expression is always read to the end, whatever stands around it that does not claim a part of it |
| Expressions.ParsesExactlyWhatIsPrinted | src/observer/sql/parser/yacc_sql.y:426-455 | the parser yields a tree for some tokens if and only if the tree is well formed and prints as those tokens |
| Expressions.PrintThenParse | src/observer/sql/executor/util.cpp:133-170 | printing a parsed expression gives the tokens parsed, and parsing them again the same tree |
| Expressions.PrintedOnce | src/observer/sql/parser/yacc_sql.y:169-170 | with the declared precedences the expression grammar is unambiguous |
| Aggregation.BelowIsTotal | src/observer/sql/executor/aggregate_execution_node.h:14-22 | keys of one length are totally and strictly ordered |
| Aggregation.CodeBelowIsBelow | src/observer/sql/executor/value.h:47-65 | the order that the code computes, by subtraction in 32 bits, agrees with that order on two keys, both ways, if and only if at the first place where they differ their values are less than 2^31 apart (`CloseKeys`) |
| Aggregation.CloseIsOrder | src/observer/sql/executor/value.h:47-65 | so that it orders close keys as an ordered map asks |
| Aggregation.Circle | src/observer/sql/executor/value.h:47-65 | 2000000000, 0 and -2000000000 it orders in a circle |
| Aggregation.AscendingIfClose | src/observer/sql/executor/aggregate_execution_node.h:14-22 | keys that it orders somehow come in ascending order if and only if any two are close |
| Aggregation.LessThan | src/observer/sql/executor/aggregate_execution_node.h:14-22 | the loop over the values computes the order of the code |
| Aggregation.AccumulatedIsTotal | src/observer/sql/executor/aggregate_execution_node.h:72-115 | COUNT, SUM, MIN, MAX and AVG kept value by value are those of the non-null values; null when there is none, but COUNT is 0; MIN and MAX for values that are not too far apart |
| Aggregation.FarApart | src/observer/sql/executor/value.h:47-65 | of 2000000000 and -2000000000 MIN and MAX are whichever comes first |
| Aggregation.LeastInEveryOrder | src/observer/sql/executor/aggregate_execution_node.h:88-99 | MIN of integers, some of them null, is their least in whatever order they come, if and only if any two differ by less than 2^31 |
| Aggregation.GreatestInEveryOrder | src/observer/sql/executor/aggregate_execution_node.h:88-99 | and so MAX is their greatest |
| Aggregation.OrderDoesNotMatter | src/observer/sql/executor/agg_executor.cpp:13-50 | the output that the definition asks for is determined by the rows, whatever their order |
| Aggregation.WriteKeeps | src/observer/sql/executor/aggregate_execution_node.h:79-87 | adding to a total changes no other total and no cell of a tuple |
| Aggregation.PointKeeps | src/observer/sql/executor/aggregate_execution_node.h:88-99 | MIN and MAX may hold a cell of a tuple without any total being disturbed |
| Aggregation.NewCellKeeps | src/observer/sql/executor/aggregate_execution_node.h:82-87 | the first value of a SUM or AVG gets a cell of its own |
| Aggregation.FreshKeeps | src/observer/sql/executor/aggregate_execution_node.h:44-70 | a new group starts with its own cells |
| Aggregation.SimpleAggregationHashTable.CombineAggregateValues | src/observer/sql/executor/aggregate_execution_node.h:72-115 | every total of the group takes its value, the totals of the other groups and the tuples are as before |
| Aggregation.SimpleAggregationHashTable.InsertCombine | src/observer/sql/executor/aggregate_execution_node.h:117-122 | the group is made if need be, at its place in the order of the code, and every total of it takes its value; the other groups are as before |
| Aggregation.ComputedIsAggregation | src/observer/sql/executor/agg_executor.cpp:13-50 | what is computed value by value is the aggregation of the definition, if keys ascend and the extremes are taken of close values |
| Aggregation.Next | src/observer/sql/executor/agg_executor.cpp:13-50 | where the comparison of the code orders the keys: one row per group, with what each aggregate keeps value by value; in ascending key order if and only if any two keys are close, and then, for close extremes, with the aggregates of the definition; no value of an input tuple is changed although MIN and MAX alias them |
| TableLayout.EveryByteHasOneField | src/observer/storage/common/table_meta.cpp:45-94 | every byte of a record behind the null bitmap is of exactly one field, no other byte of any, and the bitmap has a bit for each field |
| TableLayout.FieldRoundTrip | src/observer/storage/common/field_meta.cpp:95-155 | a field is read back from its JSON if and only if it is a proper field |
| TableLayout.TypeRoundTrip | src/observer/storage/common/field_meta.cpp:22-36 | type names are read back |
| TableLayout.IndexRoundTrip | src/observer/storage/common/index_meta.cpp:26-65 | an index over fields of the table is read back |
| TableLayout.SortedIsUnique | src/observer/storage/common/table_meta.cpp:280-281 | with different offsets there is only one sorted order, so that the sort of deserialize restores the fields |
| TableLayout.TableRoundTrip | src/observer/storage/common/table_meta.cpp:203-309 | a table that is written and read back is the same, if and only if it has indexes or the table it is read into has none |
| TableLayout.TableMeta.Init | src/observer/storage/common/table_meta.cpp:45-94 | success if and only if the name is not empty and there are attributes, all proper; then the layout tiles the record behind the bitmap in the order of the attributes |
| TableLayout.TableMeta.Read | src/observer/storage/common/table_meta.cpp:237-309 | reading takes over name, fields, record size and indexes as the function says, failing where the code fails |

## Left out

- Buffer pool: pages are allocated and given back at will; pinning, dirty marks, result codes of
  page I/O and out-of-memory paths are not modelled. A page number once given back may be used again.
- Header and reopening: the page number of a new root is not written back to the file header at
  once, so opening a file again is not modelled; `insert_entry` drops the result code of the
  splitting path, which here cannot fail.
- Order of a tree: `order` is a parameter, at least 3, instead of being computed from the page size.
- FLOATS keys and values: comparison within a tolerance is not transitive and gives no order.
- Other operators: a scan for any operator but the six comparisons yields nothing, in the model as in the code.
- `print` and `print_tree`, and the branch of `get_next_idx_in_memory` for a page number that the
  scan never reaches.
- BplusTreeHandler.DeleteEntry: when a shipped move meets a stale slot, only that the tree is no
  longer well formed is stated, not what later operations make of it.
- IndexRuns.Replay: the program makes runs without faults; runs of any operations, as shipped, are
  those of `IndexRuns.RunStaysWellFormed`, in which what becomes of a tree once it is broken is open.
- Condition variables of the pool: a woken thread is one that may take its next step; lost wake-ups,
  spurious wake-ups and fairness are not modelled, nor that a waiting thread is woken eventually.
- Stages of several pools, callbacks, time-outs of events and the work done in `handle_event`. What
  follows a failed assertion: the run ends there.
- SedaRuns.KillsGetDone: that the threads do go on with their work is a matter of the scheduler.
- SedaStage.Stage.Connect: run without interruption, as is `AddEvent`; interleaved executions are
  those of the state machine.
- SELECT: NULL, IS and IS NOT, sub-queries, mixed types, text pages and transactions (all records are
  visible); attributes are qualified and the tables distinct. Aggregation, ORDER BY and output
  formatting after the rows. An index is taken to hold what its table holds.
- SelectPaths.PathsAgree: when an index is chosen, the order of the rows is that of the keys and then
  of the record numbers (`TableScans.Delivered`); no more is said of it.
- SelectPaths.WhichAreMet: for values that filters and index order alike (`TableScans.Comparable`).
- Filters passed down at execution (the second parameter of `next`) are not used by these plans.
- Aggregation.Next: arithmetic is exact instead of in `float`, and floats are compared exactly instead
  of within a tolerance; group keys are integers and not null (comparing a null key is an assertion
  failure in the code). It asks of the keys what an ordered map asks of them, that the comparison orders
  them; what the map does with keys that compare in a circle is undefined. COUNT(*) is not modelled, for
  which `build_agg_output_schema` returns before it has set the aggregates.
- DateTimes.DateTime.AddDuration: when negative months lead to a month before January, it says only
  which day comes out as long as the days stay within the first 28 of that month. The days may not
  lead before March -4800. The parsing of durations is not modelled.
- Calendar.DateRoundTrip: from 1 March -4800 on, where no operand of a division is negative.
- MD5: the 64 rounds of `MD5Transform` are any function of state and block; wiping the context.
- Timers: real and monotonic clocks are one; nonces do not wrap around; the callback of an event.
- Expressions: evaluation (`Calculate`), the spelling of values, and the rest of the grammar; the end
  of an expression is the end of the tokens.
- TableLayout.TableMeta.Init: what the field list holds after a failure; a JSON value of the wrong
  shape on which the library throws counts as a failure; sums of lengths do not overflow.
- Record pages, the rest of `table.cpp`, transactions, lock tracing, networking, configuration and
  logging: they would add plumbing, or easy members only.
