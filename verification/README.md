# Database kernel labs in Dafny

A model, with proofs, of the components of six database kernel labs: a B+-tree, a concurrent
2Q buffer manager, an external merge sort, slotted pages with their free-space inventory and
record segment, a lock manager with deadlock detection, and the relational set, sort and
aggregation operators together with a 2Q replacer.

`dafny verify dfyconfig.toml` checks everything.

## How the model is laid out

Code that changes things in place is modelled in place: nodes, pages, buffers and lists are
classes and arrays changed by loops, memmove and memcpy (`Memory.dfy`), and every method is
proved against functions on values. What the original promises is then proved about those
functions. Code that runs in several threads is a transition system whose steps are the
sections between which other threads can run.

| files | component |
|---|---|
| `Collections`, `Memory` | Optional values, sets of a sequence's elements, and the memory-moving calls. |
| `BTreeNodes`, `BTreeShape`, `BTreeSplit`, `BTree`, `BTreeHeight`, `BTreeRuns` | B+-tree. Pages are a map from page id to node; a fixed page is loaded into a node object and stored back. Capacities are parameters: at least 3 for leaves, at least 5 for inner nodes. |
| `BufferState`, `BufferInvariant`, `BufferSteps`, `BufferEvict`, `BufferLoad`, `BufferChanges`, `BufferTheorems`, `BufferAges` | Buffer manager. Steps end where the global latch is dropped: to wait for a NEW frame, to lock a page for its user, to read and to write. |
| `SortSpec`, `MergeBuffers`, `ExternalSort` | External merge sort. Sizes and offsets count 8-byte values; constants are computed in bytes as in the original. |
| `PageLayout`, `Compaction`, `PageSteps`, `SlottedPages`, `PageRuns`, `SlotWords` | Slotted pages. `SlotWords` treats the 64-bit words bit by bit; the page keeps a slot's fields. |
| `FreeSpaceInventory`, `SegmentRecords`, `SpSegment`, `SegmentRuns` | Free-space inventory and record segment. |
| `WaitsFor`, `WaitsForGraphs`, `LockProtocol`, `LockSteps`, `LockTheorems`, `OrderlyRuns`, `DeadlockErrors`, `SpuriousErrors` | Waits-for graph and lock manager. |
| `TwoQReplacers`, `TwoQRuns` | 2Q replacer. |
| `Tuples`, `SetOperators`, `CountingOperators`, `DrainedOperators`, `SortOperator`, `Aggregation` | Operators. |

Where code and comments disagree the model follows the code:

- B+-tree routing is `K(i-1) < K <= K(i)` (btree.h:102, 127-128, 400), not the range in the comment at btree.h:58.
- The reuse scan of the slotted page (slotted_page.cc:39-44) has no break, so it keeps the last
  empty slot, not the next one. As a consequence `erase` can leave `first_free_slot` beyond
  `slot_count`, and the next `allocate` then fails its assertion. `PageRuns.SkippedSlot` is such a
  run, `PageRuns.HintBeyondSlots` says exactly when it happens, and `SPSegment.Allocate` has the
  failed assertion as an outcome of its own.
- The second comparison of `SPSegment::resize` (sp_segment.cc:237) is strict, so a record that
  would fit exactly moves to another page; `Resize` says so.
- A record that grows in place loses its redirect-target flag (slotted_page.cc:130); `Relocate` says so.
- `acquireLock` does not remove a transaction's own edges once it has the lock, in spite of the
  comment at lock_manager.cc:204; they stay until the owner or the transaction ends. Nor is an edge
  that addWaiters drew between two queued readers taken back, so a DeadLockError can come up
  although nobody waits (`SpuriousErrors.ErrorWithoutWaits`). The exact condition on a run: a reader
  becomes an owner only when everybody else queued for the item asks for it exclusively. While that
  is kept, and nobody waits for a free mutex, an error means a deadlock and a deadlock an error
  (`DeadlockErrors.ErrorIffDeadlock`); runs of exclusive requests keep it. The first reader to break
  it makes an error without a deadlock possible (`SpuriousErrors.DisorderThrows`).

What the model takes from its callers: record sizes are greater than 0 and the page is smaller
than 524300 bytes, so that 16-bit slot numbers and 24-bit fields suffice; exclusive users unfix
what they changed as dirty; a transaction does not ask for a lock it already holds; rows agree in
the types of the columns that are compared or added.

## Model

| member | source | states |
|---|---|---|
| BTrees.BTree.Insert | task-btree/include/moderndbs/btree.h:569-646 | After an insert the tree is well formed again and its map is the old map with the key bound to the new value, through overwrite, leaf split, inner split and root growth. |
| BTrees.BTree.Erase | task-btree/include/moderndbs/btree.h:552-564 | After an erase the map lacks the key and nothing else; leaves may become empty and the tree stays well formed. |
| BTrees.BTree.Lookup | task-btree/include/moderndbs/btree.h:535-548 | Lookup returns exactly what the map binds the key to, or nothing. |
| BTrees.BTree.GetLeafPage | task-btree/include/moderndbs/btree.h:343-514 | Read-only descent ends at the one leaf whose half-open interval holds the key. |
| BTrees.BTree.GetLeafPageForInsert | task-btree/include/moderndbs/btree.h:372-507 | Splitting descent keeps the map and the well-formedness, and ends at the key's leaf below a parent that still has room. |
| BTrees.BTree.SplitChild | task-btree/include/moderndbs/btree.h:450-487 | Splitting an unsafe child below its parent changes no binding and keeps the tree well formed; both halves then have room, as the code asserts, and are about half full, the parent still fits its page, and its separator was new in the parent. |
| BTrees.BTree.GrowRoot | task-btree/include/moderndbs/btree.h:372-411 | Splitting the root under a new root changes no binding and keeps the tree well formed one level higher; both halves then have room, as the code asserts, and are about half full, and the new root has two children. |
| BTrees.BTree.MakeSafe | task-btree/include/moderndbs/btree.h:448-487 | After the check of a child on the way down, the page the key leads to is safe: its count is below kCapacity - 1. |
| BTrees.BTree.MakeRootSafe | task-btree/include/moderndbs/btree.h:370-415 | The same for the root, including the choice between old and new half. |
| BTrees.BTree.InsertFirst | task-btree/include/moderndbs/btree.h:571-579 | The first insert makes a tree of one leaf with one binding. |
| BTrees.BTree.InsertIntoPage | task-btree/include/moderndbs/btree.h:629-643 | Storing into a leaf that has room binds the key and changes no other binding. |
| BTreeNodes.InnerNode.LowerBound | task-btree/include/moderndbs/btree.h:89-111 | Binary search ignores the last, invalid key and finds the first key that is not less; `found` also compares with the invalid key, as the code does. |
| BTreeNodes.InnerNode.Lookup | task-btree/include/moderndbs/btree.h:116-121 | The child chosen is the one at the search position; the test for an index equal to count cannot be true. |
| BTreeNodes.InnerNode.InitInsert | task-btree/include/moderndbs/btree.h:129-136 | A new root gets one separator twice, the second time as the invalid key, and its two children. |
| BTreeNodes.InnerNode.Insert | task-btree/include/moderndbs/btree.h:144-169 | The shifting insert in place has the effect of inserting key and right child into the node's sequences. |
| BTreeNodes.InnerNode.Split | task-btree/include/moderndbs/btree.h:174-189 | Inner split in place: the left half keeps (count - 1) / 2 + 1 entries, the right one the rest, and the separator is keys[(count - 1) / 2]. |
| BTreeNodes.LeafNode.LowerBound | task-btree/include/moderndbs/btree.h:230-251 | Binary search over all keys of a leaf. |
| BTreeNodes.LeafNode.Lookup | task-btree/include/moderndbs/btree.h:255-258 | Lookup in place agrees with lookup on the node's value. |
| BTreeNodes.LeafNode.Insert | task-btree/include/moderndbs/btree.h:263-284 | The memmove insert in place, including overwrite of a present key. |
| BTreeNodes.LeafNode.Erase | task-btree/include/moderndbs/btree.h:287-296 | The memmove erase in place, including the absent key. |
| BTreeNodes.LeafNode.Split | task-btree/include/moderndbs/btree.h:301-314 | Leaf split in place: the left half keeps count / 2 + 1 entries, the right one the rest, and the separator, keys[count / 2], stays in the left half. |
| BTreeNodes.LeafInsertHolds | task-btree/include/moderndbs/btree.h:263-284 | Inserting into a sorted leaf keeps it sorted, binds the key and no other. |
| BTreeNodes.LeafEraseHolds | task-btree/include/moderndbs/btree.h:287-296 | Erasing keeps the leaf sorted and drops exactly the key's binding. |
| BTreeNodes.LeafSplitHolds | task-btree/include/moderndbs/btree.h:301-314 | The two halves of a leaf share out its bindings at the separator: at most it on the left, above it on the right. |
| BTreeShape.RouteInRange | task-btree/include/moderndbs/btree.h:113-121 | Routing at an inner node goes to a child whose interval holds the key. |
| BTreeShape.ChildInRange | task-btree/include/moderndbs/btree.h:102 | A key lies in the interval of exactly one child, K(i-1) < K <= K(i). |
| BTreeShape.OnePagePerLevel | task-btree/include/moderndbs/btree.h:445-507 | On every level one page at most is responsible for a key. |
| BTreeShape.LookupMeansContents | task-btree/include/moderndbs/btree.h:535-548 | Looking the key up in the leaf responsible for it answers for the whole tree. |
| BTreeShape.InsertIntoLeaf | task-btree/include/moderndbs/btree.h:638-643 | A leaf-local insert is a map update of the whole tree. |
| BTreeShape.EraseFromLeaf | task-btree/include/moderndbs/btree.h:552-564 | A leaf-local erase is a map removal of the whole tree. |
| BTreeSplit.SeparatorPlace | task-btree/include/moderndbs/btree.h:144-150 | The separator of child i is new among the parent's keys, the invalid one included, and belongs at position i: the asserts of insert hold. |
| BTreeSplit.SplitBelowWf | task-btree/include/moderndbs/btree.h:450-487 | Pre-emptive splitting keeps levels, key order, key intervals, single parents and the bounds on counts. |
| BTreeSplit.SplitRootWf | task-btree/include/moderndbs/btree.h:372-411 | Root growth keeps the same. |
| BTreeSplit.SplitBelowContents | task-btree/include/moderndbs/btree.h:450-487 | No binding is lost, added or changed by a split below a parent. |
| BTreeSplit.SplitRootContents | task-btree/include/moderndbs/btree.h:372-411 | No binding is lost, added or changed by a split of the root. |
| BTreeSplit.SplitBelowRoom | task-btree/include/moderndbs/btree.h:461-467 | After any split below a parent both halves have a count of at least 2 (inner) and below the split threshold, and the parent a count below kCapacity. |
| BTreeSplit.SplitBelowTakesKey | task-btree/include/moderndbs/btree.h:470-481 | Comparing the separator with the key picks the half that is responsible for the key. |
| BTreeSplit.SplitRootTakesKey | task-btree/include/moderndbs/btree.h:398-409 | The same when the root was split. |
| BTreeHeight.HeightBound | task-btree/include/moderndbs/btree.h:174-189 | Non-root inner nodes keep at least floor((kCapacity-1)/2) children, so a tree with root level h >= 1 has at least 2*floor((kCapacity-1)/2)^(h-1) leaves. |
| BTreeRuns.Perform | task-btree/include/moderndbs/btree.h:535-646 | After any sequence of inserts and erases on an empty tree the tree is well formed, stands for the map the sequence makes, and has at least as many leaves as its height demands. |
| BTreeRuns.LastInsertWins | task-btree/include/moderndbs/btree.h:535-646 | That map binds a key to v exactly when the last operation on the key inserted v. |
| BTreeRuns.LookupAfter | task-btree/include/moderndbs/btree.h:535-646 | A lookup after any such sequence returns v exactly when v was last inserted for the key and not erased since. |
| BufferTheorems.StepInv | task-buffer-manager/src/buffer_manager.cc:107-355 | Every latch-held section, I/O and page-latch step keeps the invariant, whatever the interleaving. |
| BufferTheorems.SlotsAndLists | task-buffer-manager/src/buffer_manager.cc:112-193 | At most page_count frames own a slot, no two the same one, and each owner stands exactly once in exactly one of FIFO and LRU list. |
| BufferTheorems.Coherence | task-buffer-manager/src/buffer_manager.cc:107-212 | In every run fix_page hands out the contents that the last dirty exclusive unfix of the page left, or the original file's. |
| BufferTheorems.FixSeesLastUnfix | task-buffer-manager/src/buffer_manager.cc:151-153 | The same as a state property: what a user sees until it writes is what was last left. |
| BufferTheorems.LeftOverRuns | task-buffer-manager/src/buffer_manager.cc:198-212 | What is left in a page after a run is determined by the last dirty exclusive unlock in it. |
| BufferTheorems.NoLostUpdate | task-buffer-manager/src/buffer_manager.cc:318-355 | A page without a loaded frame has its true contents on disk: no eviction loses an update. |
| BufferTheorems.OneWriteInFlight | task-buffer-manager/src/buffer_manager.cc:331-338 | Each page has at most one write in flight. |
| BufferTheorems.TransfersApart | task-buffer-manager/src/buffer_manager.cc:268-341 | No two sessions transfer the same page at once: none is read while it is written, nor read or written twice. |
| BufferTheorems.ExclusiveUse | task-buffer-manager/src/buffer_manager.cc:38-57 | Two sessions use a page at once only if both have it shared. |
| BufferTheorems.UsedFramesStay | task-buffer-manager/src/buffer_manager.cc:297-311 | A frame with users keeps its place and its slot through any step of anybody. |
| BufferTheorems.FullMeansFull | task-buffer-manager/src/buffer_manager.cc:160-183 | buffer_full_error is thrown only in a state where all page_count slots are taken and no frame is both unused and LOADED. |
| BufferTheorems.EvictThrows | task-buffer-manager/src/buffer_manager.cc:320-325 | Eviction gives up if and only if no frame is both unused and LOADED. |
| BufferTheorems.VictimOrder | task-buffer-manager/src/buffer_manager.cc:297-311 | The victim is the first evictable page of the FIFO list, and of the LRU list only when the FIFO list has none. |
| BufferChanges.StepEffect | task-buffer-manager/src/buffer_manager.cc:107-355 | Of every section: which pages get, keep and lose a slot, and exactly how the two lists change. |
| BufferAges.ListsByAge | task-buffer-manager/src/buffer_manager.cc:137-188 | After any run the FIFO list has exactly the pages in a slot that were fixed once, in the order in which they were loaded, and the LRU list those fixed again, in the order of their last fixes. |
| BufferAges.GoesInOrder | task-buffer-manager/src/buffer_manager.cc:299-355 | A page goes only when all slots are taken, and only if it is the first of the FIFO list that can go, or the first of the LRU list when none of the FIFO list can. |
| BufferAges.OldestGoes | task-buffer-manager/src/buffer_manager.cc:299-355 | So in any run the page that goes is, among those that could, the one loaded first of those fixed once, or else the one whose last fix lies furthest back. |
| BufferAges.LoadsWhileRoom | task-buffer-manager/src/buffer_manager.cc:160-192 | While fewer than page_count frames have a slot, fixing a page that is not buffered gets it one; nothing is thrown and no page goes. |
| BufferAges.DirtiedByUnfix | task-buffer-manager/src/buffer_manager.cc:196-212 | A frame becomes dirty exactly by the unfix that says so. |
| BufferTheorems.NeverStuck | task-buffer-manager/src/buffer_manager.cc:112-355 | No assertion of the code fails: a session that does not wait for a page latch can always take its next step, and a step whose assertion about list positions or a victim's state failed would not be possible. |
| BufferTheorems.OnlyLatchesBlock | task-buffer-manager/src/buffer_manager.cc:126-152 | A waiting session goes on exactly when no session holds the page latch in a mode that keeps it out. |
| BufferTheorems.UnlocksAsLocked | task-buffer-manager/src/buffer_manager.cc:38-57 | unlock releases the latch in the mode the session took it, although it looks only at a flag. |
| BufferState.FindPageToEvict | task-buffer-manager/src/buffer_manager.cc:297-311 | The two loops return the victim that the specification names. |
| BufferSteps.WriteDiskInv | task-buffer-manager/src/buffer_manager.cc:283-291 | Writing a victim's copy while others run leaves the true contents of every page where they were. |
| BufferLoad.AfterWriteInv | task-buffer-manager/src/buffer_manager.cc:338-355 | The section after the write, in which the victim is taken out if nobody claimed it back and the search goes on otherwise, never gets stuck and keeps the invariant. |
| BufferLoad.AfterReadInv | task-buffer-manager/src/buffer_manager.cc:270-275 | The section after the read, which makes the frame LOADED and lets its waiters in, keeps the invariant: the frame has its page's true contents. |
| BufferLoad.EnterInv | task-buffer-manager/src/buffer_manager.cc:110-188 | The first section of fix_page never gets stuck and keeps the invariant, whether the page is found, found NEW, claimed back, loaded into a free slot, or an eviction begins. |
| BufferEvict.LookAgainDropInv | task-buffer-manager/src/buffer_manager.cc:129-137 | The section in which a waiter finds the frame still NEW, drops it, and erases it as its last user keeps the invariant. |
| ExternalSort.Sort | task-external-sort/src/external_sort.cc:225-488 | For every number of values and every memory size that is a multiple of 8 and holds all the input or at least three values, the output is the sorted permutation of the first num_values inputs. |
| ExternalSort.InMemorySort | task-external-sort/src/external_sort.cc:209-221 | The in-memory path. |
| ExternalSort.MakeRuns | task-external-sort/src/external_sort.cc:293-313 | Run creation leaves sorted runs and the input's multiset. |
| ExternalSort.FirstRuns | task-external-sort/src/external_sort.cc:274-284 | (NUM_RUNS-1)*RUN_SIZE + LAST_RUN_SIZE is the input size, and the last run is not empty and not longer than the others. |
| ExternalSort.NotFullWayMerge | task-external-sort/src/external_sort.cc:75-198 | Passes end with at most two runs, all sorted, with the multiset and the size of the file unchanged. |
| ExternalSort.Pass | task-external-sort/src/external_sort.cc:76-197 | One pass halves the number of runs and terminates although the odd case restarts its last iteration. |
| ExternalSort.Round | task-external-sort/src/external_sort.cc:77-190 | One iteration merges its pair, or in the odd case the last two runs, and keeps what is true in the middle of a pass. |
| ExternalSort.MergePair | task-external-sort/src/external_sort.cc:96-181 | A 2-way merge through the intermediate file sorts its part of the file and touches nothing else. |
| ExternalSort.TwoWayMerge | task-external-sort/src/external_sort.cc:118-163 | The compare-two-pointers merge empties both runs and yields the sorted permutation. |
| ExternalSort.KWayMerge | task-external-sort/src/external_sort.cc:426-486 | The priority-queue merge yields the sorted permutation of all runs. |
| ExternalSort.PopAndPush | task-external-sort/src/external_sort.cc:434-479 | One turn of the k-way loop puts one value out, keeps the output sorted and below all that is left, and leaves in the queue exactly the head of every run that is not used up. |
| ExternalSort.SortPhaseDone | task-external-sort/src/external_sort.cc:32-57 | Every slice that sort_phase_done looks at is sorted, although it counts the slices by rounding up and so cuts a longer last run again. |
| ExternalSort.KWaySizes | task-external-sort/src/external_sort.cc:354-368 | Input and output buffers are not empty, fit the memory, and are as large as that allows. |
| ExternalSort.PairMerged | task-external-sort/src/external_sort.cc:77-181 | Merging pair `it` keeps the runs merged before and the runs still to come sorted. |
| ExternalSort.OddMerged | task-external-sort/src/external_sort.cc:182-190 | Merging the last two of an odd number of runs keeps the pass on course with one run fewer and a longer last run. |
| ExternalSort.RunCount | task-external-sort/src/external_sort.cc:274-284 | The run count and sizes, computed in bytes as the code does, are those of a layout that covers the input. |
| MergeBuffers.Merger.Take | task-external-sort/src/external_sort.cc:434-479 | A turn of either merge puts a least current value out and reloads that run's buffer exactly at the next unread value. |
| MergeBuffers.Merger.Load | task-external-sort/src/external_sort.cc:145-161 | A reload asks for a full buffer or for what is left of the run, never for another run's values. |
| MergeBuffers.Merger.LoadFirst | task-external-sort/src/external_sort.cc:109-113 | The first load may ask for bytes past the run or the file; the run's own values are right all the same. |
| MergeBuffers.Merger.Output | task-external-sort/src/external_sort.cc:131-139 | The output buffer is flushed when it is full, at the offset that continues the file. |
| MergeBuffers.Merger.Finish | task-external-sort/src/external_sort.cc:165-171 | The last, partial flush writes exactly what the full ones have not. |
| MergeBuffers.BagOfRuns | task-external-sort/src/external_sort.cc:267-290 | The runs of a layout together are the values of the part of the file they cover. |
| SortSpec.TakeLeast | task-external-sort/src/external_sort.cc:120-133 | Taking a least head of sorted runs keeps the output sorted, below all that is left, and loses nothing. |
| SlottedPages.SlottedPage.Compactify | task-slotted-pages/src/slotted_page/slotted_page.cc:163-223 | Compaction moves every record without changing its bytes, keeps slot ids, redirects, flags and sizes, and leaves data_start equal to page_size minus the sum of the record sizes. |
| SlottedPages.SlottedPage.PackNext | task-slotted-pages/src/slotted_page/slotted_page.cc:205-221 | One record moved, with a memmove that may overlap its own source. |
| Compaction.Order | task-slotted-pages/src/slotted_page/slotted_page.cc:172-191 | The records are visited from the end of the page downwards, each once. |
| Compaction.PackStep | task-slotted-pages/src/slotted_page/slotted_page.cc:207-218 | A move disturbs neither the records moved before nor those still to be moved. |
| Compaction.PackedAll | task-slotted-pages/src/slotted_page/slotted_page.cc:186-223 | Once all records are moved the page is a layout again with the same entries. |
| SlottedPages.SlottedPage.Allocate | task-slotted-pages/src/slotted_page/slotted_page.cc:18-62 | A new or reused slot gets a zeroed record; every other entry, and the account of free space, stays right; the last empty slot after the reused one becomes the hint. |
| SlottedPages.SlottedPage.NextHint | task-slotted-pages/src/slotted_page/slotted_page.cc:39-48 | The scan without a break leaves the last empty slot behind the reused one, or the slot count. |
| SlottedPages.SlottedPage.Relocate | task-slotted-pages/src/slotted_page/slotted_page.cc:64-134 | A record is cut short, or keeps its old bytes followed by zeros, and loses its target flag when it grows; all other entries are unchanged. |
| SlottedPages.SlottedPage.Regrow | task-slotted-pages/src/slotted_page/slotted_page.cc:108-133 | The growing case alone, through buffer, temporary clearing and possible compaction. |
| SlottedPages.SlottedPage.Erase | task-slotted-pages/src/slotted_page/slotted_page.cc:136-161 | A record is given up, empty slots at the end go with the last slot, and free space grows by record and slots. |
| PageSteps.PutsEntries | task-slotted-pages/src/slotted_page/slotted_page.cc:55-60 | Storing below all records writes that record's bytes only. |
| PageSteps.GivenUp | task-slotted-pages/src/slotted_page/slotted_page.cc:142-153 | Giving a record up, with data_start moved past it when it was the lowest, leaves a layout. |
| PageRuns.Issues | task-slotted-pages/src/slotted_page/slotted_page.cc:18-161 | Over any run of calls the page in place does to its entries, hint and free space what the calls do on values, and stops at the first call whose assertions fail. |
| PageRuns.RecordStays | task-slotted-pages/src/slotted_page/slotted_page.cc:18-161 | No run that leaves a record alone changes its bytes, whatever it moves. |
| PageRuns.HintBeyondSlots | task-slotted-pages/src/slotted_page/slotted_page.cc:145-160 | After erase the hint exceeds the slot count if and only if the erased slot is the last, the new hint is not 0, and all slots from just before the new hint up to the erased one are empty; the next allocate then fails its assertion at line 33. |
| PageRuns.SkippedSlot | task-slotted-pages/src/slotted_page/slotted_page.cc:39-48 | A run from an empty page that reaches this: the scan passes over an empty slot, and later both slots behind it go. |
| SlotWords.SetSlotHolds | task-slotted-pages/include/slotted_page/slotted_page.h:132-138 | A slot word read back gives the fields it was set to, and is the empty word only for zero fields. |
| SlotWords.SlotBits | task-slotted-pages/include/slotted_page/slotted_page.h:132-138 | The size is in bits 0 to 23, the offset in bits 24 to 47, the target flag in bits 48 to 55, and the highest byte is 0xFF. |
| SlotWords.SetOffsetHolds | task-slotted-pages/include/slotted_page/slotted_page.h:126 | set_offset changes the offset field only. |
| SlotWords.SetSizeHolds | task-slotted-pages/include/slotted_page/slotted_page.h:129 | set_size changes the size field only. |
| SlotWords.MarkHolds | task-slotted-pages/include/slotted_page/slotted_page.h:147-152 | Marking a redirect target changes the target flag only. |
| SlotWords.UnmarkHolds | task-slotted-pages/include/slotted_page/slotted_page.h:147-152 | So does removing the mark. |
| SlotWords.ViewDetermines | task-slotted-pages/include/slotted_page/slotted_page.h:95-156 | The fields determine the word. |
| SlotWords.TidRoundTrip | task-slotted-pages/include/slotted_page/slotted_page.h:25-34 | Page and slot come back out of a TID, with the segment id the page id was made with. |
| SlotWords.TidBits | task-slotted-pages/include/slotted_page/slotted_page.h:25-34 | The slot is in the lowest 16 bits of a TID and the page above them. |
| SlotWords.TidIsRedirect | task-slotted-pages/include/slotted_page/slotted_page.h:103 | A TID in a slot reads as a redirect exactly when its page id does not begin with 0xFF. |
| FreeSpaceInventory.TableGrows | task-slotted-pages/src/slotted_page/fsi_segment.cc:12-33 | The sixteen levels do not decrease, from 0 to the free space of an empty page. |
| FreeSpaceInventory.TableScale | task-slotted-pages/src/slotted_page/fsi_segment.cc:12-33 | From half of the free space on the levels rise in steps of one size, an eighth of that half; below it each level is half of the next one, down to level 1. |
| FreeSpaceInventory.EncodeIsBest | task-slotted-pages/src/slotted_page/fsi_segment.cc:79-86 | decode(encode(f)) is at most f, and no level that is at most f is larger. |
| FreeSpaceInventory.PromiseFallsShort | task-slotted-pages/src/slotted_page/fsi_segment.cc:79-86 | A promise falls short of the free space by less than an eighth of half the page and 8 bytes if half of the page is free, and otherwise by at most half of the space, unless that is less than a 64th of half the page. |
| FreeSpaceInventory.FSISegment.EncodeFreeSpace | task-slotted-pages/src/slotted_page/fsi_segment.cc:79-84 | The loop finds that level. |
| FreeSpaceInventory.FsiRoundTrip | task-slotted-pages/src/slotted_page/fsi_segment.cc:46-77 | get_target_page inverts get_fsi_page and is inverted by it. |
| FreeSpaceInventory.SetLevel | task-slotted-pages/src/slotted_page/fsi_segment.cc:99-108 | Writing one nibble changes the entry of that page and no other. |
| FreeSpaceInventory.FSISegment.Update | task-slotted-pages/src/slotted_page/fsi_segment.cc:88-110 | update sets one entry to the level of the given free space. |
| FreeSpaceInventory.FSISegment.Find | task-slotted-pages/src/slotted_page/fsi_segment.cc:112-175 | find takes the first page that promises enough and lowers its promise; it fails only if none of the allocated pages does, and its end is not reached. |
| FreeSpaceInventory.FSISegment.AddSlottedPage | task-slotted-pages/src/slotted_page/sp_segment.cc:40-60 | Counting a page up and adding an inventory page in time keeps all slotted pages covered and all entries as they were. |
| SpSegment.SPSegment.Allocate | task-slotted-pages/src/slotted_page/sp_segment.cc:27-83 | Allocation keeps the inventory conservative and all records, adds one zeroed record under a fresh TID, and only ever fails on the hint assertion, exactly when the page picked has its hint beyond its slots; of the promises only that of the page used changes, by what was allocated. |
| SpSegment.SPSegment.AllocateOn | task-slotted-pages/src/slotted_page/sp_segment.cc:71-82 | On a page the inventory picked, the space assertions of the page hold. |
| SpSegment.SPSegment.AllocateNew | task-slotted-pages/src/slotted_page/sp_segment.cc:41-69 | A new page always has room for the record, and its entry is set to the best level for the space it has left. |
| SpSegment.SPSegment.Read | task-slotted-pages/src/slotted_page/sp_segment.cc:85-139 | read returns the first bytes of the record under the TID, directly or after exactly one hop, and the original TID stored at the target is the one asked for. |
| SpSegment.SPSegment.Write | task-slotted-pages/src/slotted_page/sp_segment.cc:141-163 | Writing a record stored directly changes its first bytes and no other record. |
| SpSegment.SPSegment.Erase | task-slotted-pages/src/slotted_page/sp_segment.cc:412-433 | Erasing a record stored directly removes it alone; the page is then promised the largest level not above its free space, and no other promise changes. |
| SpSegment.SPSegment.Resize | task-slotted-pages/src/slotted_page/sp_segment.cc:197-290 | A record stored directly keeps its bytes and ends in zeros under the same TID, whether it stays or moves; it moves exactly when it grows and the page's free space plus its size is not above the new size. A page whose record changes size is then promised the largest level not above its free space. |
| SpSegment.SPSegment.Redirected | task-slotted-pages/src/slotted_page/sp_segment.cc:252-288 | The record ends up on a different page behind its own TID and no other record changes. |
| SegmentRecords.DirectChange | task-slotted-pages/src/slotted_page/sp_segment.cc:197-290 | A change of a directly stored record disturbs no redirect. |
| SegmentRuns.Run | task-slotted-pages/src/slotted_page/sp_segment.cc:27-433 | In any run on a new segment the tuple ids handed out stand for exactly what the calls made of their records, differ while the records live, and there is no record besides; a run ends early only at a call its caller may not make, at a record behind a redirect, or where a page has its hint beyond its slots, which does not happen before something is erased. |
| SegmentRuns.Issue | task-slotted-pages/src/slotted_page/sp_segment.cc:27-433 | One call of a run changes its own record only, and is refused exactly in the cases named. |
| SegmentRuns.OthersLeaveNoTrace | task-slotted-pages/src/slotted_page/sp_segment.cc:27-433 | What a run makes of a record is what the calls on that record alone make of it. |
| SegmentRuns.ReadAfter | task-slotted-pages/src/slotted_page/sp_segment.cc:85-139 | Reading after any run gives the first bytes of that, whether the record was moved to another page or not; the run has gone as far as it may. |
| SegmentRecords.RedirectChange | task-slotted-pages/src/slotted_page/sp_segment.cc:252-288 | A redirect to a fresh slot is transparent: the record under the TID is what follows the stored TID. |
| SegmentRecords.TidBytesInjective | task-slotted-pages/src/slotted_page/sp_segment.cc:282 | The stored TID tells which record a target belongs to. |
| SegmentRecords.TidBytesAre | task-slotted-pages/src/slotted_page/sp_segment.cc:282 | The stored TID has the slot in its first two bytes and the page in the other six, lowest byte first. |
| WaitsFor.FindDuplicateExact | task-lock-manager/src/lock_manager.cc:41-66 | findDuplicate terminates and is true if and only if a cycle can be reached from the node. |
| WaitsFor.WaitsForExact | task-lock-manager/src/lock_manager.cc:68-90 | From an acyclic graph addWaitsFor throws if and only if its edges close a cycle; the graph without the transaction is acyclic. |
| WaitsFor.WaitersExact | task-lock-manager/src/lock_manager.cc:92-112 | From an acyclic graph addWaiters throws if and only if its edges close a cycle; removing the owner then makes the graph acyclic. |
| WaitsForGraphs.WaitsForGraph.Search | task-lock-manager/src/lock_manager.cc:41-60 | The recursive search with its copied visited set computes that. |
| WaitsForGraphs.WaitsForGraph.AddWaitsFor | task-lock-manager/src/lock_manager.cc:68-90 | The loops of addWaitsFor in place, with both outcomes. |
| WaitsForGraphs.WaitsForGraph.AddWaiters | task-lock-manager/src/lock_manager.cc:92-112 | The loops of addWaiters in place, with both outcomes. |
| WaitsForGraphs.WaitsForGraph.RemoveTransaction | task-lock-manager/src/lock_manager.cc:114-122 | All edges to and from the transaction go, and only those. |
| LockTheorems.StepInv | task-lock-manager/src/lock_manager.cc:19-35 | Every section of acquireLock and of the destructor keeps the invariant. |
| LockTheorems.WaitersSeeOwners | task-lock-manager/src/lock_manager.cc:182-213 | Every registered waiter has an edge to every registered owner whose destructor has not begun. |
| LockTheorems.ReleasedAsAcquired | task-lock-manager/src/lock_manager.cc:24-34 | Each destructor finds each mutex held by its transaction in the mode in which it unlocks it. |
| LockTheorems.EndedHoldsNothing | task-lock-manager/src/lock_manager.cc:19-35 | A transaction whose destructor is through owns nothing, waits for nothing and holds no mutex. |
| LockTheorems.OwnersAgree | task-lock-manager/src/lock_manager.cc:185-191 | Two owners of one lock both have it shared, and the lock's record says so. |
| LockTheorems.OnlyHoldersBlock | task-lock-manager/src/lock_manager.cc:198-202 | A waiting transaction gets the mutex exactly when nobody holds it in a mode that keeps it out. |
| LockTheorems.NoDeadlock | task-lock-manager/src/lock_manager.cc:68-122 | In runs in which addWaiters does not throw, among any set of waiting transactions there is one that none of the set blocks. |
| DeadlockErrors.DeadlockIsReported | task-lock-manager/src/lock_manager.cc:68-90 | Whenever waiting would complete a deadlock, addWaitsFor throws and the call is refused. |
| DeadlockErrors.RefusedOrWaits | task-lock-manager/src/lock_manager.cc:193-196 | A call that must wait is refused, with no lock and no other transaction changed, if addWaitsFor throws, and otherwise waits as a registered waiter. |
| DeadlockErrors.ErrorIffDeadlock | task-lock-manager/src/lock_manager.cc:68-90 | In every orderly run a wait for a mutex that is taken is refused if and only if it would complete a deadlock. |
| OrderlyRuns.OrderlyKeeps | task-lock-manager/src/lock_manager.cc:19-213 | Every orderly step of every transaction keeps that each edge stands for a wait, or leads to an owner that is ending and has no edges. |
| OrderlyRuns.OrderlyJustified | task-lock-manager/src/lock_manager.cc:19-213 | So it holds in every state that an orderly run reaches. |
| OrderlyRuns.OwnersNeverRefused | task-lock-manager/src/lock_manager.cc:105-111 | In orderly runs addWaiters never throws: no walk comes back to an owner that waits for nobody. |
| OrderlyRuns.WritersAreOrderly | task-lock-manager/src/lock_manager.cc:182-213 | Every run of exclusive requests whose tries fail only on a taken mutex is orderly. |
| OrderlyRuns.JustifiedIffInOrder | task-lock-manager/src/lock_manager.cc:92-112 | A new owner leaves every edge standing for a wait if and only if it is not a reader that enters past a queued reader. |
| SpuriousErrors.DisorderThrows | task-lock-manager/src/lock_manager.cc:182-213 | Wherever a reader does enter past a queued reader for the first time, the run can go on until addWaitsFor throws although waiting would complete no deadlock. |
| SpuriousErrors.ErrorWithoutWaits | task-lock-manager/src/lock_manager.cc:92-112 | A run of three transactions after which nobody waits, and yet addWaitsFor throws where no deadlock would come about: an edge between two readers that once queued up side by side is left. |
| TwoQReplacers.TwoQReplacer.Victim | task-slotted-pages/src/buffer/2Q_replacer.cc:9-43 | Victim removes the oldest unpinned cold frame, or the oldest unpinned hot one if no cold one is unpinned, judged by the calls alone; it fails only if nothing is unpinned, and assert(false) is not reached. |
| TwoQReplacers.TwoQReplacer.Pin | task-slotted-pages/src/buffer/2Q_replacer.cc:45-64 | Pinning keeps lists, ages and temperature and only takes the frame out of the count. |
| TwoQReplacers.TwoQReplacer.Unpin | task-slotted-pages/src/buffer/2Q_replacer.cc:66-100 | A new frame comes in cold, a known one becomes the youngest hot one; counters, table and list orders stay right. |
| TwoQReplacers.TableIsBothLists | task-slotted-pages/src/buffer/2Q_replacer.cc:12 | The hash table is as large as both lists together. |
| TwoQReplacers.LastIsOldest | task-slotted-pages/src/buffer/2Q_replacer.cc:29-40 | The unpinned entry nearest to the end of its list is the oldest in terms of the calls. |
| TwoQRuns.Issues | task-slotted-pages/src/buffer/2Q_replacer.cc:9-100 | In any run of Pin, Unpin and Victim calls the replacer stays valid, Victim answers what the calls so far determine, and the run ends at the first failing assertion. |
| TwoQRuns.PinnedStays | task-slotted-pages/src/buffer/2Q_replacer.cc:45-64 | In any run a pinned frame keeps its age and temperature and is no victim until it is unpinned. |
| TwoQRuns.DrainsInOrder | task-slotted-pages/src/buffer/2Q_replacer.cc:16-40 | Calls of Victim in a row take the cold frames by age and then the hot ones by age. |
| SortOperator.Sort.Next | task-operators/src/algebra.cc:249-283 | next emits the sorted rows one by one, sorting once. |
| SortOperator.PassLexicographic | task-operators/src/algebra.cc:266-275 | A stable pass by one more criterion turns lexicographic order by the later criteria into lexicographic order by all, ties in input order. |
| SortOperator.DrainSort | task-operators/src/algebra.cc:249-283 | Sort emits a permutation of its input in which, of any two rows, the first column of the criteria in which they differ decides: the smaller number or text comes first if ascending, the greater one if descending; rows that agree in all of them keep their order. |
| SortOperator.OrderOfValues | task-operators/src/algebra.cc:267-275 | The comparisons of the passes order two rows by their values in the first column in which they differ, in its direction. |
| Tuples.LessTotal | task-operators/src/algebra.cc:56-84 | Registers of one type are totally ordered. |
| Tuples.TextLess | task-operators/src/algebra.cc:56-64 | Of two texts the one with the smaller character at the first difference is less, or the one that is a proper prefix. |
| SetOperators.Union.Next | task-operators/src/algebra.cc:458-476 | Union emits each distinct tuple of both inputs once, when it is first seen. |
| SetOperators.UnionAll.Next | task-operators/src/algebra.cc:500-522 | UnionAll emits the left rows, then the right rows. |
| CountingOperators.Intersect.Probe | task-operators/src/algebra.cc:553-564 | The loop over the right input hands out one row after another; once it finds none, the rows handed out are the intersection. |
| CountingOperators.Intersect.Next | task-operators/src/algebra.cc:543-565 | Intersect and IntersectAll, by counters over the left input. |
| CountingOperators.Except.Next | task-operators/src/algebra.cc:631-662 | Except and ExceptAll, by counters over the left input. |
| CountingOperators.TakeStep | task-operators/src/algebra.cc:597-607 | Taking one off a positive counter is taking one off the remaining bag and putting one into the intersection. |
| DrainedOperators.DrainUnionAll | task-operators/src/algebra.cc:500-522 | UNION ALL yields the sum of the multiplicities. |
| DrainedOperators.DrainUnion | task-operators/src/algebra.cc:445-476 | UNION yields one copy of what is on either side. |
| DrainedOperators.DrainIntersect | task-operators/src/algebra.cc:543-609 | INTERSECT ALL yields the minimum, INTERSECT one copy of what is on both sides. |
| DrainedOperators.DrainExcept | task-operators/src/algebra.cc:631-715 | EXCEPT ALL yields the difference cut off at zero, EXCEPT one copy of what is only on the left. |
| Aggregation.FoldAggregates | task-operators/src/algebra.cc:383-404 | One fold step keeps minimum, maximum, sum and count true of the group so far. |
| Aggregation.HashAggregation.Next | task-operators/src/algebra.cc:357-424 | next builds the table once and then emits one entry after the other. |
| Aggregation.DrainAggregation | task-operators/src/algebra.cc:357-424 | HashAggregation emits one row per group: the values of the grouping attributes, no two rows with the same ones, and the aggregates over exactly the input rows that have these values; every input row is in a group and no group is empty. |

## Left out

- B+-tree concurrency and the balance of fix and unfix: the descent unfixes the parent it returns and insert then uses it (btree.h:510, 617-622); the lab's buffer manager does no locking.
- B+-tree template parameters: keys and values are integers with the usual order, and values are as wide as page ids, which the memmove of children at btree.h:163 relies on.
- Widths of page ids, levels and counts in the B+-tree: they do not wrap around.
- Buffer manager destructor: it flushes dirty pages when no session is left.
- Buffer manager library behaviour: iterators into the hash table staying valid over rehashing (buffer_manager.cc:113, 135), and file sizes that are no multiple of the page size.
- std::shared_mutex fairness: a free mutex may be granted to anybody; for the lock manager a try may also fail for no reason.
- Memory limit of the intermediate merge: the code itself says that the copy of a merged pair may exceed it (external_sort.cc:176).
- I/O counters, logging and the file layer: a file is a sequence with read, write and resize, and a read past the end delivers what there is.
- Redirected branches of SPSegment write and erase (sp_segment.cc:164-194, 434-470): they reload the target TID from the slot's offset, and erase calls the page's erase on a redirect slot, which its own assertion forbids.
- Resize of an already redirected record (sp_segment.cc:291-409), and with it the branch of relocate for a slot with size 0 and offset 1 (slotted_page.cc:75-95), which nothing else reaches.
- Reading, writing or erasing through the TID of a redirect target itself, which the segment never hands out.
- The slot array as bytes of the page: slots are a sequence of their own, and the layout keeps records clear of the bytes they occupy.
- Segment ids in page ids: pages are numbered within their segment; that the segment id comes off again is SlotWords.TidRoundTrip.
- addWaiters throwing inside acquireLock (lock_manager.cc:189, 212): the mutex is then held but never entered in the transaction's locks. Such a step is not enabled, so the lock manager's theorems speak of runs without it; in orderly runs it does not come up (OrderlyRuns.OwnersNeverRefused).
- The chains of the lock table and the expiry of lock objects: there is one lock per data item; an expired lock has no owner, waiter or holder.
- HashJoin, which emits one match per probe (algebra.cc:323-334), Projection, which ignores its indexes (algebra.cc:165-167), Select and Print.
- Aggregation.FoldAggregates: does not model 64-bit overflow of SUM and COUNT.
- open, close and reuse of an operator after close; the order in which a hash table is iterated, for which any order is taken.
- Schema segment, expression compiler and its JIT, hex dump, command-line tools.
