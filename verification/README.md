# Page tables, a MapReduce job and user-level threads: models and proofs

Three components of the repository are modelled, each with symbolic sizes.

**Hierarchical page tables** (`Ex4 - Hierarchial Page Tables`). A radix tree of page tables lives in
the same array of words as the pages it maps. `PhysicalMemory` and `VirtualMemory` are classes with
the code's own loops and recursion; each method is proved equal to a step function, and the theorems
are about those functions. A node of the tree is named by its depth and page-number prefix; `Walk`
gives the frame it occupies. The abstract state of the memory is `Contents`: for every page the words
of its mapped frame, or of its swap entry, or nothing. The invariant `Inv` says that the non-zero
entries reachable from frame 0 form a tree without sharing, that the frames in use are exactly 0..k,
that only pages of the virtual memory are mapped, and that no page is both mapped and swapped.
`FetchRule` and `SwapTraffic` say which frame a fault takes and what goes to the swap, from the tree
alone. The methods of `PhysicalMemory` have the source's assertions as preconditions, so that the
verified methods of `VirtualMemory` never trip one.

**MapReduce job** (`Ex3 - Multi-threaded Programming`). `JobSteps` is the step relation of T threads,
one atomic operation, lock section or stretch of thread-local code at a time, for any interleaving,
any client output and any key order that is a strict weak order. `JobInvariant` keeps one invariant
for each of three phases; `JobResults`, `JobTermination` and `JobReports` draw the conclusions over
all runs, and `JobOutcome` puts them together: every job ends, complete. The unsigned wrap-around of
both atomic words is kept, and `Bits` ties the word's fields to the shifts and masks of the code.
`ShuffleLoops` and `Barrier` are the code's loops and fields, `ShuffleOrder` is the order of the pairs
that the loops produce, and `BarrierRounds` is the barrier used for any number of rounds.

**User-level threads** (`Ex2 - User Level Threads`). `Scheduler` gives every library call and timer
tick as a function on the thread table, ready queue, heap of free ids and quantum counters;
`SchedulerInvariant` proves what they all keep, `SchedulerRuns`, `SchedulerGuarantees` and
`SchedulerOrder` what holds over any sequence of calls and ticks; `UserThreads` is the same as objects
and pointers changed in place, each method proved equal to its function and to leave no dangling
pointer.

Two places where names or comments and code disagree; the model follows the code:

- The eviction key is called a cyclic distance. It is computed on unsigned numbers, so the
  negation `-dist` has no effect, and for a page above the requested one the key is NUM_PAGES plus the difference.
  `EvictionRule` states what is evicted instead and exactly when that is a farthest page;
  `EvictionExample` is a run from initialisation in which it is not.
- In the reduce phase the 32-bit counter of groups is decremented past zero and wraps. Nothing goes
  wrong: the invariant and `TokensEndWrapped` account for every decrement.

## Model

| member | source | states |
|---|---|---|
| FlatMemory.RunRefinesFlatMemory | Ex4 - Hierarchial Page Tables/VirtualMemory.cpp:85-148 | for every sequence of VMread and VMwrite calls, in range or not, there is a flat memory agreeing with all pages touched so far on which the calls return the same results, whatever is relinked, reclaimed or evicted; the invariant holds after the run |
| FlatMemory.CallRefines | Ex4 - Hierarchial Page Tables/VirtualMemory.cpp:124-148 | one call of the paged memory is one call of the flat memory, result and agreement included |
| FlatMemory.ReadsLastWrite | Ex4 - Hierarchial Page Tables/VirtualMemory.cpp:124-148 | a read returns the value of the last write to its address, over all runs |
| FlatMemory.ReadsAreStable | Ex4 - Hierarchial Page Tables/VirtualMemory.cpp:124-132 | two reads of an address with no write to it in between return the same, whatever came before, and even if its first contents were arbitrary |
| FlatMemory.CallKeepsInv | Ex4 - Hierarchial Page Tables/VirtualMemory.cpp:124-148 | every call keeps the tree, range and swap invariant |
| FlatMemory.CallKeepsOthers | Ex4 - Hierarchial Page Tables/VirtualMemory.cpp:124-148 | a whole call changes the contents of no page but the addressed one, mapped or swapped; a read of a page with contents changes none at all; a write changes exactly one word of it |
| FlatMemory.TranslateFromRoot | Ex4 - Hierarchial Page Tables/VirtualMemory.cpp:85-107 | a translation maps the requested page to a frame other than 0, keeps the invariant, and loses the contents of no page |
| FlatMemory.StoreInPage | Ex4 - Hierarchial Page Tables/VirtualMemory.cpp:144-146 | storing into a mapped page changes one word of that page, no other page and no table |
| FlatMemory.InitialInv | Ex4 - Hierarchial Page Tables/VirtualMemory.cpp:113-115 | whatever RAM held and whatever pages are swapped out, clearing frame 0 leaves a valid tree with the root as its only table |
| AddressTranslation.TranslateKeeps | Ex4 - Hierarchial Page Tables/VirtualMemory.cpp:88-106 | from any level on, the walk ends at the requested page's frame with the invariant and all contents kept |
| AddressTranslation.StepKeeps | Ex4 - Hierarchial Page Tables/VirtualMemory.cpp:88-105 | the tree invariant holds at every iteration boundary of the walk, and each iteration keeps all contents |
| AddressTranslation.ServeFault | Ex4 - Hierarchial Page Tables/VirtualMemory.cpp:94-103 | a page fault is served: the frame taken is not in use when linked, the used frames stay an initial segment, no contents are lost |
| AddressTranslation.TakeOut | Ex4 - Hierarchial Page Tables/VirtualMemory.cpp:71-79 | unlinking an empty table, or unlinking and swapping out a page, changes no page's contents |
| AddressTranslation.Hang | Ex4 - Hierarchial Page Tables/VirtualMemory.cpp:97-102 | linking a free frame under the current table and clearing or restoring it keeps all contents and adds exactly that frame to those in use |
| AddressTranslation.StepReads | Ex4 - Hierarchial Page Tables/VirtualMemory.cpp:90-94 | the entry read is zero exactly if the next node is not in the tree; its address is in range |
| FrameAllocation.FetchOutcome | Ex4 - Hierarchial Page Tables/VirtualMemory.cpp:67-80 | the frame yielded is unused, or that of a node off the path being walked: an empty table, or a mapped page other than the requested one, which has just been unlinked (and swapped out); FetchIs says which |
| FetchRule.FetchIs | Ex4 - Hierarchial Page Tables/VirtualMemory.cpp:67-80 | which outcome occurs, from the tree alone: if a table other than the current one has no entries, the rightmost such table is unlinked; else if a frame is free, the lowest is used and nothing changes; only else is a page unlinked and swapped out, the one VictimRule describes; swap is untouched in the first two cases |
| FetchRule.ReclaimableFound | Ex4 - Hierarchial Page Tables/VirtualMemory.cpp:34-47 | the search returns a table exactly if one off the current one is empty, and then the rightmost in the tree |
| FetchRule.FaultWrites | Ex4 - Hierarchial Page Tables/VirtualMemory.cpp:94-103 | word by word what a fault leaves in RAM: the entry that led nowhere holds the new frame, that frame is zero as a table, holds the swapped page as a page, and is left as it is for a page never swapped out; all else is as fetchNewFrame left it |
| SwapTraffic.CallSwaps | Ex4 - Hierarchial Page Tables/VirtualMemory.cpp:67-148 | the pages that a call adds to the swap are exactly those it unmaps, as many as there are iterations that find RAM full and no table to reclaim; the addressed page leaves the swap and is mapped; a call out of range changes nothing |
| SwapTraffic.TranslateSwaps | Ex4 - Hierarchial Page Tables/VirtualMemory.cpp:85-107 | the same for a translation from any level on |
| SwapTraffic.FaultExchanges | Ex4 - Hierarchial Page Tables/VirtualMemory.cpp:94-103 | one fault swaps out one page, the one VictimRule describes, if RAM is full and no table can be reclaimed, and none otherwise; only the last level brings the requested page in |
| SwapTraffic.HitMovesNothing | Ex4 - Hierarchial Page Tables/VirtualMemory.cpp:85-148 | a read of a mapped page changes nothing, a write of it one word of RAM |
| SwapTraffic.RoomForAll | Ex4 - Hierarchial Page Tables/VirtualMemory.cpp:73-75 | with a free frame for every level left nothing is swapped out, and no more than these frames are used |
| SwapTraffic.WorkingSetFits | Ex4 - Hierarchial Page Tables/VirtualMemory.cpp:67-148 | a run of calls whose unmapped pages, TABLES_DEPTH frames for each, fit into the free frames swaps nothing out and unmaps nothing |
| FrameAllocation.VictimExists | Ex4 - Hierarchial Page Tables/VirtualMemory.cpp:75-79 | with all frames in use and no table to reclaim, some page other than the requested one is mapped and found |
| FrameAllocation.CounterIsTop | Ex4 - Hierarchial Page Tables/VirtualMemory.cpp:48-58 | the counter of the search is the highest frame in use, so the next one really is unused |
| FrameAllocation.EmptyTableFound | Ex4 - Hierarchial Page Tables/VirtualMemory.cpp:34-47 | the search finds an empty table off the current one exactly if there is one, and then the last in depth-first order |
| FrameAllocation.VictimFound | Ex4 - Hierarchial Page Tables/VirtualMemory.cpp:22-32 | the search finds a page other than the requested one exactly if one is mapped |
| FrameAllocation.KeyIsZeroOnlyAtP | Ex4 - Hierarchial Page Tables/VirtualMemory.cpp:23-26 | the 64-bit key: zero only for the requested page, NUM_PAGES + (q - p) above it, the cyclic distance below it |
| FrameAllocation.NodeOffPath | Ex4 - Hierarchial Page Tables/VirtualMemory.cpp:73-79 | a path of at most TABLES_DEPTH nodes cannot occupy all of NUM_FRAMES frames |
| FrameAllocation.LeafBelow | Ex4 - Hierarchial Page Tables/VirtualMemory.cpp:34-47 | without empty tables off the path, a mapped page lies below every node off the path |
| EvictionRule.VictimRule | Ex4 - Hierarchial Page Tables/VirtualMemory.cpp:22-32 | the victim is the highest mapped page above the requested one if any, else the lowest-numbered of the cyclically farthest pages; never the requested page |
| EvictionRule.VictimIsFarthestIff | Ex4 - Hierarchial Page Tables/VirtualMemory.cpp:22-32 | the victim has maximal cyclic distance exactly if no page above the requested one is mapped or the highest mapped page happens to be farthest |
| EvictionRule.KeyIsDistanceIff | Ex4 - Hierarchial Page Tables/VirtualMemory.cpp:23-26 | the key is the cyclic distance exactly for pages up to the requested one |
| EvictionRule.FaultEvictsHighest | Ex4 - Hierarchial Page Tables/VirtualMemory.cpp:75-79 | with all frames in use, no table to reclaim and a page above the requested one mapped, exactly the highest mapped page is unlinked and swapped out |
| EvictionExample.DistanceIsNotMaximised | Ex4 - Hierarchial Page Tables/VirtualMemory.cpp:22-79 | from any initial RAM, after VMinitialize and reads of pages 8 and 15 all three frames are in use and page 0 faults; its read swaps out page 15, at distance 1, and no other, though page 8, at distance 8, is mapped |
| TableSearch.ListsEveryNode | Ex4 - Hierarchial Page Tables/VirtualMemory.cpp:48-58 | the depth-first search visits every node of the tree |
| TableSearch.PreorderSound | Ex4 - Hierarchial Page Tables/VirtualMemory.cpp:48-58 | it visits only nodes of the tree, with the page number, frame and entry address they really have |
| TableSearch.PreorderOrdered | Ex4 - Hierarchial Page Tables/VirtualMemory.cpp:48-58 | it visits a node before those below it and those to the right of it; hence no node twice, and pages in increasing order |
| TableSearch.NodesCountFrames | Ex4 - Hierarchial Page Tables/VirtualMemory.cpp:54-54 | the nodes visited are as many as the frames in use |
| TableSearch.FindsLastEmptyTable | Ex4 - Hierarchial Page Tables/VirtualMemory.cpp:34-47 | of several empty tables the last one visited is remembered, with the address of its entry |
| TableSearch.FindsFirstBest | Ex4 - Hierarchial Page Tables/VirtualMemory.cpp:22-32 | of the pages with the largest key the first one visited is remembered, with frame and entry address |
| PageTree.Repoint | Ex4 - Hierarchial Page Tables/VirtualMemory.cpp:97-97 | rewriting the entry of a childless node changes the walk to that node and to no other |
| PageTree.PrefixRoot | Ex4 - Hierarchial Page Tables/VirtualMemory.cpp:89-91 | the top index covers every page number, also when fewer than OFFSET_WIDTH bits are left for it |
| Relinking.Unlink | Ex4 - Hierarchial Page Tables/VirtualMemory.cpp:72-76 | zeroing the entry of a childless node leaves a tree that uses exactly one frame less |
| Relinking.Link | Ex4 - Hierarchial Page Tables/VirtualMemory.cpp:97-102 | writing a free frame's number into a zero entry leaves a tree that uses exactly that frame more |
| MemoryConstants.SizesAreValid | Ex4 - Hierarchial Page Tables/MemoryConstants.h:11-33 | the constants give whole frames and pages, and page numbers that TABLES_DEPTH levels can index |
| MemoryConstants.DepthIsCeiling | Ex4 - Hierarchial Page Tables/MemoryConstants.h:32-33 | TABLES_DEPTH is the least number of OFFSET_WIDTH-bit levels that covers the page number |
| VirtualMemory.PageNumberRoundTrip | Ex4 - Hierarchial Page Tables/VirtualMemory.cpp:53-57 | the page number the search accumulates for a leaf is the one, and the only one, whose shifted and masked indices lead to that leaf |
| VirtualMemory.FollowIsWalk | Ex4 - Hierarchial Page Tables/VirtualMemory.cpp:89-92 | following shift-and-mask indices from frame 0 is walking the tree by page-number prefixes |
| VirtualMemory.IndexIsSlot | Ex4 - Hierarchial Page Tables/VirtualMemory.cpp:89-90 | the index cut out of the address at each depth is the entry on the way to its page |
| VirtualMemory.ShiftIsIndex | Ex4 - Hierarchial Page Tables/VirtualMemory.cpp:89-90 | the right shift and the mask of the code, bit by bit, cut out the index that IndexIsSlot is about |
| VirtualMemory.SplitAddress | Ex4 - Hierarchial Page Tables/VirtualMemory.cpp:101-145 | shifting out OFFSET_WIDTH bits gives the page number, OFFSET_MASK the word within the page |
| Bits.ShiftRightDivides | Ex4 - Hierarchial Page Tables/VirtualMemory.cpp:90-90 | shifting right by k bits is dividing by 2^k |
| Bits.AndMaskIsRemainder | Ex4 - Hierarchial Page Tables/VirtualMemory.cpp:90-90 | masking the low k bits is the remainder by 2^k |
| Bits.OrAdds | Ex3 - Multi-threaded Programming/MapReduceFramework.cpp:119-119 | or-ing fields that do not overlap is adding them |
| VirtualMemory.SizesAreWidths | Ex4 - Hierarchial Page Tables/MemoryConstants.h:11-27 | an address is below VIRTUAL_MEMORY_SIZE, RAM_SIZE or PAGE_SIZE exactly if no bit from the corresponding width upwards is set |
| VirtualMemory.VictimCanGo | Ex4 - Hierarchial Page Tables/PhysicalMemory.cpp:45-47 | whenever a page is to be evicted its frame and number are in range and it is not in swap, so no assertion fails |
| VirtualMemory.VirtualMemory.VMread | Ex4 - Hierarchial Page Tables/VirtualMemory.cpp:124-132 | return code 1 exactly if no bit from VIRTUAL_ADDRESS_WIDTH upwards is set, else 0 and no effect; the memory and value of the step function of the refinement; invariant kept |
| VirtualMemory.VirtualMemory.VMwrite | Ex4 - Hierarchial Page Tables/VirtualMemory.cpp:140-148 | the same for a write |
| VirtualMemory.VirtualMemory.VMinitialize | Ex4 - Hierarchial Page Tables/VirtualMemory.cpp:113-115 | establishes the invariant from any RAM and any swapped pages: no page is mapped, the swapped ones keep their contents; called again, it forgets exactly the mapped pages |
| VirtualMemory.VirtualMemory.GetFrame | Ex4 - Hierarchial Page Tables/VirtualMemory.cpp:85-107 | the loop computes the translation that TranslateFromRoot is about, from a valid memory to a valid memory |
| VirtualMemory.VirtualMemory.NextFrame | Ex4 - Hierarchial Page Tables/VirtualMemory.cpp:89-104 | the body of the walk's loop is one step of the translation, which keeps the invariant and all contents |
| VirtualMemory.VirtualMemory.HandleFault | Ex4 - Hierarchial Page Tables/VirtualMemory.cpp:94-103 | the fault branch yields a positive frame and the memory of one step, tripping no assertion |
| VirtualMemory.VirtualMemory.LinkNewFrame | Ex4 - Hierarchial Page Tables/VirtualMemory.cpp:97-102 | links the frame and clears it, or restores the page into it |
| VirtualMemory.VirtualMemory.FetchNewFrame | Ex4 - Hierarchial Page Tables/VirtualMemory.cpp:67-80 | yields the frame and memory that FetchIs and FetchOutcome characterise, tripping no assertion; swaps out a page, the one VictimRule describes, exactly if no frame is free and no table is empty, and otherwise leaves the swap as it is |
| VirtualMemory.VirtualMemory.TraverseTables | Ex4 - Hierarchial Page Tables/VirtualMemory.cpp:19-61 | the recursion leaves in data, newFrame and maxFrameIndex what visiting the subtree's nodes one after the other leaves; RAM and swap unchanged |
| VirtualMemory.VirtualMemory.TraverseEntries | Ex4 - Hierarchial Page Tables/VirtualMemory.cpp:48-59 | its loop over the entries visits the subtrees in entry order |
| VirtualMemory.VirtualMemory.ConsiderPage | Ex4 - Hierarchial Page Tables/VirtualMemory.cpp:22-32 | the leaf case updates data as one visit does |
| VirtualMemory.VirtualMemory.IsAllZero | Ex4 - Hierarchial Page Tables/VirtualMemory.cpp:36-46 | true exactly if every entry of the table is zero |
| VirtualMemory.VirtualMemory.ClearFrame | Ex4 - Hierarchial Page Tables/VirtualMemory.cpp:10-14 | exactly that frame becomes all zeros |
| PhysicalMemory.PhysicalMemory.PMread | Ex4 - Hierarchial Page Tables/PhysicalMemory.cpp:16-26 | the word at the address; RAM allocated on first use, otherwise nothing changes |
| PhysicalMemory.PhysicalMemory.PMwrite | Ex4 - Hierarchial Page Tables/PhysicalMemory.cpp:28-38 | exactly the word at the address changes |
| PhysicalMemory.PhysicalMemory.PMevict | Ex4 - Hierarchial Page Tables/PhysicalMemory.cpp:40-50 | the frame is copied to a swap entry that did not exist |
| PhysicalMemory.PhysicalMemory.PMrestore | Ex4 - Hierarchial Page Tables/PhysicalMemory.cpp:52-68 | a swapped page moves to the frame and leaves swap; a page not in swap leaves the frame as it is |
| JobResults.JobIsComplete | Ex3 - Multi-threaded Programming/MapReduceFramework.cpp:263-285 | when all threads have returned, under any interleaving: every input mapped once, the groups hold every emitted pair once and split them by key, every group reduced once and accounted for once, none left, progress word at REDUCE with all pairs processed |
| JobOutcome.EveryJobCompletes | Ex3 - Multi-threaded Programming/MapReduceFramework.cpp:263-285 | however the threads are scheduled, a job that steps whenever a thread can step reaches, after finitely many steps, a state in which all threads have returned and all that JobIsComplete says holds |
| JobResults.MappedAtMostOnce | Ex3 - Multi-threaded Programming/MapReduceFramework.cpp:137-152 | at any time of any run each claimed input is mapped, or being mapped, exactly once, and no other input at all |
| JobResults.ReducedAtMostOnce | Ex3 - Multi-threaded Programming/MapReduceFramework.cpp:236-253 | at any time of any run each popped group is reduced, or being reduced, exactly once, accounted for once after that, and no other group at all |
| JobResults.NothingLeftOver | Ex3 - Multi-threaded Programming/MapReduceFramework.cpp:236-245 | no group is left when all threads have returned, although late threads may take another's group |
| JobResults.TokensEndWrapped | Ex3 - Multi-threaded Programming/MapReduceFramework.cpp:236-236 | the 32-bit token counter ends at 2^32 minus the number of threads |
| JobResults.ReduceAfterShuffle | Ex3 - Multi-threaded Programming/MapReduceFramework.cpp:269-283 | nobody reduces before the shuffle is complete and REDUCE is stored |
| JobResults.ShuffleIsAlone | Ex3 - Multi-threaded Programming/MapReduceFramework.cpp:265-281 | while thread 0 shuffles, all inputs are mapped, all vectors sorted, the overshoot undone, all other threads held at the barrier or semaphore |
| JobResults.SomeThreadCanStep | Ex3 - Multi-threaded Programming/MapReduceFramework.cpp:263-285 | no deadlock: in every reachable state some thread can step until all have returned |
| JobTermination.NoInfiniteRun | Ex3 - Multi-threaded Programming/MapReduceFramework.cpp:127-255 | no run is infinite, so every loop of every thread terminates |
| JobTermination.StepShrinks | Ex3 - Multi-threaded Programming/MapReduceFramework.cpp:127-255 | every step from a state satisfying the invariant makes a pair of natural numbers lexicographically smaller |
| JobReports.ReportsNeverGoBack | Ex3 - Multi-threaded Programming/MapReduceFramework.cpp:348-358 | successive reports never decrease, by stage and then by percentage, and never exceed 100 |
| JobReports.FinishedReport | Ex3 - Multi-threaded Programming/MapReduceFramework.cpp:348-358 | a finished job reports REDUCE, at 100 if there were pairs and at 0 if there were none |
| JobReports.ReportMono | Ex3 - Multi-threaded Programming/MapReduceFramework.cpp:353-357 | more processed pairs give no smaller report, and undoing an overshoot is not visible |
| JobReports.ReportIs | Ex3 - Multi-threaded Programming/MapReduceFramework.cpp:348-358 | a word reads as its stage and a percentage with percentage * total == 100 * min(processed, total), 0 for a total of 0 |
| JobReports.ReportIsExact | Ex3 - Multi-threaded Programming/MapReduceFramework.cpp:127-358 | at any moment of any run the report is exact: in MAP percentage * inputs is 100 * claimed inputs, in SHUFFLE percentage * emitted pairs is 100 * pairs in groups, in REDUCE 100 * pairs of the groups accounted for; and the stage is the one the threads are in |
| JobInvariant.RunInv | Ex3 - Multi-threaded Programming/MapReduceFramework.cpp:263-285 | the phase invariant holds in every reachable state |
| JobInvariant.ActKeeps | Ex3 - Multi-threaded Programming/MapReduceFramework.cpp:127-285 | every step of every thread keeps it |
| JobInvariant.StoreStageKeeps | Ex3 - Multi-threaded Programming/MapReduceFramework.cpp:128-136 | storing the stage erases no claim |
| JobInvariant.ClaimWord | Ex3 - Multi-threaded Programming/MapReduceFramework.cpp:137-141 | a claim hands out the next input, or overshoots once all are claimed, without a carry into other fields |
| JobInvariant.UndoKeeps | Ex3 - Multi-threaded Programming/MapReduceFramework.cpp:139-151 | undoing an overshoot keeps the low field at claims plus overshoots still to undo |
| JobInvariant.LastArrival | Ex3 - Multi-threaded Programming/MapReduceFramework.cpp:265-267 | when the last thread arrives at the barrier everything is mapped and sorted and the low field is exactly the number of inputs |
| JobInvariant.TakePairKeeps | Ex3 - Multi-threaded Programming/MapReduceFramework.cpp:213-220 | moving a pair into the group counts it in the low field only |
| JobInvariant.EndShuffleKeeps | Ex3 - Multi-threaded Programming/MapReduceFramework.cpp:272-278 | complete groups, as many tokens as groups, and one post for each waiting thread are handed over |
| JobInvariant.FetchTokenKeeps | Ex3 - Multi-threaded Programming/MapReduceFramework.cpp:236-236 | a decrement, wrapping or not, leaves every remaining group covered by a token or its holder |
| JobInvariant.FewDecrements | Ex3 - Multi-threaded Programming/MapReduceFramework.cpp:236-236 | the counter wraps at most once; it is zero exactly when the tokens are used up |
| JobInvariant.PopGroupKeeps | Ex3 - Multi-threaded Programming/MapReduceFramework.cpp:237-251 | popping moves a group from the deque to one thread, or ends a loop when there is none |
| JobInvariant.AccountKeeps | Ex3 - Multi-threaded Programming/MapReduceFramework.cpp:253-253 | the low field is the total minus the pairs in groups not yet accounted for, and a group is accounted for once |
| JobWord.PackUnpack | Ex3 - Multi-threaded Programming/MapReduceFramework.cpp:92-120 | the getters return the three fields of a packed word |
| JobWord.UnpackPack | Ex3 - Multi-threaded Programming/MapReduceFramework.cpp:92-120 | packing the three fields of any 64-bit word gives the word |
| JobWord.AddProcessed | Ex3 - Multi-threaded Programming/MapReduceFramework.cpp:137-140 | fetch_add on the word adds to the low field only, while the sum fits |
| JobWord.FetchAddWraps | Ex3 - Multi-threaded Programming/MapReduceFramework.cpp:236-253 | fetch_add on either word, negative amounts included, is addition modulo 2^64 or 2^32 |
| JobWord.GettersShiftAndMask | Ex3 - Multi-threaded Programming/MapReduceFramework.cpp:92-112 | the getters are the shifts and masks of the code, bit by bit |
| JobWord.SetterShiftsAndOrs | Ex3 - Multi-threaded Programming/MapReduceFramework.cpp:118-120 | the stored word is the or of the two shifted fields, and no bit is shifted out |
| JobWord.ShiftsAndMasks | Ex3 - Multi-threaded Programming/MapReduceFramework.cpp:94-119 | the same round trip with the shifts, masks and the bitwise or on 64-bit vectors |
| Shuffle.ShuffleGroupsByKey | Ex3 - Multi-threaded Programming/MapReduceFramework.cpp:206-228 | from sorted vectors: a permutation of all pairs, split into non-empty groups of equivalent keys that strictly decrease from group to group |
| Shuffle.SameGroupIff | Ex3 - Multi-threaded Programming/MapReduceFramework.cpp:202-205 | two pairs of the output are in the same group exactly if their keys are equivalent |
| ShuffleOrder.GroupsAreInOrder | Ex3 - Multi-threaded Programming/MapReduceFramework.cpp:206-228 | every group is the sequence of all pairs with its key: thread after thread, those of a thread from the end of its sorted vector to the front |
| ShuffleOrder.CollectIs | Ex3 - Multi-threaded Programming/MapReduceFramework.cpp:211-221 | one pass from a vector on takes exactly the pairs of the maximal key, in this order, and leaves the rest of each vector |
| Shuffle.NextGroupShrinks | Ex3 - Multi-threaded Programming/MapReduceFramework.cpp:209-227 | every turn of the outer loop takes a pair, so it terminates and no group is empty |
| Shuffle.MaxKeyBounds | Ex3 - Multi-threaded Programming/MapReduceFramework.cpp:184-200 | getMaxKey returns the key of a remaining pair that no remaining key exceeds |
| Shuffle.MaxKeyOfIsMax | Ex3 - Multi-threaded Programming/MapReduceFramework.cpp:188-198 | none exactly if all vectors are empty; otherwise a largest last key |
| Shuffle.RestIsSmaller | Ex3 - Multi-threaded Programming/MapReduceFramework.cpp:211-221 | once a group is collected, every key left in the vectors is smaller |
| ShuffleLoops.JobContext.ShufflePhase | Ex3 - Multi-threaded Programming/MapReduceFramework.cpp:206-228 | the nested loops leave the groups that ShuffleGroupsByKey is about; the progress word has counted every pair and atomicShuffle every group |
| ShuffleLoops.JobContext.CollectGroup | Ex3 - Multi-threaded Programming/MapReduceFramework.cpp:211-221 | one pass over the vectors collects a group and counts its pairs |
| ShuffleLoops.JobContext.DrainVector | Ex3 - Multi-threaded Programming/MapReduceFramework.cpp:213-220 | pops from one vector exactly the run of keys equivalent to the maximum |
| ShuffleLoops.JobContext.GetMaxKey | Ex3 - Multi-threaded Programming/MapReduceFramework.cpp:184-200 | the loop computes the key that MaxKeyBounds is about |
| ShuffleLoops.JobContext.GetTotalShufflePairs | Ex3 - Multi-threaded Programming/MapReduceFramework.cpp:173-179 | the number of pairs in all vectors |
| BarrierRounds.NobodyPassesEarly | Ex3 - Multi-threaded Programming/Barrier.cpp:24-45 | in every run of any number of rounds no thread has passed more rounds than any other has arrived at |
| BarrierRounds.ReleaseIsNotLost | Ex3 - Multi-threaded Programming/Barrier.cpp:29-40 | a released thread stays released until it leaves, and nobody completes the next round before |
| BarrierRounds.SomebodyCanMove | Ex3 - Multi-threaded Programming/Barrier.cpp:24-45 | the barrier never blocks all threads |
| BarrierModel.Barrier.Arrive | Ex3 - Multi-threaded Programming/Barrier.cpp:29-40 | the counter and the sets of waiting and released threads after an arrival; the caller waits exactly if it is not the last |
| BarrierModel.Barrier.Wake | Ex3 - Multi-threaded Programming/Barrier.cpp:30-44 | a released thread leaves and changes nothing else |
| SchedulerGuarantees.EverybodyIsSomewhere | Ex2 - User Level Threads/uthreads.cpp:265-476 | after any calls and ticks each live thread is in exactly one of running, queued once as READY, asleep, blocked, blocked and asleep; main is running or queued |
| SchedulerGuarantees.SpawnGivesLeastId | Ex2 - User Level Threads/uthreads.cpp:113-121 | spawn fails exactly for a null entry point or with all ids live, with -1 and no effect, and otherwise returns the least id not in use, queued last with no quantum yet; the count is the number of live threads |
| SchedulerGuarantees.BlockTakesOut | Ex2 - User Level Threads/uthreads.cpp:354-402 | blocking returns 0 exactly for live threads other than main, else -1 without effect; it takes the thread off processor and queue, and lets a sleeper's time run on; unless a thread blocks itself, only its table entry changes and the queue loses just that thread, the others in their order; blocking a blocked thread has no effect |
| SchedulerGuarantees.ResumeUnblocks | Ex2 - User Level Threads/uthreads.cpp:413-438 | resume undoes a block: an awake thread queues last, a sleeper sleeps on; other threads, the running one and all counters stay as they were; no effect on a thread that is not blocked; error exactly for ids not live |
| SchedulerGuarantees.TerminateRemoves | Ex2 - User Level Threads/uthreads.cpp:303-342 | terminating a live thread always removes it and frees its id, wherever it is, and unless it is the running one leaves every other thread as it was and in its order in the queue; terminating main deletes all threads and ends the process; otherwise -1 without effect |
| SchedulerGuarantees.SleepReturns | Ex2 - User Level Threads/uthreads.cpp:455-476 | sleep returns 0 exactly for a positive duration in a thread other than main, else -1 without effect |
| SchedulerGuarantees.ErasedIs | Ex2 - User Level Threads/uthreads.cpp:331-334 | find and erase remove that thread from the queue and keep the others in order |
| SchedulerGuarantees.CountersSinceInit | Ex2 - User Level Threads/uthreads.cpp:219-251 | after any calls and ticks the total is 1 plus the quantum starts, and main's quantums are 1 plus the starts that chose main |
| SchedulerGuarantees.QuantumsSinceSpawn | Ex2 - User Level Threads/uthreads.cpp:265-281 | the quantums of any other thread are exactly the starts that chose it since it was spawned |
| SchedulerGuarantees.QuantumsOrError | Ex2 - User Level Threads/uthreads.cpp:513-522 | get_quantums is -1 exactly for ids not live, and never negative otherwise |
| SchedulerOrder.NobodyOvertakes | Ex2 - User Level Threads/uthreads.cpp:147-438 | while a queued thread waits, whatever is called, no thread behind it or not yet queued gets a quantum or gets in front of it |
| SchedulerOrder.OrderIsKept | Ex2 - User Level Threads/uthreads.cpp:265-476 | a call that starts no quantum keeps the order of any two queued threads that it leaves in the queue |
| SchedulerGuarantees.QuantumsAreConserved | Ex2 - User Level Threads/uthreads.cpp:147-203 | over every run the total is the quantums of the live threads plus those of the terminated ones |
| SchedulerGuarantees.QuantumsAreRuns | Ex2 - User Level Threads/uthreads.cpp:513-522 | get_quantums counts exactly the quantum starts that chose the thread |
| SchedulerGuarantees.SleepsLongEnough | Ex2 - User Level Threads/uthreads.cpp:455-476 | before the n-th quantum start after the switch, a thread that called sleep(n) neither runs nor is queued, whatever blocks or resumes it |
| SchedulerGuarantees.WakesOnTime | Ex2 - User Level Threads/uthreads.cpp:169-203 | during the n-th start it is queued, and possibly chosen at once, unless it is blocked then; a blocked one is awake but stays out |
| SchedulerGuarantees.BlockedStaysOut | Ex2 - User Level Threads/uthreads.cpp:354-438 | a blocked thread stays out until it is resumed or terminated, also past the end of its sleep |
| SchedulerGuarantees.MovesUp | Ex2 - User Level Threads/uthreads.cpp:147-203 | a queued thread never moves back, and moves up at every quantum start until it runs |
| SchedulerGuarantees.WaitsAtMost | Ex2 - User Level Threads/uthreads.cpp:147-203 | bounded waiting: a thread at position k, neither blocked nor terminated, runs by the (k+1)-th quantum start |
| SchedulerRuns.RoundRobin | Ex2 - User Level Threads/uthreads.cpp:147-203 | at every quantum start the front of queue-plus-wakers runs, only a preempted thread goes to the end, and a thread that leaves otherwise always finds a successor |
| SchedulerRuns.StartedThread | Ex2 - User Level Threads/uthreads.cpp:147-203 | what a quantum start does to a single thread's sleep, state and quantums |
| SchedulerRuns.QuietThread | Ex2 - User Level Threads/uthreads.cpp:265-438 | a call that starts no quantum leaves every thread it does not terminate as it is, but for the state of the thread it blocks or resumes |
| Scheduler.Updated | Ex2 - User Level Threads/uthreads.cpp:169-185 | every sleeper gets one quantum closer; those at the end of their sleep and not blocked join the queue, in order of id; nothing else changes |
| SchedulerInvariant.PreemptKeeps | Ex2 - User Level Threads/uthreads.cpp:147-163 | a switch puts the front of the queue on the processor and only a thread that still wants to run at the end, everybody in place; without a successor main runs on |
| SchedulerInvariant.StartKeeps | Ex2 - User Level Threads/uthreads.cpp:190-203 | a quantum start from any state in which a thread may leave the processor restores the invariant |
| SchedulerInvariant.SelfTerminateKeeps | Ex2 - User Level Threads/uthreads.cpp:318-329 | the entry that pop_back removes is the terminating thread's, and its only one |
| SchedulerInvariant.TerminateKeeps | Ex2 - User Level Threads/uthreads.cpp:303-342 | terminating any thread keeps the invariant, unless it ends the process |
| SchedulerInvariant.Released | Ex2 - User Level Threads/uthreads.cpp:310-315 | the loop before the exit deletes every thread, and the count of live ones follows |
| SchedulerInvariant.SpawnKeeps | Ex2 - User Level Threads/uthreads.cpp:265-281 | spawning keeps it |
| SchedulerInvariant.BlockKeeps | Ex2 - User Level Threads/uthreads.cpp:354-402 | blocking keeps it |
| SchedulerInvariant.ResumeKeeps | Ex2 - User Level Threads/uthreads.cpp:413-438 | resuming keeps it |
| SchedulerInvariant.SleepKeeps | Ex2 - User Level Threads/uthreads.cpp:455-476 | sleeping keeps it |
| SchedulerInvariant.InitialInv | Ex2 - User Level Threads/uthreads.cpp:235-245 | initialisation establishes it |
| SchedulerInvariant.ProducedId | Ex2 - User Level Threads/uthreads.cpp:113-121 | below the limit the produced id is free and every smaller id is live |
| SchedulerInvariant.PushKeeps | Ex2 - User Level Threads/uthreads.cpp:286-290 | freeing an id keeps the heap ordered and without duplicates |
| UserThreads.Thread.constructor | Ex2 - User Level Threads/Thread.h:24-29 | a new thread has run no quantum and is not asleep |
| UserThreads.ThreadsData.constructor | Ex2 - User Level Threads/uthreads.cpp:235-245 | main alone, in slot 0, running its first quantum: its quantums and the total are 1, queue and freed ids are empty |
| UserThreads.ThreadsData.Preempt | Ex2 - User Level Threads/uthreads.cpp:147-163 | the switch on objects and pointers is the one PreemptKeeps is about |
| UserThreads.ThreadsData.UpdateSleepingThreads | Ex2 - User Level Threads/uthreads.cpp:169-185 | the loop over the table has the effect that Updated states |
| UserThreads.ThreadsData.SignalHandler | Ex2 - User Level Threads/uthreads.cpp:190-203 | a timer tick is one quantum start |
| UserThreads.ThreadsData.Spawn | Ex2 - User Level Threads/uthreads.cpp:265-281 | refines the spawn of SpawnGivesLeastId; pointers stay valid |
| UserThreads.ThreadsData.Terminate | Ex2 - User Level Threads/uthreads.cpp:303-342 | refines the terminate of TerminateRemoves for every id, main included; when it returns, no pointer to a deleted thread is left |
| UserThreads.ThreadsData.TerminateAll | Ex2 - User Level Threads/uthreads.cpp:310-313 | every table entry is cleared |
| UserThreads.ThreadsData.TerminateSelf | Ex2 - User Level Threads/uthreads.cpp:318-323 | update, switch, pop_back and deletion in the code's order |
| UserThreads.ThreadsData.TerminateThread | Ex2 - User Level Threads/uthreads.cpp:286-290 | exactly that table entry is cleared, its id freed, and the count lowered if a thread was there; pointers stay valid if none led to it |
| UserThreads.ThreadsData.Block | Ex2 - User Level Threads/uthreads.cpp:354-402 | refines the block of BlockTakesOut, return code and closing of the gap in the queue included |
| UserThreads.ThreadsData.Resume | Ex2 - User Level Threads/uthreads.cpp:413-438 | refines the resume of ResumeUnblocks |
| UserThreads.ThreadsData.Sleep | Ex2 - User Level Threads/uthreads.cpp:455-476 | refines the sleep of SleepsLongEnough and WakesOnTime; 0 exactly for a positive duration in a thread other than main, else -1 |
| UserThreads.ThreadsData.GetQuantums | Ex2 - User Level Threads/uthreads.cpp:513-522 | the thread's quantums, or -1 exactly for ids not live |

## Left out

- VMread with a null value pointer and its return code 0.
- Page-table constants outside the range in which the C arithmetic is defined: a table of more than 2^30 entries, frame numbers of 2^31 or more, virtual addresses of more than 62 bits, TABLES_DEPTH of 0.
- The width of data words: a stored word is any integer (frame numbers are proved to fit their word).
- The 64-bit width of addresses, except in the eviction key, where the wrap-around matters: shifts and masks act on natural numbers.
- JobSteps.Enabled: the shuffling thread may take an equivalent pair from any vector, not only in vector order, so the theorems hold for more runs than the code has; the exact order is that of ShuffleLoops.JobContext.ShufflePhase and ShuffleOrder.GroupsAreInOrder.
- Spurious wake-ups of pthread_cond_wait: the barrier waits in an `if`, and the model lets a thread go on only after a broadcast.
- Jobs with threads plus inputs of 2^31 or more, or 2^31 emitted pairs or more: the fields of the progress word are 31 bits wide.
- mapPhase, sortPhase and reducePhase as methods with loops: they run interleaved, so they are steps of a state machine; the client's map and reduce bodies are any finite sequence of pairs and no shared effect, and sort is any sorted permutation.
- emit3 and the output vector, waitForJob, closeJobHandle, failing pthread and semaphore calls, and finding the own thread by comparing pthread_self.
- Rounding of the percentage, which is an exact quotient here.
- uthread_init with a non-positive quantum.
- Signals, the signal mask, setjmp and longjmp, stacks and the timer: each call and each tick is one atomic step.
- Overflow of the int counters of quantums, and of num_quantums + 1 for the largest int.
- The static counter of live Thread objects is a field of the scheduler, and the heap of free ids is an ascending sequence.
- Ex1, demos, tests, Makefiles and the duplicate copies of Barrier and PhysicalMemory.
