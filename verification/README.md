# A Dafny model of the PHP engine's memory manager and of six smaller parts

The project models, for a 64-bit build without debugging aids, the parts of the PHP source tree that keep
intricate state: the Zend memory manager (`Zend/zend_alloc.c`), the thread-safe resource manager
(`TSRM/TSRM.c`), the start-up order of modules and the parsing of arguments
(`Zend/zend_API.c`), constant expressions (`Zend/zend_ast.c`), the recursive value printer (`Zend/zend.c`),
the line diff of the regression runner (`run-tests.php`) and the heap sort of the benchmark
(`Zend/bench.php`). `dafny verify dfyconfig.toml` checks everything.

| file | what it models |
|---|---|
| `Bits` | words, highest and lowest set bit, the shift that walks a size bit by bit |
| `Layout` | block sizes, bucket numbers, segment sizes, in wrapping arithmetic |
| `Rings` | doubly linked lists of free blocks: the small buckets, the rings of equal large blocks, the rest list |
| `Trie` | the bitwise trees of large free blocks: insertion, removal, search |
| `FreeIndex`, `HeapIndex` | lists, trees and bitmaps together; `HeapIndex.Index` is the object that updates them |
| `Tiling`, `Bookkeeping` | segments tiled by boundary-tagged blocks, and who owns each block |
| `CacheChains`, `Sums` | the chains of cached blocks; sums of sizes |
| `Payload` | the bytes of the address space, and where the manager keeps its own words |
| `ZendHeap` | `Heap`: allocation, freeing, resizing, shutdown |
| `HeapRuns` | whole runs of the heap, compared with an ideal heap |
| `HeapFindings` | short runs that end in the states described under Findings |
| `Tsrm` | the resource manager as a state machine over its critical sections |
| `ModuleOrder`, `VaArgs`, `ConstAst`, `Printer`, `ArrayDiff`, `HeapSort` | one part each, as named above |

How the heap is modelled. `Heap.m` holds the words of `zend_mm_heap` and of the block headers; `Heap.index`
holds the list and tree words; `Heap.k` is a ghost ledger of the blocks handed out, their requested sizes and
the cached blocks; `Heap.mem` is what the bytes of the address space hold. Every write of a header, of a
link or of a tree field leaves *anything* in the bytes that the word occupies, so that a payload survives an
operation only because no such word lies in it. The storage is a parameter: what it returns is any segment
disjoint from those in use, or nothing, and when it resizes a segment it may move it.

The main result about the heap is `HeapRuns.Process`: from start-up, any sequence of requests, stores,
resizes, releases, limit changes and shutdowns, up to the first that fails, behaves like a map from pointers to
independent buffers, while the counters stay exact and the limit is kept. Releases, stores and limit changes never
fail. A request, a resize or the reserve of a shutdown fails only for a reason that the words of the heap at that moment
show, or because the storage fails where they ask for it; the run is returned as the sequence of these moments.

## Model

| member | source | states |
|---|---|---|
| Bits.HighBit | Zend/zend_alloc.c:665-691 | the portable loop finds the position of the highest set bit of every non-zero word, and wraps to the largest `unsigned int` on zero |
| Bits.HighBitIsHighest | Zend/zend_alloc.c:665-691 | a position is that of the highest bit exactly if the bit is set and no higher one is |
| Bits.LowBit | Zend/zend_alloc.c:693-725 | the nibble loop finds the lowest set bit of every non-zero word |
| Bits.LowBitIsLowest | Zend/zend_alloc.c:693-725 | that bit is set and none below it is |
| Bits.PowerOfTwoTest | Zend/zend_alloc.c:1079-1086 | the start-up test accepts exactly the powers of two |
| Bits.SameHighBitWithinTwo | Zend/zend_alloc.c:1807-1878 | sizes of one large bucket differ by less than a factor of two |
| Bits.CursorTop | Zend/zend_alloc.c:749-753 | the top bit of the shifted size is the bit of the size that the walk has come to |
| Layout.TrueSizeCoversOrIsCaught | Zend/zend_alloc.c:539 | a block size is the least aligned size that covers header and request, or the sum wrapped, and the overflow test sees exactly the wrapped sums |
| Layout.SegmentSizeSufficesOrIsCaught | Zend/zend_alloc.c:1958-1969 | segment rounding gives the least multiple of the granularity that holds the block with header and guard, or wraps below the block size, and the test catches exactly the sizes that wrap |
| Rings.EveryNodeLeadsHome | Zend/zend_alloc.c:760-785 | from any member of a list, following one link reaches the head |
| Rings.InsertFront | Zend/zend_alloc.c:771-785 | linking a block behind the head keeps all lists well formed |
| Rings.InsertBack | Zend/zend_alloc.c:885-889 | linking a block at the end of the rest list does |
| Rings.RemoveMember | Zend/zend_alloc.c:842-843 | unlinking a member by two assignments does |
| Rings.SwapHead | Zend/zend_alloc.c:842-857 | unlinking the head of a ring leaves a ring with another head |
| Trie.Graft | Zend/zend_alloc.c:741-759 | storing a new leaf at a vacant place keeps the tree well formed |
| Trie.Prune | Zend/zend_alloc.c:804-813 | clearing the slot of a leaf does |
| Trie.Replace | Zend/zend_alloc.c:821-832 | putting a block in the place of a node, with the parent fields of its children corrected, does |
| Trie.Descend | Zend/zend_alloc.c:735-770 | the descent ends at the node of exactly this size, or at a vacant place where the size belongs, and then no node has the size |
| Trie.NotInTree | Zend/zend_alloc.c:747-769 | a size that its path does not meet is nowhere in the tree |
| Trie.LeafBelow | Zend/zend_alloc.c:804-819 | the walk from a node with children ends at a leaf below it, and returns the field that holds it |
| Trie.Substitute | Zend/zend_alloc.c:814-832 | the leaf below a node can take its place |
| Trie.Search | Zend/zend_alloc.c:1807-1878 | the search finds nothing exactly if no node fits, the exact size if there is one, and else a fit of the lowest possible bucket |
| Trie.SearchRoot | Zend/zend_alloc.c:1870-1876 | in the lowest bucket above the request it finds the smallest of the nodes that it meets on its way down |
| Trie.SmallestIfOnWay | Zend/zend_alloc.c:1870-1876 | what it finds is the smallest of the bucket if and only if a smallest node is on the way down |
| Trie.MissesSmaller | Zend/zend_alloc.c:1870-1876 | on a tree of two nodes it returns the larger one |
| FreeIndex.AddSmall | Zend/zend_alloc.c:771-785 | a small block added keeps lists, trees and bitmaps consistent |
| FreeIndex.AddLeaf | Zend/zend_alloc.c:735-759 | a large block of a new size added does |
| FreeIndex.AddRing | Zend/zend_alloc.c:760-768 | a large block of a known size added does |
| FreeIndex.AddRest | Zend/zend_alloc.c:878-889 | a block added to the rest list does |
| FreeIndex.RemoveListed | Zend/zend_alloc.c:834-859 | a block of a small bucket or of the rest list removed does |
| FreeIndex.RemoveRingMember | Zend/zend_alloc.c:834-859 | a member of a ring removed does |
| FreeIndex.RemoveRingHead | Zend/zend_alloc.c:821-857 | a tree node with a ring removed does: another member takes its place in the tree |
| FreeIndex.RemoveLeaf | Zend/zend_alloc.c:804-813 | a childless tree node removed does |
| FreeIndex.RemoveInner | Zend/zend_alloc.c:814-832 | a tree node with children removed does: a leaf below takes its place |
| FreeIndex.LostBit | Zend/zend_alloc.c:842-852 | unlinking keeps the small bitmap exact if and only if the block is not a small one alone on the rest list whose bucket holds exactly one block |
| FreeIndex.LostBitHappens | Zend/zend_alloc.c:842-852 | there is a consistent index in which unlinking loses a bit |
| HeapIndex.Index.constructor | Zend/zend_alloc.c:892-917 | the initial index is consistent and empty |
| HeapIndex.Index.AddToFreeList | Zend/zend_alloc.c:727-786 | the index stays consistent, gains exactly the block, writes only to indexed blocks, puts a small block first into the bucket of its size, with the bit set if that was empty, and a large one into the trees, and makes the block findable unless its small bucket was not empty |
| HeapIndex.Index.AddToRestList | Zend/zend_alloc.c:861-890 | the index stays consistent and gains exactly the block, which becomes the newest of the rest list; what leaves that list is older than all that stays, and stays in the index; if there was room nothing else changes, and otherwise just as many leave that there is room for one large block, of which at most 16 are then on it |
| HeapIndex.OldestFirst | Zend/zend_alloc.c:865-876 | the block that is evicted first is older than every other one on the rest list |
| HeapIndex.Index.RemoveFromFreeList | Zend/zend_alloc.c:788-859 | the index stays consistent, loses exactly the block, and writes only to indexed blocks; for a block of a small bucket or of the rest list the new links and bitmap are given exactly |
| HeapIndex.Index.SearchLarge | Zend/zend_alloc.c:1807-1878 | nothing exactly if no large block fits; else a fit in the lowest power-of-two class that has one, of the exact size if there is one, less than twice as large as any other fit |
| HeapIndex.Index.SearchSmall | Zend/zend_alloc.c:1922-1931 | nothing exactly if no bit at or above the bucket is set; else the block last in the lowest such bucket whose bit is set |
| HeapIndex.Index.SearchRest | Zend/zend_alloc.c:1940-1955 | nothing exactly if nothing on the rest list fits; else the smallest fit |
| Tiling.Split | Zend/zend_alloc.c:2026-2045 | cutting a block in two keeps the segment tiled without gap or overlap |
| Tiling.Cover | Zend/zend_alloc.c:2103-2119 | one tag over a run of blocks does |
| Tiling.Open | Zend/zend_alloc.c:1999-2013 | a new segment of one block and a guard does |
| Tiling.Drop | Zend/zend_alloc.c:919-930 | a segment taken away leaves the others tiled |
| Bookkeeping.TakeAndTrim | Zend/zend_alloc.c:2026-2045 | handing out the front of a free block keeps every block owned by exactly one of caller, cache and index |
| Bookkeeping.GiveBack | Zend/zend_alloc.c:2103-2119 | merging a freed block with its free neighbours does, and leaves no two free blocks side by side |
| Bookkeeping.WidenAndTrim | Zend/zend_alloc.c:2225-2249 | growing a block into the free block behind it does |
| CacheChains.Push | Zend/zend_alloc.c:2083-2089 | a freed small block becomes the top of the chain of its size |
| CacheChains.Pop | Zend/zend_alloc.c:1903-1916 | the top of a chain leaves it, and the chain below is whole |
| Payload.MetadataApart | Zend/zend_alloc.c:502-511 | no byte of a block header, guard or segment header, of the links and tree fields of an indexed block, or of the link of a cached block lies in the payload of a block that is handed out |
| Payload.RewriteSpares | Zend/zend_alloc.c:502-511 | headers written with anything leave every payload that is handed out before and after as it was |
| Payload.RelinkSpares | Zend/zend_alloc.c:727-890 | so do list and tree fields |
| Payload.LinkSpares | Zend/zend_alloc.c:2083-2089 | so does the link of a cached block |
| Payload.MoveCarries | Zend/zend_alloc.c:2359-2365 | allocate, copy, free carries the payload, and nothing on the way disturbs it or any other |
| Payload.RelocationCarries | Zend/zend_alloc.c:2296-2346 | a segment that the storage moves carries the payload of its block |
| ZendHeap.ChangedWordsAreFields | Zend/zend_alloc.c:727-890 | every byte of a list or tree word that an index operation changes in a block lies in the fields that such a free block has |
| ZendHeap.IndexSpares | Zend/zend_alloc.c:727-890 | whatever those words hold afterwards, no payload of a block that is handed out changes |
| ZendHeap.Heap.constructor | Zend/zend_alloc.c:1042-1161 | the heap starts consistent and empty, with exact counters and a limit of 2^62 |
| ZendHeap.Heap.Alloc | Zend/zend_alloc.c:1880-2058 | success hands out one block that was not in use, with room for the request and less than one minimal block more than needed, and moves nothing else; the block is the top of the cache chain of its size if there is one, else the last of the lowest bucket marked as fitting, else a large fit of the exact size or within a factor of two of any other, else, near the limit, the smallest fit of the rest list; a segment, of exactly the computed size, is put in front of the list only if there is none of these; what is cut off goes to the bucket or tree of its size, or to the end of the rest list if it is the rest of a segment larger than the granularity; the peaks are raised to what is then in use and no further; the limit is the reason for failure exactly if there was no fit and no room for a segment under it; a failure empties the cache and leaves `size` too high by what was cached; requests that overflow fail and change nothing; every other payload is unchanged |
| ZendHeap.Heap.Free | Zend/zend_alloc.c:2060-2121 | exactly the block is given back: on top of the cache chain of its size exactly if it is small and the cache has room; else, if nothing else is in use in its segment, that segment and no other goes, and otherwise the block and its free neighbours are one free block, first in the small bucket of its size or in the trees, and never on the rest list; NULL changes nothing, the peaks stay, no segment becomes free from end to end without going back to the storage, and every other payload is unchanged |
| ZendHeap.Heap.Realloc | Zend/zend_alloc.c:2123-2368 | success leaves the payload, as far as old and new size reach, at the new place, and every other block and payload where it was; a request that the block can hold never moves it; a growing request takes the top cached block of its size if there is one, else grows in place if the free block behind is large enough, else, for a block alone in its segment, fails for the limit exactly if the grown segment would wrap or exceed it and otherwise replaces that segment alone or reports that the storage failed, else has the outcome of an allocation and gets the block that this would get; what is cut off is indexed, or put on the rest list exactly if it ends a segment in which the block alone has grown; a block left behind is on top of its cache chain, or in a free block of the index, or gone with its segment; failure leaves all blocks and payloads as they were |
| ZendHeap.Heap.FreeCache | Zend/zend_alloc.c:932-973 | every cached block goes back, nothing handed out changes, and `size` comes out too high by exactly what was cached |
| ZendHeap.Heap.PartialShutdown | Zend/zend_alloc.c:1691-1740 | without a reserve everything goes back; with one, the reserve is the only block left, the counters are exact, and no segment is left all free exactly if the oldest segment can hold the reserve; the reserve is refused only if it overflows or the oldest segment cannot hold it, and then for the limit exactly if that is exceeded |
| ZendHeap.Heap.SetLimit | Zend/zend_alloc.c:2685-2692 | the limit becomes the requested one, but not less than the granularity, and the heap stays consistent |
| ZendHeap.Heap.Usage | Zend/zend_alloc.c:2694-2705 | the reported usage is the sum of the blocks handed out plus what emptying the cache has added to `size` |
| HeapRuns.HealthyMeans | Zend/zend_alloc.c:1335-1599 | in every healthy heap each payload holds its request, lies in one segment, overlaps no other and contains no word of the manager; `real_size` is the total of the segments and within the highest limit; `size` and `cached` are exact |
| HeapRuns.AllocFollows | Zend/zend_alloc.c:1880-2058 | an allocation does to the buffers what it does to the ideal heap |
| HeapRuns.FreeFollows | Zend/zend_alloc.c:2060-2121 | so does freeing |
| HeapRuns.ReallocFollows | Zend/zend_alloc.c:2123-2368 | so does resizing: the bytes stored below the new size are still there |
| HeapRuns.WriteFollows | Zend/zend_alloc.c:547-548 | a byte stored in one buffer is seen there and in no other buffer |
| HeapRuns.Reuse | Zend/zend_alloc.c:2083-2089 | the cache is a stack: a block freed into it is the one that the next request of its size gets |
| HeapRuns.Run | Zend/zend_alloc.c:2370-2383 | any run from any healthy heap, up to its first failure, follows the ideal heap: pointers handed out are unused, every buffer holds what was stored in it, and the block of a buffer that no operation names keeps its place, size and payload; every outcome, granted or not, is the one that the heap at that moment calls for, with the block that it calls for, and remainders and freed blocks go where it says; only requests, resizes and reserves can fail, and the buffers are then still there, unless it is the shutdown that failed |
| HeapRuns.Process | Zend/zend_alloc.c:1042-1161 | the same from start-up: the heap stays healthy and equals the ideal heap, no segment is ever left free from end to end if all reserves fit the granularity, and a run that stops does so for a reason that the heap then shows |
| HeapFindings.LostBitReached | Zend/zend_alloc.c:842-852 | two allocations and the unlinking that a release does leave a block in a bucket whose bit is not set |
| HeapFindings.RefusedUsage | Zend/zend_alloc.c:2694-2705 | after a request that is refused, the usage reported exceeds what is in use by all that was cached |
| HeapFindings.OverstatedUsage | Zend/zend_alloc.c:932-973 | one small block allocated and freed and one request refused: nothing is in use, and the usage reported is the size of the block |
| HeapFindings.FreeSegmentLeft | Zend/zend_alloc.c:1691-1740 | one small block allocated, then a shutdown with a reserve as large as its segment: a segment is left free from end to end |
| Tsrm.Manager.constructor | TSRM/TSRM.c:120-161 | the table starts empty and consistent, with the mutex free |
| Tsrm.Congruent | TSRM/TSRM.h:100 | two threads have the same chain if and only if the table size divides the difference of their numbers |
| Tsrm.Manager.AllocateId | TSRM/TSRM.c:215-267 | the new resource gets the next id, every thread gets a block for it, and no block is forgotten |
| Tsrm.Manager.AllocateNewResource | TSRM/TSRM.c:270-304 | the thread gets one new entry with a block for every resource that is not freed, the calling thread's local pointer names it, and the mutex is given back |
| Tsrm.Manager.Enter | TSRM/TSRM.c:343-379 | under the mutex the entry of the thread is found exactly if it has one, and made otherwise |
| Tsrm.Manager.Resource | TSRM/TSRM.c:308-379 | asking for the own resources always ends with the thread's entry, and changes nothing if there was one |
| Tsrm.Manager.FreeThread | TSRM/TSRM.c:442-480 | exactly the entries of the thread go, and the number of destructor calls with NULL is the number of freed resources with destructors |
| Tsrm.Manager.FreeWorkerThreads | TSRM/TSRM.c:484-526 | exactly the entries of other threads go whose number differs from that of the calling thread by a multiple of the table size |
| Tsrm.Manager.FreeId | TSRM/TSRM.c:530-560 | the resource is marked done and its slot is NULL in every entry |
| Tsrm.Manager.Shutdown | TSRM/TSRM.c:165-211 | every block that ever was has been freed once, and destroyed once if its resource has a destructor |
| Tsrm.RunPrivately | TSRM/TSRM.c:308-379 | in every interleaving in which threads ask for their own resources, the invariant holds between all critical sections, every lock is given back, thread-local pointers agree with the table, and no block is forgotten |
| Tsrm.Run | TSRM/TSRM.c:215-560 | in every interleaving of all operations, what the mutex protects stays whole, every lock is given back, and no block is forgotten |
| Tsrm.Lifetime | TSRM/TSRM.c:120-211 | from start-up through any interleaving to shutdown, every block ever made was freed exactly once and reached its destructor exactly once if it has one |
| Tsrm.WorkersElsewhere | TSRM/TSRM.c:484-526 | freeing the worker threads leaves no other thread if and only if the numbers of all of them differ from that of the calling thread by multiples of the table size |
| Tsrm.WorkerSurvives | TSRM/TSRM.c:484-526 | threads 0 and 1 with two chains: after thread 0 has freed its worker threads, thread 1 still has its entry |
| Tsrm.NullCallsExactly | TSRM/TSRM.c:442-480 | a leaving thread passes NULL to a destructor if and only if some freed resource has one |
| Tsrm.NullDestroyed | TSRM/TSRM.c:442-480 | one resource registered, asked for and freed, and the thread left: one destructor call with NULL |
| ModuleOrder.SortModules | Zend/zend_API.c:1769-1802 | for dependencies with a rank, the result is a permutation in which no module comes before one that it requires or may use, and it is reached by rounds in each of which a module changes places with the first one behind it that its first unmet dependency names |
| ModuleOrder.RunsAlike | Zend/zend_API.c:1777-1800 | such rounds have one outcome, so that the list alone decides the result |
| ModuleOrder.RankedOrCircular | Zend/zend_API.c:1769-1802 | the modules have such a rank if and only if no set of them wants each other in a circle |
| ModuleOrder.NeverEnds | Zend/zend_API.c:1769-1802 | with a circle, however many rounds the sort makes, it has not ended |
| ModuleOrder.TwoInACircle | Zend/zend_API.c:1769-1802 | two modules that require each other are a circle |
| ModuleOrder.StartupModules | Zend/zend_API.c:1712-1888 | all modules start in such an order, or, exactly if some required module is not registered, the first module whose test fails is removed from the registry, those before it are started and those behind it are not |
| ModuleOrder.Vanishes | Zend/zend_API.c:1882-1888 | a module that requires one that is not registered is gone after start-up |
| VaArgs.Parse | Zend/zend_API.c:729-884 | for every specification made of the sixteen letters, each with any number of `/` and `!` behind it, with or without a bar in front of the optional ones and a variadic specifier: the arguments go to the letters in order, the last ones to those behind the specifier, and what is left between them to the specifier; the call fails exactly if there are too few arguments or too many, or one for a letter cannot be converted; any other character, a second variadic specifier or too few arguments on the stack fail |
| VaArgs.Alphabet | Zend/zend_API.c:746-753 | the letters that are counted are exactly `ldsbraoOzZChfAHp` |
| VaArgs.StrippedLetters | Zend/zend_API.c:745-764 | letters alone are a valid specification, which asks for exactly them |
| VaArgs.CountText | Zend/zend_API.c:743-809 | of every such specification the first loop counts the least and the most arguments and those behind the specifier |
| VaArgs.Dealt | Zend/zend_API.c:835-881 | the second loop hands out what the counts let through as the specification says |
| VaArgs.UnwrittenSlice | Zend/zend_API.c:835-881 | without an argument for it, a variadic letter at the end leaves array and count unwritten, and one with a letter behind it writes NULL and 0 |
| VaArgs.PlusFilled | Zend/zend_API.c:766-786 | a specifier `+` gets an argument in every call that succeeds if and only if no bar is in front of it |
| VaArgs.PlusEmpty | Zend/zend_API.c:835-881 | one argument for a letter behind a bar: the call succeeds and `+` gets none |
| VaArgs.LimitRefused | Zend/zend_API.c:743-798 | every specification that holds the letter `L` fails, although the conversion at line 325 knows it |
| ConstAst.Memory.Evaluate | Zend/zend_ast.c:105-348 | evaluation yields the value of the expression; with a class scope exactly the constants that it looked at become their values, where a skipped operand of a short-circuit operator is not looked at, and without one nothing changes |
| ConstAst.EvaluateConstant | Zend/zend_ast.c:253-268 | outside classes a constant is looked up each time; the first evaluation in a class fixes its value for all later ones |
| ConstAst.EvaluateOperators | Zend/zend_ast.c:105-252 | an operator gets the values of its operands, in their order |
| ConstAst.EvaluateSigns | Zend/zend_ast.c:305-316 | for integer sums and differences, minus and plus of an expression worth n are -n and n |
| ConstAst.EvaluateAnd | Zend/zend_ast.c:269-279 | conjunction is true exactly if both operands are; after a false one no constant of the other alone is resolved |
| ConstAst.EvaluateOr | Zend/zend_ast.c:280-290 | De Morgan: the disjunction of two operands has the value of the negated conjunction of their negations and resolves the same constants |
| ConstAst.EvaluateSelect | Zend/zend_ast.c:291-304 | a true condition gives the second operand, or itself where that is missing, a false one the third; no constant of the branch not taken alone is resolved |
| ConstAst.EvaluateItems | Zend/zend_ast.c:317-333 | for arrays that grow at the end, a literal gives its keys, or places where it gives none, and its values, in order |
| ConstAst.EvaluateKnown | Zend/zend_ast.c:105-316 | of known constants: -i, i - j and i && j are what arithmetic and truth values say, and nothing changes |
| ConstAst.EvaluateKnownChoice | Zend/zend_ast.c:291-304 | of known constants: `i ? j : k` and `i ?: k` |
| ConstAst.EvaluateKnownItems | Zend/zend_ast.c:317-333 | of known constants: `[i => j, k]` holds j at i and k at 1 |
| ConstAst.SameMeaning | Zend/zend_ast.c:105-348 | whichever constants were resolved in passing, every tree over those leaves keeps its value under the same scope |
| ConstAst.Memory.Copy | Zend/zend_ast.c:350-369 | the copy has the same shape over leaves of its own |
| ConstAst.CopyMeansTheSame | Zend/zend_ast.c:350-369 | a copy evaluates to the same value under every scope |
| ConstAst.KnownIsScopeFree | Zend/zend_ast.c:87-103 | a tree that passes the compile-time test has one value, whatever scope and constants are |
| Printer.Output.Print | Zend/zend.c:399-451 | on every graph of arrays and objects, cyclic or not, printing ends, restores all nesting counters, and writes the text of an independent recursive definition |
| Printer.NoMark | Zend/zend.c:134-193 | without cycles the recursion mark is never printed |
| Printer.CycleIsMarked | Zend/zend.c:399-451 | every walk that comes back to one of its tables is printed with a mark |
| Printer.PrintCycle | Zend/zend.c:134-193 | the exact text for an array of two rows that contains itself |
| ArrayDiff.Align | run-tests.php:2191-2222 | the first loop consumes one side completely, every line it did not note is matched with an equal one in order, and no line of a common beginning is noted |
| ArrayDiff.Generate | run-tests.php:2191-2256 | the result is a correct edit script from wanted to actual lines for all inputs, empty exactly if they are equal, and names no line of a common beginning |
| HeapSort.Sort | Zend/bench.php:218-248 | elements 1 to n come out sorted and are a permutation of what they were, and no other element changes |
| HeapSort.EndsExactly | Zend/bench.php:218-248 | the counters of the loop ever meet the test for its end if and only if there are at least two elements |

## Findings

Where the code does not do what its neighbours rely on, an input that shows it and the exact condition are proved.

| what fails | shown by | exactly when |
|---|---|---|
| `free_bitmap` loses a bit of a bucket that is not empty, so that a free block is no longer found by the small search | HeapFindings.LostBitReached, FreeIndex.LostBitHappens | FreeIndex.LostBit: a small block alone on the rest list is removed while the bucket of its size holds exactly one block. `zend_mm_remove_from_free_list` takes equal links for an emptied bucket, but the block was not in the bucket |
| the search for the smallest large block misses it | Trie.MissesSmaller | Trie.SmallestIfOnWay: no smallest node is on the way down, which goes on to the second child only where there is a first one |
| `zend_memory_usage` is too high after a refused request | HeapFindings.OverstatedUsage | HeapFindings.RefusedUsage: by exactly what was cached, as `zend_mm_free_cache` lowers `cached` but not `size` |
| a shutdown with a reserve can leave a segment that is free from end to end | HeapFindings.FreeSegmentLeft | ZendHeap.Heap.PartialShutdown: the reserve does not fit the oldest segment |
| `ts_free_worker_threads` is meant to free all other threads, but walks only one chain | Tsrm.WorkerSurvives | Tsrm.WorkersElsewhere: the number of some other thread does not differ from that of the calling one by a multiple of the table size |
| `ts_free_thread` calls destructors with NULL for resources freed by `ts_free_id` | Tsrm.NullDestroyed | Tsrm.NullCallsExactly, with Tsrm.Manager.FreeThread: some freed resource has a destructor |
| `zend_sort_modules` does not return | ModuleOrder.TwoInACircle with ModuleOrder.NeverEnds | ModuleOrder.RankedOrCircular: some modules want each other in a circle |
| `zend_startup_modules` returns SUCCESS although modules were dropped or not started | ModuleOrder.Vanishes | ModuleOrder.StartupModules: some required module is not registered |
| `zend_parse_va_args` leaves the caller's variadic array and count unwritten | VaArgs.UnwrittenSlice | VaArgs.Parse: no argument is left when the specifier is reached; if letters follow it and arguments for them are left, NULL and 0 are written |
| a variadic specifier `+` is documented to take one argument or more, and can get none | VaArgs.PlusEmpty | VaArgs.PlusFilled: a bar, which makes what follows it optional, is in front of it |
| the type letter `L` is documented (`README.PARAMETER_PARSING_API`) and converted, but refused | VaArgs.LimitRefused, for every specification that holds it | VaArgs.Alphabet: `L` is not among the letters that are counted |
| `heapsort_r` does not return | HeapSort.EndsExactly, for 0 or 1 elements | HeapSort.EndsExactly: fewer than two elements |

## Left out

- ZendHeap.Heap.Realloc: when the storage cannot resize the segment of a block that has a free block behind
  it, that free block stays outside the lists and the model does not empty the cache; the contract says so and
  promises nothing about using the heap afterwards, as the engine bails out there.
- HeapRuns.Run: stops at the first failed operation; the recovery of the engine after its bailout is not modelled.
- ModuleOrder.StartupModules: start-up functions succeed; the registry is returned as a list and `a` keeps the sorted
  list, so the removal of a module from the hash table is seen in the result only.
- HeapIndex.Index.SearchLarge: does not promise the smallest fit, which the search can miss (see Findings).
- HeapIndex.Index.AddToFreeList: does not promise that a block added to a non-empty small bucket is found by
  the bitmap search, because of the lost bit under Findings.
- ModuleOrder.SortModules: requires a rank, as a method must end; by ModuleOrder.RankedOrCircular and
  ModuleOrder.NeverEnds the source does not return otherwise.
- VaArgs.Parse: promises the division for specifications with at most one bar, in front of the variadic specifier; the
  conversion of each argument is a parameter (it succeeds or not), and the clean-up after a failed one is not modelled.
- ConstAst.Memory.Evaluate: the arithmetic of the values and the constant table are parameters.
- Printer.Output.Print: how a scalar or a key is spelled is a parameter, and so are the property tables
  that objects show.
- ArrayDiff.Generate: plain lines only, not regular expressions; lines are equal or not, and the numbers in
  front of the lines are kept as numbers.
- HeapSort.Sort: values are reals instead of floating-point numbers; it requires two elements, as by
  HeapSort.EndsExactly the source does not return for fewer.
- Tsrm.Run: a critical section is one step, as the mutex makes it; errors of memory allocation, constructor
  bodies and the functions that switch interpreter contexts are not modelled.
- The storage back ends, interrupt blocking, cookies, magic numbers, heap protection and statistics of the memory
  manager: build options and system calls.
- The full shutdown of the heap and the copy of a heap into itself at start-up (`internal`): they would only add
  easy members.
- `_zend_mm_block_size`, `safe_emalloc` and the other wrappers around the three heap operations: easy.
- The handler tables of `zend_collect_module_handlers`: easy.
