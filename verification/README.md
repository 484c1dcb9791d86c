# Verified model of Terark's index-linked data structures

This project models the data structures of Terark that link their elements by slot numbers or byte
offsets, and proves that they agree with the simple objects they stand for.

- `ArtNodes`, `ArtTree`: the adaptive radix tree of libart.  Nodes are objects edited in place, in four
  layouts that grow and shrink; a node stores ten bytes of its compressed prefix and takes the rest from
  a leaf.  The tree is a finite map from byte strings that is iterated in byte order.
- `LruProtocol`, `LruMap`, `LruLock`: the LRU map for any number of threads.  The protocol has one event
  for each section under the lock, and for the two accesses to the solve state outside it; `LruMap` is
  the code over the arrays of links, in which one field is both ring link and solve state.  The futex
  lock is a protocol of its own.
- `Arena`, `ArenaProtocol`, `ArenaLaws`, `ThreadCache`, `PoolRuns`: the pool with thread caches.  A division says who
  owns each unit of the arena; the protocol has the events of all threads; `ThreadCache` is the code over
  memory words, with the lists threaded through freed blocks; `ArenaLaws` says where a cache puts what is
  freed and what it serves a request from; `PoolRuns` is about memory contents over whole runs.  One unit, and one word, is `AlignSize` bytes.
- `GoldHash`: the hash table with chains by slot number, the free list threaded through deleted elements,
  rehashing and compaction.  It is a finite map.
- `LruTable`: the two put together, each event of the LRU map carried out on the reserved hash table.
- `StrOrder`, `StrPool`: the key order of the string map, and its slots: offsets that tile a pool of
  bytes, free lists by size written over deleted keys, compaction.
- `LoserTree`: the loser tree for any number of ways, merging and the set operations on top of it.
- `ReplaceSelect`: run generation by replacement selection on a heap that sinks to a leaf and rises.
- `RadixSort`: the radix sort for keys of any mix of lengths on linked indices, and the rearrangement of
  the objects along cycles.
- `SkipList`, `BestFit`: the single-threaded pool, whose long free blocks are in a skip list stored in
  the blocks.
- `PackedInts`: bit-packed integers, read by one or two words, and the searches on them.
- `Sequences`, `LinkedLists`, `Words`: sequences without duplicates, lists linked through a table, and
  machine words as bits.

Methods follow the loops and branches of the code.  They are proved against functions and predicates on
values, and the main results are lemmas about those.  Randomness (the level of a skip list node, a
spurious failure of a compare-and-exchange, the contents of fresh memory) is arbitrary in the model.

Where the code and its comments differ, the model follows the code:

- The LRU map looks a key up once and drops the lock in an eviction, so a key can get two entries.
  `LruProtocol.UniqueKept` says at which event, `LruProtocol.UniqueRuns` in which runs, `LruProtocol.UniqueIff`
  for which capacities it can (for every one that the constructor accepts), and `LruProtocol.UniqueApart`
  what callers must do to have unique keys.
- `reserve` of the hash table promises room for the capacity, but the maximal load is kept in 32 bits:
  `GoldHash.ReserveTooLarge` is a capacity for which the promise fails, and `GoldHash.EnoughBuckets` says for
  all capacities and load factors when it holds; with the default load factor it does up to 3003121660
  (`GoldHash.DefaultLoad`).  The LRU map never rehashes under the same condition (`LruTable.NeverRehashesIff`).
- `gc_on_strpool_is_full` checks that the live bytes and the new key fit below the largest offset, but with
  free lists it does not compact: `StrPool.GuardTooWeak` is an input that passes and gets no room.
  `StrPool.StrMap.AllocSlot` says exactly when a key gets a slot, when the program stops, and when, in the rest
  of the cases, the new slot would end behind the pool.

## Model

| member | source | states |
|---|---|---|
| ArtTree.Tree.Search | 3rdparty/libart/art.c:262-291 | returns exactly the value the finite map holds for the key, for any key at all |
| ArtTree.Tree.Insert | 3rdparty/libart/art.c:549-648 | the map gains or changes this one entry, the old value is returned, `size` counts the keys, and the tree stays well formed; keys in play must be prefix-free |
| ArtTree.Tree.Delete | 3rdparty/libart/art.c:759-818 | the map loses exactly this key, the old value is returned, and `size` counts the keys |
| ArtTree.Tree.Iter | 3rdparty/libart/art.c:821-881 | the callback sees each key once, in strictly increasing unsigned byte order, up to the first nonzero answer, which is returned |
| ArtTree.SearchFrom | 3rdparty/libart/art.c:262-291 | the same for the loop; the byte read past a short key is arbitrary and the answer does not depend on it |
| ArtTree.PrefixMismatch | 3rdparty/libart/art.c:528-547 | the first difference between the key and the whole compressed prefix, also beyond the ten stored bytes |
| ArtTree.Minimum | 3rdparty/libart/art.c:294-318 | the leaf found has the least key below the node in byte order |
| ArtTree.SplitLeaf | 3rdparty/libart/art.c:556-583 | a leaf becomes a node over both leaves whose map is the union |
| ArtTree.SplitPrefix | 3rdparty/libart/art.c:594-618 | a node is split inside its compressed prefix, and both parts keep all keys |
| ArtTree.RecursiveInsert | 3rdparty/libart/art.c:549-636 | the subtree returned stands for the old map with the one entry changed, in objects of its own |
| ArtTree.RecursiveDelete | 3rdparty/libart/art.c:759-802 | the subtree returned stands for the old map without the key, and the removed value is reported |
| ArtTree.Collapsed | 3rdparty/libart/art.c:719-741 | a node4 left with one child gives way to it; the merged prefix still agrees with every key below |
| ArtTree.KidOrder | 3rdparty/libart/art.c:821-881 | keys below the child for a smaller byte precede those below a larger one |
| ArtNodes.Node.FindChild | 3rdparty/libart/art.c:135-221 | the slot of the child for a byte, or none if and only if there is no such child, in all four layouts |
| ArtNodes.Node.AddChild | 3rdparty/libart/art.c:383-523 | the child map gains the pair; the layout stays proper, and is the next larger one exactly when the node was full |
| ArtNodes.Node.AddChild48 | 3rdparty/libart/art.c:389-408 | the index bytes and the child slots stay a bijection |
| ArtNodes.Node.RemoveChild | 3rdparty/libart/art.c:650-757 | the child map loses the pair; the layout stays proper, and is the next smaller one exactly at 37, 12 and 3 children |
| ArtNodes.Node.RemoveChild48 | 3rdparty/libart/art.c:673-695 | index and slots stay a bijection, and the node16 that may take over has the keys in order |
| ArtNodes.Node.CollapseInto | 3rdparty/libart/art.c:719-741 | the prefix of the remaining child becomes the parent prefix, the byte between, and its own prefix, cut to ten bytes |
| LruProtocol.Reachable | src/terark/lru_map.hpp:72-249 | for any number of threads and any interleaving, a node count is the number of threads solving, waiting on, holding or dropping it; the ring is exactly the findable solved nodes with count 0; entries and victims stay within the capacity |
| LruProtocol.InvKept | src/terark/lru_map.hpp:72-249 | every event of every thread keeps the invariant behind that |
| LruProtocol.HeldStays | src/terark/lru_map.hpp:72-172 | from being counted on a node until dropping it, a thread finds the node in the table under its key, whatever the others do |
| LruProtocol.VerdictStays | src/terark/lru_map.hpp:80-97 | a waiter that is slow to wake finds the verdict its solver gave |
| LruProtocol.VictimOldest | src/terark/lru_map.hpp:215-249 | a victim is used by no thread and every other idle node was released later |
| LruProtocol.FullOfUse | src/terark/lru_map.hpp:244-248 | an eviction finds the ring empty only if every entry is in use or already a victim |
| LruProtocol.UniqueKept | src/terark/lru_map.hpp:114-123 | exactly which event can give a key a second entry: the end of an eviction after another thread has inserted the key |
| LruProtocol.UniqueRuns | src/terark/lru_map.hpp:221-243 | over a whole run of any threads the keys stay unique throughout if and only if every eviction that ends finds its key still missing |
| LruProtocol.UniqueApart | src/terark/lru_map.hpp:114-243 | keys are unique after every run in which no thread adds a key, or starts an eviction for it, between the start and the end of another eviction for that key |
| LruProtocol.TwiceInserted | src/terark/lru_map.hpp:221-243 | a full table with two idle entries has a run after which one key has two entries |
| LruProtocol.UniqueIff | src/terark/lru_map.hpp:114-243 | keys stay unique in every run from the empty map if and only if its capacity is at most one, which the constructor does not accept; for larger ones a run that breaks it is given |
| LruProtocol.StorageKept | src/terark/gold_hash_map.hpp:1060-1083 | the reserved slots are linked, free or held by an eviction, and no more are ever needed |
| LruMap.LruMap.InsertAsNewHead | src/terark/lru_map.hpp:177-195 | the doubly linked ring gains the slot at its head, prev inverse to next, and its length is counted |
| LruMap.LruMap.RemoveNode | src/terark/lru_map.hpp:199-214 | the ring loses the slot, whose link becomes the solved mark |
| LruMap.LruMap.LruGet | src/terark/lru_map.hpp:72-111 | the locked section is one event of the protocol; nothing is found if and only if no entry has the key, else an entry in progress is waited for, a failed one refused, and a solved one held: counted once more, off the ring, one more hit in 32 bits |
| LruMap.LruMap.LruAdd | src/terark/lru_map.hpp:114-160 | the same for an entry that is there; for a missing key the thread solves a new entry if and only if entries and victims are below the capacity, else it evicts the tail of the ring, or dies if and only if that is empty |
| LruMap.LruMap.EvictLeastRecent | src/terark/lru_map.hpp:221-249 | the locked half of an eviction takes the tail of the ring, the longest idle entry, out of the table |
| LruMap.LruMap.FinishEvict | src/terark/lru_map.hpp:239-242 | the slot of the victim holds the entry of the key that needed room, in progress and counted once; nothing else changes |
| LruMap.LruMap.WakeSolve | src/terark/lru_map.cpp:76-81 | publishing the verdict is one event, which leaves exactly that verdict on the node |
| LruMap.LruMap.WaitSolve | src/terark/lru_map.cpp:57-74 | a read of the state sleeps exactly while it is in progress, dies if it is the first and finds a verdict, and else returns the verdict, told apart from a ring link in the same field |
| LruMap.LruMap.DropFailed | src/terark/lru_map.hpp:150-157 | a failed node loses one count, and its last thread erases it |
| LruMap.LruMap.LruRelease | src/terark/lru_map.hpp:161-172 | a node loses one count, and the last release puts it at the head of the ring |
| LruMap.RingInsert | src/terark/lru_map.hpp:177-195 | the four writes of an insertion give the ring with the new head |
| LruMap.RingRemove | src/terark/lru_map.hpp:199-214 | the writes of a removal give the ring without the node |
| LruTable.NeverRehashesIff | src/terark/lru_map.hpp:53-57 | no insertion of any run of any threads finds its table at the maximal load, and so rehashes, if and only if the load of the reserved table fits |
| LruTable.Reserved | src/terark/lru_map.hpp:53-57 | a table reserved for a capacity whose load fits backs an empty map |
| LruTable.Add | src/terark/gold_hash_map.hpp:979-1010 | while keys are unique, the insertion keeps the table and the map of the protocol in step, slot by slot, and changes neither the number of buckets nor of slots |
| LruTable.StartEvict | src/terark/lru_map.hpp:221-231 | the victim leaves its chain and stays in its slot, the table otherwise in step |
| LruTable.EndEvict | src/terark/lru_map.hpp:239-243 | the slot of the victim is freed and taken again for the new key, if that has not come back, again without a rehash or a move |
| LruTable.DropLast | src/terark/lru_map.hpp:150-157 | a failed node is erased from the table by its last thread |
| LruTable.OtherEvents | src/terark/lru_map.hpp:72-172 | every other event leaves the table in step untouched |
| LruLock.MutualExclusion | src/terark/lru_map.cpp:11-41 | at most one owner for any number of threads and any spurious failure, and the word is 0 exactly when nobody owns the lock or is between the subtraction and the store |
| LruLock.InvKept | src/terark/lru_map.cpp:11-41 | every step of every thread keeps the invariant behind that |
| LruLock.Futex.TryLock | src/terark/lru_map.cpp:17-19 | the first compare-and-exchange is one step: the thread owns the lock if and only if the word was 0 and the exchange did not fail without reason |
| LruLock.Futex.MarkWaiter | src/terark/lru_map.cpp:20-28 | marking the word for a waiter is one step: the thread goes to sleep if and only if the word was 1 |
| LruLock.Futex.Subtract | src/terark/lru_map.cpp:35-36 | the subtraction is one step, and the word was at least 1 |
| LruLock.Futex.Clear | src/terark/lru_map.cpp:37-40 | the store of 0 is one step |
| ArenaProtocol.Reachable | src/terark/mempool_thread_cache.cpp:93-415 | in every state that any threads can reach, each unit below the mark has exactly one owner, the lists name exactly the free blocks, each once, every counter is the summed length of its lists, and the pool counter is the sum of what was reported |
| ArenaProtocol.InvKept | src/terark/mempool_thread_cache.cpp:93-415 | every operation of every thread keeps the invariant behind that |
| ArenaProtocol.LiveDisjoint | src/terark/mempool_thread_cache.cpp:93-394 | no two live blocks share a unit, whoever allocated and freed what |
| ArenaProtocol.LiveStaysRuns | src/terark/mempool_thread_cache.cpp:93-394 | a live block keeps its place and length over any run that does not free or resize it |
| ArenaProtocol.AllocFails | src/terark/mempool_thread_cache.cpp:584-662 | when the request fits below the end of the arena it is served: from the cache, or by advancing the mark and then after any interleaving with other threads |
| ArenaProtocol.AdvanceServes | src/terark/mempool_thread_cache.cpp:584-662 | a thread that has advanced the mark is served a block of the requested length, whatever the others do before it goes on |
| ArenaProtocol.FinishKept | src/terark/mempool_thread_cache.cpp:660-661 | what the advance took becomes or extends the hot area and serves the request |
| ArenaProtocol.ChunkLen | src/terark/mempool_thread_cache.cpp:590-606 | the advance covers the request and stays inside the arena whenever the request fits |
| ArenaProtocol.ChunkBorder | src/terark/mempool_thread_cache.cpp:590-606 | the advance ends at the request in whole chunks behind the first chunk border that is not below the mark, or at the end of the arena |
| Arena.SfreeKeeps | src/terark/mempool_thread_cache.cpp:325-394 | a freed span is given to the hot area or to the lists (`ArenaLaws.SfreeFrees` says to which), no block is lost or named twice, and the arena stays tiled |
| Arena.TakeKeeps | src/terark/mempool_thread_cache.cpp:94-282 | whatever serves a request hands out one new live block of that length and disturbs no other live block |
| Arena.TakeAccounts | src/terark/mempool_thread_cache.cpp:83-282 | an allocation moves the counters exactly with the lists |
| Arena.SfreeAccounts | src/terark/mempool_thread_cache.cpp:83-394 | so does a release |
| ArenaLaws.SfreeFrees | src/terark/mempool_thread_cache.cpp:325-394 | a span that ends where the hot area begins joins it, lists and counts as they were; any other span is the first block of the list for its length, the hot area as it was |
| ArenaLaws.TakeServes | src/terark/mempool_thread_cache.cpp:94-282 | exactly when and from where a request is served: its list, the list of twice the length, the hot area, the first huge block; and where the rest of the block goes |
| ArenaLaws.ServedIff | src/terark/mempool_thread_cache.cpp:94-282 | a request needs no advance if and only if the hot area covers it, or a free block of the thread has its length or twice that and a list, or the first huge block covers it |
| ArenaLaws.JoinedServes | src/terark/mempool_thread_cache.cpp:325-333 | after a span has joined the hot area every request up to the joined length is served from the cache |
| ArenaLaws.SetsHot | src/terark/mempool_thread_cache.cpp:396-415 | a new area extends the hot area it follows, or replaces it and the rest is the first block of its list |
| ArenaLaws.FinishServes | src/terark/mempool_thread_cache.cpp:660-661 | when only the new area covers the request, its front or what it extends is handed out |
| ThreadCache.Pool.AllocFast | src/terark/mempool_thread_cache.cpp:94-282 | with the links stored in the freed words, the call is one event of the protocol and writes to no live block; it fails exactly when no source covers the request, and else takes the block of that source |
| ThreadCache.Pool.TakeHalf | src/terark/mempool_thread_cache.cpp:113-136 | a block of twice the length is split; its second half becomes the only one of its list |
| ThreadCache.Pool.TakeLarge | src/terark/mempool_thread_cache.cpp:252-281 | a long request is served from the first huge block, whose rest is freed, or from the hot area |
| ThreadCache.Pool.TryAdvance | src/terark/mempool_thread_cache.cpp:584-606 | one round of the compare-and-exchange loop: full exactly when the request does not fit behind the mark that was read, retried exactly when that is stale or the exchange fails without reason, else advanced by whole chunks |
| ThreadCache.Pool.FinishAdvance | src/terark/mempool_thread_cache.cpp:660-661 | after the advance the request is served, from the new area or the hot area it extends |
| ThreadCache.Pool.Alloc | src/terark/mempool_thread_cache.hpp:196-209 | alone in the pool, a call fails if and only if nothing in the cache covers the request and the arena cannot; otherwise it adds exactly one live block, from the cache if that covers the request |
| ThreadCache.Pool.Release | src/terark/mempool_thread_cache.hpp:219-231 | any thread may free any live block; only words of that block are written; it joins the hot area if it ends there, and else is the first of its list |
| ThreadCache.Pool.SetHotArea | src/terark/mempool_thread_cache.cpp:396-415 | the new area extends the hot area or replaces it, and what is left goes to a list |
| ThreadCache.Pool.Alloc3 | src/terark/mempool_thread_cache.cpp:287-323 | the block at its new place begins with the first min(old, new) words of the old one, no other live block changes; it stays, is cut, moves the border of the hot area, or moves, and fails, exactly when the code does |
| ThreadCache.Pool.Write | src/terark/mempool_thread_cache.cpp:93-415 | a caller writing into its block disturbs no list |
| ThreadCache.StoredFrame | src/terark/mempool_thread_cache.cpp:93-394 | lists threaded through freed words survive every write outside free blocks |
| PoolRuns.WordsStay | src/terark/mempool_thread_cache.cpp:93-415 | the words of a live block outlast any run of any threads that does not free, resize or write it |
| PoolRuns.CopyAmidOthers | src/terark/mempool_thread_cache.cpp:287-323 | a copy word by word, each read when it is written, with turns of other threads in between, ends with the old words |
| PoolRuns.MoveAmidOthers | src/terark/mempool_thread_cache.cpp:287-323 | the block moved by a resize holds the old words although other threads act before the copy, between any two of its words, and after it |
| GoldHash.Table.Find | src/terark/gold_hash_map.hpp:1144-1157 | the slot of the key, or the end if and only if it is not there |
| GoldHash.Table.LazyInsert | src/terark/gold_hash_map.hpp:913-937 | inserts exactly a missing key, at the slot that free list or end give; a table at its maximal load gets the next prime number of buckets, below it none; full arrays are doubled, others do not move |
| GoldHash.Table.RiskSlotAlloc | src/terark/gold_hash_map.hpp:1060-1083 | a slot that no chain reaches: the first free one when reuse is on, else a new one |
| GoldHash.Table.Relink | src/terark/gold_hash_map.hpp:153-237 | rebuilds all chains from the elements, deleted slots left out |
| GoldHash.Table.Rehash | src/terark/gold_hash_map.hpp:483-505 | the next prime bucket count, same contents |
| GoldHash.Table.Reserve | src/terark/gold_hash_map.hpp:508-511 | room for the capacity with the contents kept; the capacity is below the maximal load if and only if the load fits |
| GoldHash.Table.Erase | src/terark/gold_hash_map.hpp:1204-1219 | removes exactly the key; reports whether it was there |
| GoldHash.Table.EraseI | src/terark/gold_hash_map.hpp:1326-1332 | removes exactly the key of the slot |
| GoldHash.Table.RiskUnlink | src/terark/gold_hash_map.hpp:1306-1324 | the slot leaves its chain and keeps its element |
| GoldHash.Table.FastSlotFree | src/terark/gold_hash_map.hpp:1288-1301 | an unlinked slot becomes the first free one; the table is compacted if and only if auto gc and reuse are on and more than half of the slots are free then; the map stays |
| GoldHash.Table.KeepIdEraseIf | src/terark/gold_hash_map.hpp:859-884 | exactly the entries that the predicate rejects remain, in their order; they stay in their slots unless auto gc is on and more than half of the slots are free at the end |
| GoldHash.Table.RevokeDeleted | src/terark/gold_hash_map.hpp:886-892 | compaction keeps the map and the order of the slots and leaves no deleted slot |
| GoldHash.Table.RevokeDeletedNoRelink | src/terark/gold_hash_map.hpp:1255-1287 | each live element moves to its rank among the live ones |
| GoldHash.LinkHead | src/terark/gold_hash_map.hpp:930-935 | hanging an element at the head of its bucket keeps every chain acyclic and in its bucket |
| GoldHash.Unlink | src/terark/gold_hash_map.hpp:1310-1324 | taking it off keeps all other slots on exactly their chains |
| GoldHash.OneOwner | src/terark/gold_hash_map.hpp:1060-1083 | every slot is either on the free list or in the table |
| GoldHash.FreeSlot | src/terark/gold_hash_map.hpp:1288-1301 | a freed slot carries the free list link and the deletion mark, and the chains stay |
| GoldHash.Compacted | src/terark/gold_hash_map.hpp:1255-1287 | after compaction the contents, the order and the count are what they were |
| GoldHash.NextPrime | src/terark/hash_common.cpp:8-58 | at least the request, for requests up to the largest table entry |
| GoldHash.EnoughBuckets | src/terark/gold_hash_map.hpp:503-511 | for every capacity and load factor, the maximal load after `reserve` covers the capacity if and only if the load fits into 32 bits before it is stored, apart from five cases right below the largest |
| GoldHash.ReserveTooLarge | src/terark/gold_hash_map.hpp:503-511 | a capacity of 3100000000 with the default load factor gets a maximal load of 1711276025 |
| GoldHash.DefaultLoad | src/terark/gold_hash_map.hpp:503-511 | with the default load factor the maximal load covers the capacity if and only if that is at most 3003121660 |
| LoserTree.LoserTree.Start | src/terark/set_op.hpp:637-680 | every inner node stores the loser of the match between the winners of its subtrees, for any number of ways |
| LoserTree.LoserTree.Ajust | src/terark/set_op.hpp:745-756 | after the key of the head way changed, the climb restores that for the whole tree |
| LoserTree.LoserTree.Increment | src/terark/set_op.hpp:734-739 | the head way moves on by one and the tree is right again |
| LoserTree.LoserTree.SubtreeWinner | src/terark/set_op.hpp:773-781 | no way below a node beats the winner of the node |
| LoserTree.LoserTree.Winner | src/terark/set_op.hpp:804-839 | the head has the least key, and with stable order the least way among equal ones |
| LoserTree.BeatsOrder | src/terark/set_op.hpp:804-839 | the comparison that treats sentinels apart is transitive enough to order all ways |
| LoserTree.LoserTree.Merge | src/terark/multi_way_basic.hpp:25-30 | the output is all elements before the sentinels, each once, sorted, with stable order by ways |
| LoserTree.MergeAll | src/terark/multi_way_basic.hpp:25-30 | start and merge on any sorted ways give exactly their elements in order |
| LoserTree.LoserTree.UnionSet | src/terark/multi_way_algo_loser_tree.hpp:131-148 | the sorted distinct union |
| LoserTree.LoserTree.KeyToEqualCount | src/terark/multi_way_algo_loser_tree.hpp:171-189 | each key with its exact number of occurrences |
| LoserTree.LoserTree.Intersection32 | src/terark/multi_way_algo_loser_tree.hpp:81-107 | exactly the keys of all ways, duplicates or not, with one bit of a 32-bit word per way |
| LoserTree.LoserTree.IntersectionN | src/terark/multi_way_algo_loser_tree.hpp:58-79 | exactly the keys that occur as often as there are ways |
| LoserTree.TotalAll | src/terark/multi_way_algo_loser_tree.hpp:48-79 | on ways without duplicates that is the intersection |
| ReplaceSelect.HoleDown | src/terark/heap_ext.hpp:27-44 | the hole sinks to a leaf along least children; with the value put into it the elements are the same |
| ReplaceSelect.HoleUp | src/terark/heap_ext.hpp:17-25 | the value rises to where the heap order holds again |
| ReplaceSelect.AdjustHeap | src/terark/heap_ext.hpp:46-52 | the heap order holds from the top on, for the elements with the value in place of the top |
| ReplaceSelect.TopLeast | src/terark/heap_ext.hpp:17-52 | the top of a heap is a least element |
| ReplaceSelect.Select | src/terark/replace_select_sort.hpp:66-88 | one element is read: the top of the heap is written, the new element takes its place or, if it is less, is set aside; all that is set aside is less than the last element of the run |
| ReplaceSelect.ReplaceSelectSort | src/terark/replace_select_sort.hpp:44-95 | the runs are sorted and together the input; every run but the last is at least as long as the buffer, and every run starts below the last element of the one before, so that sorted input gives one run |
| RadixSort.StableSort | src/terark/radix_sort.cpp:212-254 | the list that the sort builds is a permutation of the indices in lexicographic order with a proper prefix first, equal keys by index |
| RadixSort.LevelSorted | src/terark/radix_sort.cpp:212-254 | before each level the keys long enough for it are sorted by what follows |
| RadixSort.GatherSorted | src/terark/radix_sort.cpp:126-189 | distribution by a position of a list sorted by what follows sorts it by that position |
| RadixSort.Sorter.Distribute | src/terark/radix_sort.cpp:126-165 | each bucket links the elements with its code in their order |
| RadixSort.Sorter.Collect | src/terark/radix_sort.cpp:167-189 | the buckets in order of code become one list |
| RadixSort.Sorter.SortKeylen | src/terark/radix_sort.cpp:61-124 | the keys by length, one list for each length |
| RadixSort.Sorter.Sort | src/terark/radix_sort.cpp:212-254 | the stored links are the sorted list, for any mix of lengths, gaps and empty keys included |
| RadixSort.Sorter.Addresses | src/terark/radix_sort.cpp:284-296 | the addresses are the sorted list as an array |
| RadixSort.Rearrange | src/terark/radix_sort.cpp:284-323 | following cycles in place puts every object where the addresses say |
| RadixSort.SortObjects | src/terark/radix_sort.cpp:212-323 | the objects end up as a stable sorted permutation of the input |
| PackedInts.FastGetsField | src/terark/int_vector.hpp:208-222 | one unaligned load reads the field whenever the field fits into it |
| PackedInts.OneLoadWidths | src/terark/int_vector.hpp:152-159 | the widths at which it always fits are those up to 58, and 60 and 64 |
| PackedInts.FastGetMisses | src/terark/int_vector.hpp:209-222 | where it does not fit, the top bit of the field is lost |
| PackedInts.GetsField | src/terark/bitmap.hpp:492-504 | the two-word read is the field |
| PackedInts.SetsField | src/terark/bitmap.cpp:594-619 | the write makes the field the value and changes no other bit |
| PackedInts.SetsElement | src/terark/int_vector.hpp:57-64 | setting an element changes that element and no other |
| PackedInts.TouchesInside | src/terark/int_vector.hpp:89-95 | every word that reading or writing an element touches lies in the memory of the computed size |
| PackedInts.UintbitsLeast | src/terark/int_vector.hpp:97-103 | the computed width is the least that holds the value |
| PackedInts.UintVec.SetWire | src/terark/int_vector.hpp:57-64 | the contents with one element replaced |
| PackedInts.UintVec.Get | src/terark/int_vector.hpp:209-222 | the element last set, by one load |
| PackedInts.UintVec.GetBig | src/terark/int_vector.hpp:252-260 | the same by two words, for any width |
| PackedInts.UintVec.Resize | src/terark/int_vector.cpp:82-88 | the remaining elements keep their values, and a new one is 0 if and only if its bits in the memory that stays are clear |
| PackedInts.UintVec.BuildFrom | src/terark/int_vector.hpp:112-133 | minimum plus element is the source value everywhere, in the narrowest width |
| PackedInts.UintVec.LowerBound | src/terark/int_vector.cpp:225-243 | on a sorted range the first position not less than the key; on any contents a boundary |
| PackedInts.UintVec.UpperBound | src/terark/int_vector.cpp:245-263 | on a sorted range the first position greater than the key |
| PackedInts.UintVec.EqualRange | src/terark/int_vector.cpp:201-222 | both bounds of the key at once |
| SkipList.LevelPath | src/terark/mempool_lock_none.hpp:259-268 | following the links of a level visits exactly the blocks of that level, in order |
| SkipList.LevelThins | src/terark/mempool_lock_none.hpp:350-372 | each level is part of the level below it |
| SkipList.LevelOrdered | src/terark/mempool_lock_none.hpp:350-372 | each level is sorted by size |
| SkipList.LevelZero | src/terark/mempool_lock_none.hpp:350-372 | level 0 is the whole list |
| SkipList.InsertLevel | src/terark/mempool_lock_none.hpp:366-371 | the two writes for a level put the block in its place there |
| SkipList.PointsIff | src/terark/mempool_lock_none.hpp:274-276 | the node before a block leads to it on a level if and only if the block is on that level |
| SkipList.RemoveLevel | src/terark/mempool_lock_none.hpp:274-276 | the write for a level takes the block out there |
| BestFit.MemPool.FindUpdate | src/terark/mempool_lock_none.hpp:259-268 | the last shorter node of every level, and the first block that is long enough |
| BestFit.MemPool.InsertHuge | src/terark/mempool_lock_none.hpp:350-374 | for any random level the list gains the block in order of size |
| BestFit.MemPool.RemoveHuge | src/terark/mempool_lock_none.hpp:269-278 | the list loses the block on all its levels, and empty top levels are given up |
| BestFit.Fitting | src/terark/mempool_lock_none.hpp:254-292 | the block found is a shortest one that is long enough, and none found means none fits |
| BestFit.MemPool.Alloc | src/terark/mempool_lock_none.hpp:232-293 | the arena stays divided into live and free blocks; a long request gets a shortest free block that fits, its rest freed, and grows the arena only if none fits |
| BestFit.MemPool.Release | src/terark/mempool_lock_none.hpp:328-377 | the block is free, or the arena ends before it |
| BestFit.MemPool.Alloc3 | src/terark/mempool_lock_none.hpp:295-326 | a resized block keeps its first words; the last one of the arena grows and shrinks in place, others give back their end or move to a shortest free block that fits, and to the end of the arena only if none does; the whole division follows |
| StrOrder.KeyLess | src/terark/hash_strmap.hpp:77-91 | the accelerated comparison is the lexicographic order of unsigned bytes, for all keys, embedded zeros and short keys included |
| StrOrder.PrefixDecides | src/terark/hash_strmap.hpp:2650-2670 | what padded byte-swapped prefixes, then lengths, decide about the order |
| StrOrder.LessAlign | src/terark/fstring.hpp:726-741 | comparing by aligned words and then bytes is lexicographic order |
| StrOrder.SwapOrder | src/terark/hash_strmap.hpp:2660-2668 | byte-swapped loads compare as numbers the way the bytes do |
| StrPool.StrMap.KeyAt | src/terark/hash_strmap.hpp:2323-2333 | returns the bytes that were inserted |
| StrPool.StrMap.Place | src/terark/hash_strmap.hpp:1689-1703 | the key gets a slot exactly when a deleted slot on a list serves it or there is room; then the map of slots gains exactly this key, in a deleted slot of the same size, or a new one, or a new one after compaction |
| StrPool.StrMap.AllocSlot | src/terark/hash_strmap.hpp:1990-2021 | a slot of exactly the size, the slots still tiling the pool; in closed form when there is one, when a check stops the program, and that a deleted slot is reused whenever one serves |
| StrPool.StrMap.GcOnFull | src/terark/hash_strmap.hpp:2068-2091 | the check passes exactly on its bound; it compacts exactly without lists when half of the pool and the request are free, else the pool grows; there is room then exactly when one of both gives enough |
| StrPool.GuardTooWeak | src/terark/hash_strmap.hpp:2070-2075 | a pool at its largest size with free lists passes the check and gets no room |
| StrPool.StrMap.AllocInHugelist | src/terark/hash_strmap.hpp:2041-2065 | one of the first five slots of the list with exactly the size is taken off it, or none of them has it |
| StrPool.StrMap.SlotFree | src/terark/hash_strmap.hpp:2105-2145 | the map loses exactly this slot; without lists the map is compacted if and only if auto compaction is on and half of the slots are deleted by now, else no key moves; with lists the slot is the first of the list for its size |
| StrPool.StrMap.RevokeNoRelink | src/terark/hash_strmap.hpp:1528-1581 | all live keys remain, in their order and without gaps, and the pool shrinks by what was free |
| StrPool.StrMap.EnableFreelist | src/terark/hash_strmap.hpp:2180-2256 | for any old and new number of lists every deleted slot ends on the list for its size, and no key moves |
| StrPool.StrMap.ShrinkLists | src/terark/hash_strmap.hpp:2191-2213 | lists that are given up are put before the one for large sizes |
| StrPool.StrMap.EnlargeLists | src/terark/hash_strmap.hpp:2227-2254 | new lists take exactly their sizes out of the list for large sizes |
| StrPool.PackedKeys | src/terark/hash_strmap.hpp:1528-1581 | compaction gives every live key its rank |
| StrPool.LaidKey | src/terark/hash_strmap.hpp:1696-1698 | the layout with the surplus in the last byte reads back as the key |
| StrPool.SetLinkKeeps | src/terark/hash_strmap.hpp:1974-1988 | a link written over the bytes of a deleted slot reads back, and all other slots keep their bytes |

## Left out

- The SSE comparison of `add_child16` is signed; the model has the portable loop.
- `art_iter_prefix` and `art_maximum`.
- Allocation failure, `realloc` failure, huge pages, `madvise`, sanitizers, debug fills, serialization, statistics and printing.
- Integers are unbounded except where a width decides: link marks, 32-bit maximal loads, key surplus bytes, words and masks.
- ArtTree.Tree.Insert: keys must be prefix-free, which the code does not check; otherwise it branches on a byte behind the end of a key, and what the tree then is depends on that byte.
- ArtTree.RecursiveInsert: likewise.
- ArtTree.SplitLeaf: likewise for the two keys of the new node.
- `LruProtocol`: liveness of the futex lock, which a lost wake-up can break, and of `wait_solve` are not claimed.
- `LruProtocol`: changing the capacity while threads are at work, and the capacity of the variant on `lru_hash_strmap` are not modelled.
- LruMap.LruMap.LruGet: which of two entries with one key the table finds is arbitrary, because the chains are not part of that model.
- LruTable.EndEvict: `GoldHash` has unique keys, so a run that gives a key two entries is followed on the table only up to that event.
- ThreadCache.Pool.Alloc: the whole call is stated for a thread that is alone; with other threads in between see `ArenaProtocol.AllocFails`.
- ThreadCache.Pool.Alloc3: likewise; with other threads in between see `PoolRuns.MoveAmidOthers`.
- Rounding of requested bytes to `AlignSize` and the truncation of huge lengths to the link type in both pools; `tc_populate`, `sync_frag_size_full` and the disabled skip list of the thread caches.
- BestFit.MemPool.Alloc: `fragment_size` and `huge_size_sum` are not kept, because splitting a huge block subtracts only the request; the caller keeps offsets below the end mark of the lists.
- BestFit.MemPool.Alloc3: likewise.
- `src/terark/mempool_lock_free.hpp`, `src/terark/mempool_lock_mutex.hpp` and `src/terark/mempool_fixed_cap.hpp`.
- GoldHash.Table.Rehash: requires that no unlinked slot is outstanding, since relinking would hang it into the table again.
- GoldHash.Table.LazyInsert: the same when the table is at its maximal load; and when the arrays are full, doubling them must stay below the deletion mark, where the program stops.
- The cache of hash values, `erase_if`, hinted insertion, `risk_insert_on_slot` and sorting of the hash table.
- StrPool.StrMap.Place: the bucket chains of the string map are not modelled, they work as those of `GoldHash`; the caller has found that the key is missing, and enlarging the pool succeeds.  When the new slot would end behind the pool, nothing is said of what follows.
- `keepid_erase_if`, `erase_if`, sorting and value storage of the string map.
- Keys and elements of the sorts and merges are integers, and the comparators are the order of integers; `std::sort` and `std::make_heap` are modelled by what they guarantee, not by their code.
- `start_yan_wu`, `copy_if`, `intersection_size`, `HeapMultiWay`, the heap functions with index synchronization, and `radix_sort_tpl`.
- `push_back` and the file builders of the packed vector, `ZipIntVector`, `bitfield_array`, and the bounds of `BigUintVecMin0`, which are the same loops on the two-word read.
- Circular queues, `fstring` parsing, number formatting and the other small utilities.
