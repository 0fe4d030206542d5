# Verified model of the vhwd core

This project models the parts of the vhwd C++ library whose correctness is hard to see from any single
function body, and proves what each part is for. `dafny verify dfyconfig.toml` checks everything.

## What is modelled

**Paging memory pool** (`src/vhwd/memory/mempool_*`). `SizeClasses` has the fixed size classes, the span
layout and the two lookup tables. `PageMap` has the flat 32-bit page map and the two-level 64-bit one.
`PoolSpec` is the pool on values: which span, cache list or caller owns each block. `PoolInv` proves that every
step keeps the ownership invariant, `PoolOps` builds the public operations from those steps, and
`PoolTheorems` says what holds after any run of them. `PoolRep` and `PoolRepSteps` say how span descriptors,
`nd_next` words, list heads and buckets in memory represent that state, and `PoolBytes` what the pages hold: the
pool's words in blocks nobody holds, and callers' bytes in theirs. `MemPool` is the pool itself, a class whose
methods carry out the pointer operations on that memory, are proved equal to the functions of `PoolOps`, and are
proved to change no byte of a block in another caller's hands.

**Script code generator** (`src/vhwd/scripting/codegen_generator*`). `ScriptMachine` is the stack machine of
the dispatch loop in `src/vhwd/scripting/variant_code.cpp`, one instruction a step. `ScriptOps` is the table of
binary operators. `ScriptExpr` and `ScriptAssign` treat expressions and multiple assignment, `ScriptStmt` gives
statements a structured meaning and describes their code with symbolic exits, `ScriptShape` shows where jumps may
go, and `ScriptSim` proves that code and meaning agree, for runs that stop and runs that do not. `ScriptGen` is
the generator: a class that appends instructions, remembers jumps in its two stacks of jump lists and patches them.
`ScriptAccept` says which programs it refuses, by the controls and switches in them and what stands around those.
`LocalScopes` has the slot numbering of block-scoped locals, and `ScriptNames` the programs as written, with names:
their meaning on a stack of environments, and that the code with slots keeps it. `ScriptLaws` and
`ScriptNameLaws` check the two meanings themselves on programs whose outcome the language fixes. Operators, truth
tests and constants are arbitrary, so the results hold for any choice of them.

**Queues** (`inc/vhwd/collection/lockfree_queue.h`). `LockFreeQueue` has any number of threads in `getq`, `putq`
(single and batch) and `rewind`, every shared access a step of its own, and `LockFreeCalls` says what each call
answers; `SrswQueue` has the queue with one reader and one writer. Both are proved to be an atomic bounded FIFO
under every interleaving. `Bits` and `Ring` hold the mask arithmetic they share with the byte ring.

**Mark-sweep collector** (`src/vhwd/memory/gc_ptr.cpp`, `inc/vhwd/memory/gc_ptr.h`). `GcGraph` defines
reachability and exploration past stale marks, `GcRoots` is the doubly linked list of registered pointers, and
`Gc` the collector with its two pending queues and its list-rebuilding sweep.

**Q2Packet** (`inc/vhwd/net/q2packet.h`). What a byte stream means, and the class that keeps a partial packet
between chunks, proved to report just that.

**Byte ring** (`src/vhwd/collection/collection.cpp`, `src/vhwd/net/overlapped.cpp`). `ByteRing` is the class with
its descriptors for overlapped I/O; `RingThreads` interleaves one sender and one receiver access by access.

**CRC-32** (`src/vhwd/basic/hashing.cpp`). `Crc32` connects the compile-time table, the word-at-a-time loops and
the bitwise definition behind section 8 of RFC 1952, and proves that bursts are detected; `PacketCheck` draws the
consequence for `IPacket`.

**AtomicMutex**, **arr_xt**, **UTF-8** (`inc/vhwd/basic/atomic.h`, `inc/vhwd/collection/arr_xt.h`,
`src/vhwd/basic/codecvt.cpp`). The recursive lock as steps of any number of threads; six-dimensional index
arithmetic and `resize`; and the two conversion loops for 16-bit units against section 3 of RFC 3629.

Code that changes things step by step is a class or a method with loops, tied by its contract to a function;
what the source promises is then proved about that function. Addresses of new pages, thread schedules, chunk
boundaries and the bytes the network delivers are parameters; a page run handed to the pool overlaps nothing
mapped.

## Where the code falls short of what it is for

Each of these is proved, with the exact condition under which the code does meet the property.

- `realloc` of a block above 1 MB whose descriptor lies outside its pages takes the block to be 64 bytes smaller
  than it is; when such a block has to move, the caller's bytes behind that size become zero
  (`MemPool.MpAllocGlobal.Realloc`, `PoolTheorems.WhoLosesBytes`, `MemPool.TwoMegabytesLoseTheirTail`).
- The 64-bit page map does not find addresses of a span that runs on into a level-2 table never allocated
  (`PageMap.TwoLevelsAgree`, `PoolRep.TwoLevelsFindBlocks`, `PageMap.StraddlingSpanIsLost`).
- Batch `putq` leaves without giving back its key when the queue has room for some of the batch but not for all
  and QUEUE_PARTIAL is clear; no `putq` or `rewind` ever gets the key again (`LockFreeQueue.LeaksIffTooMany`,
  `LockFreeQueue.LeakStopsPuts`).
- A collection cut short by an exception leaves its marks, and the next one, unless it is forced, can then destroy
  reachable objects (`Gc.LeftoverMark`, `Gc.GcState.CollectTwice`, `GcGraph.ExactIffNoStale`).
- `break3` is always refused: the test meant for it asks for `break2` a second time
  (`ScriptGen.CodeGen.VisitControl`).
- The operator `^` is entered in the table twice and means exclusive or; nothing means the power
  (`ScriptOps.CaretIsXor`).
- Integer literals are cut to 32 bits (`ScriptExpr.LiteralSurvives`).
- With packet sizes that are no multiple of the word size, padding can need more than twice the largest packet:
  exactly when the packets of a chunk, padded, and what is left over add up to more (`Q2Packet.Buffer.Update`,
  `Q2Packet.PaddingNeedsMore`).
- A shape whose element count wraps to exactly zero passes the overflow test (`ArrXt.RejectedIff`,
  `ArrXt.WrapsToZero`).
- The UTF-8 decoder reads behind its input exactly when that ends inside a character (`Utf8.Utf8ToUnicode`).
- With 32-bit units the decoder keeps a lead bit and a three-byte character does not come back
  (`Utf8.Units32`).

## Assumptions

64-bit pointers and a little-endian machine; sequential consistency for the queues, the ring and the lock;
counters that do not wrap; pages that page_alloc returns hold zeros; a power-of-two ring capacity, which
`sz_helper::n2p` is taken to give.

## Model

| member | source | states |
|---|---|---|
| SizeClasses.LayoutFits | src/vhwd/memory/mempool_slot.cpp:30-46 | For every size class the blocks and the in-span descriptor fit in 1 MB, there is at least one block, and one more would not fit |
| SizeClasses.LeastFitIsLeast | src/vhwd/memory/mempool_impl.h:344-357 | LeastFit(n) is the smallest class whose blocks hold n bytes; every class that holds n is at least it |
| SizeClasses.SlotTables.constructor | src/vhwd/memory/mempool_paging.cpp:19-49 | After init both lookup tables hold, in every slot, the class get_slot has to answer for it |
| SizeClasses.SlotTables.GetSlot | src/vhwd/memory/mempool_impl.h:344-357 | The table lookup gives the least fitting class for every request size, and none exactly above 1 MB |
| SizeClasses.RoundSmall | src/vhwd/memory/mempool_impl.h:346-350 | Rounding a request up to 8 bytes does not change its least fitting class |
| SizeClasses.RoundLarge | src/vhwd/memory/mempool_impl.h:351-355 | Rounding a request above 4096 up to 4096 bytes does not change its least fitting class |
| PageMap.FindsTheSpan | src/vhwd/memory/mempool_impl.h:206-257 | On a map of non-overlapping spans find_bucket answers bucket i exactly when span i covers the address and the address lies in its base bucket or the next |
| PageMap.InsertNeverCollides | src/vhwd/memory/mempool_impl.h:192-197 | A span disjoint from all filed spans finds its bucket empty, and filing it keeps the map well formed: the insertion assertion never fails |
| PageMap.RadixPageMap64.Insert | src/vhwd/memory/mempool_pgmap.cpp:6-11 | Inserting into the two-level map adds just that bucket to the flat map it stands for, allocating the level-2 table if needed |
| PageMap.RadixPageMap64.Remove | src/vhwd/memory/mempool_pgmap.cpp:13-18 | Removing clears just that bucket of the flat map |
| PageMap.RadixPageMap64.Find | src/vhwd/memory/mempool_pgmap.cpp:20-106 | The two-level search with its carry into the previous table computes TwoLevelFind of the flat map |
| PageMap.TwoLevelsAgree | src/vhwd/memory/mempool_pgmap.cpp:20-106 | The two-level and the flat search answer alike for every address if and only if no span runs on into a level-2 table that was never allocated |
| PageMap.StraddlingSpanIsLost | src/vhwd/memory/mempool_pgmap.cpp:27-30 | A concrete span whose tail the 64-bit form does not find |
| PoolInv.CreateKeepsInv | src/vhwd/memory/mempool_paging.cpp:326-371 | A new span keeps the ownership invariant: its blocks are new, it is disjoint from all others and becomes the head of its empty class list |
| PoolInv.TakeOneKeepsInv | src/vhwd/memory/mempool_paging.cpp:251-282 | Handing out the first free block of the first span keeps the invariant, a span that becomes full leaving its list |
| PoolInv.TakeAllKeepsInv | src/vhwd/memory/mempool_paging.cpp:124-153 | Moving a whole free list into an empty thread cache keeps the invariant and leaves the cache non-empty |
| PoolInv.PopKeepsInv | src/vhwd/memory/mempool_cached.cpp:50-69 | Handing out the first cached block keeps the invariant |
| PoolInv.PushCacheKeepsInv | src/vhwd/memory/mempool_cached.cpp:87-91 | Caching a freed block keeps the invariant |
| PoolInv.PushFreeKeepsInv | src/vhwd/memory/mempool_paging.cpp:200-213 | Returning a block to its span keeps the invariant, a span that was full returning to its class list |
| PoolInv.UnmapKeepsInv | src/vhwd/memory/mempool_paging.cpp:221-247 | Unmapping a span all of whose blocks are free keeps the invariant |
| PoolInv.GiveBackKeepsInv | src/vhwd/memory/mempool_paging.cpp:192-248 | A whole deallocation keeps the invariant, whichever branch it takes |
| PoolInv.IdleIsAllFree | src/vhwd/memory/mempool_paging.cpp:215-219 | A span holds at most Count free blocks, and one with nd_nnum 0 has every one of its blocks on its own free list |
| PoolOps.Alloc | src/vhwd/memory/mempool_impl.h:369-380 | Allocation keeps all invariants, returns an address nobody holds, and adds exactly it to what callers hold; no size class has smaller blocks that hold the request, and above 1 MB less than a page is wasted |
| PoolOps.Release | src/vhwd/memory/mempool_impl.h:403-413 | Deallocation removes exactly that block from what callers hold and touches no cache |
| PoolOps.ReturnBatch | src/vhwd/memory/mempool_paging.cpp:52-121 | A batch return drops exactly the first n blocks of one cache list (all if fewer) and changes nothing callers hold |
| PoolOps.CachedAlloc | src/vhwd/memory/mempool_cached.cpp:50-69 | Cached allocation, with batch refill, keeps all invariants and hands out one block nobody held, of the least size that holds the request |
| PoolOps.CachedFree | src/vhwd/memory/mempool_cached.cpp:71-98 | Cached deallocation removes exactly that block from what callers hold; its cache list is then the block and what it held before, halved if that is more than nd_nmax, and no other list changes |
| PoolOps.CleanFrom | src/vhwd/memory/mempool_cached.cpp:20-33 | cleanup empties every cache list of the thread and no other, without touching what callers hold |
| PoolOps.Sweep | src/vhwd/memory/mempool_paging.cpp:388-433 | The walk over one class list unmaps exactly its spans without a block in use |
| PoolOps.Gc | src/vhwd/memory/mempool_paging.cpp:375-437 | gc keeps all invariants and what callers hold; the spans left are those of the cleaned pool without its idle ones |
| PoolOps.GcLeavesNoIdleSpan | src/vhwd/memory/mempool_paging.cpp:375-437 | After gc no idle span is mapped, every span that went was idle, and every other is unchanged |
| PoolOps.GiveBackIdle | src/vhwd/memory/mempool_paging.cpp:88-102 | After any deallocation every span but the last of its class list has a block in use |
| PoolOps.Realloc | src/vhwd/memory/mempool_impl.h:382-401 | realloc keeps all invariants and leaves callers with the same blocks except that the old one is replaced by one for n bytes; the block stays if and only if n does not exceed the capacity realloc assumes, and otherwise the new one has the least size |
| PoolTheorems.Step | src/vhwd/memory/mempool_impl.h:369-413 | Every public operation, enabled as its callers must see to, keeps the invariants |
| PoolTheorems.RunsStayGood | src/vhwd/memory/mempool_impl.h:315-414 | The invariants hold after every run of public operations |
| PoolTheorems.EmptyGood | src/vhwd/memory/mempool_paging.cpp:19-49 | The pool after init satisfies them |
| PoolTheorems.ExactlyOnePlace | src/vhwd/memory/mempool_paging.cpp:52-282 | Conservation: every block of every mapped span is in exactly one of its own span's free list, one thread's cache list of its class, or a caller's hands, and only once |
| PoolTheorems.HandedInside | src/vhwd/memory/mempool_paging.cpp:326-371 | A handed-out block is as big as asked for, inside its span's pages and clear of the in-span descriptor |
| PoolTheorems.AllocReuses | src/vhwd/memory/mempool_paging.cpp:251-282 | An allocation maps no new span while a span of the least size that holds the request has a free block; it hands out a block that was free |
| PoolTheorems.HandedOutDisjoint | src/vhwd/memory/mempool_paging.cpp:251-282 | Blocks in callers' hands never overlap |
| PoolTheorems.CountsAgree | src/vhwd/memory/mempool_paging.cpp:267-273 | The blocks handed out or cached and the free list together number nd_nall for every span |
| PoolTheorems.AtMostOneIdleSpan | src/vhwd/memory/mempool_paging.cpp:215-219 | At most one span of each class is mapped with no block in use |
| PoolTheorems.UnmappedOnlyWhenIdle | src/vhwd/memory/mempool_paging.cpp:192-248 | A span that a free unmaps had all its other blocks on its own free list |
| PoolTheorems.WhoLosesBytes | src/vhwd/memory/mempool_paging.cpp:165-168 | Only a large block whose descriptor lies outside its pages can exceed that size |
| PoolTheorems.FreshFlyBlockLosesBytes | src/vhwd/memory/mempool_paging.cpp:284-323 | A large block does so as allocated exactly when its descriptor lies outside its pages |
| PoolRep.BlockFindsSpan | src/vhwd/memory/mempool_impl.h:206-257 | In a represented pool the page map finds the right span for every block |
| PoolRep.LinkedCut | src/vhwd/memory/mempool_paging.cpp:221-230 | Cutting a span out of a doubly linked class list leaves a well-formed list of the others with the right head |
| PoolRep.LinkedFront | src/vhwd/memory/mempool_paging.cpp:204-213 | Putting a span in front keeps the doubly linked list well formed |
| PoolRep.TwoLevelsFindBlocks | src/vhwd/memory/mempool_pgmap.cpp:20-106 | With the two-level map every block is found as with the flat one if and only if no block lies in a level-2 table that was never allocated |
| PoolBytes.BlocksApart | src/vhwd/memory/mempool_paging.cpp:251-282 | No word of memory belongs to two blocks |
| PoolBytes.OwnWords | src/vhwd/memory/mempool_paging.cpp:251-282 | Whatever a caller writes in its block, memory still represents the pool and every other caller keeps its bytes |
| PoolBytes.KeptIff | src/vhwd/memory/mempool_paging.cpp:186-186 | Of bytes of which the first n0 are copied and zeros follow, all are kept if and only if none behind those n0 was other than zero |
| PoolRepSteps.CreateRep | src/vhwd/memory/mempool_paging.cpp:359-370 | The words, descriptor, bucket and head written by create_span_nolock represent the pool after CreateSpan |
| PoolRepSteps.TakeOneRep | src/vhwd/memory/mempool_paging.cpp:267-278 | The pointer updates of alloc_small represent TakeOne |
| PoolRepSteps.TakeAllRep | src/vhwd/memory/mempool_paging.cpp:138-148 | The pointer updates of alloc_small_batch represent TakeAll |
| PoolRepSteps.PushFreeRep | src/vhwd/memory/mempool_paging.cpp:200-213 | The pointer updates of a deallocation represent PushFree |
| PoolRepSteps.UnmapRep | src/vhwd/memory/mempool_paging.cpp:221-247 | Unlinking, clearing the bucket and freeing the pages represent Unmap |
| PoolRepSteps.TakeLargeRep | src/vhwd/memory/mempool_paging.cpp:284-323 | The descriptor and bucket of a large block represent TakeLarge |
| PoolRepSteps.FreeLargeRep | src/vhwd/memory/mempool_paging.cpp:235-247 | Clearing them represents FreeLarge |
| MemPool.MpAllocGlobal.constructor | src/vhwd/memory/mempool_paging.cpp:19-49 | The initial memory represents the empty pool |
| MemPool.MpAllocGlobal.NewThread | src/vhwd/memory/mempool_cached.cpp:6-18 | A new thread's links represent empty cache lists |
| MemPool.MpAllocGlobal.LinkNodes | src/vhwd/memory/mempool_slot.cpp:6-27 | link threads the nodes of a span into one list in address order, ending in NULL |
| MemPool.MpAllocGlobal.FindSpan | src/vhwd/memory/mempool_impl.h:206-257 | The lookup returns the span that owns a block, and NULL only for addresses that are no block |
| MemPool.MpAllocGlobal.CreateSpanNolock | src/vhwd/memory/mempool_paging.cpp:326-371 | The pointer code performs CreateSpan on zeroed pages and writes nothing elsewhere |
| MemPool.MpAllocGlobal.AllocSmall | src/vhwd/memory/mempool_paging.cpp:251-282 | The pointer code hands out the head block and performs TakeOne on the refilled pool |
| MemPool.MpAllocGlobal.AllocLarge | src/vhwd/memory/mempool_paging.cpp:284-323 | The pointer code performs TakeLarge |
| MemPool.MpAllocGlobal.Alloc | src/vhwd/memory/mempool_impl.h:369-380 | The pointer code performs PoolOps.Alloc, returns the address it names, of the least size that holds the request, and changes no byte of a block in a caller's hands |
| MemPool.MpAllocGlobal.ReturnNode | src/vhwd/memory/mempool_paging.cpp:73-117 | The code dealloc_real and dealloc_batch_nolock share performs GiveBack, including when and how the span is unmapped, and changes no byte of any other block in a caller's hands |
| MemPool.MpAllocGlobal.DeallocReal | src/vhwd/memory/mempool_paging.cpp:192-248 | The pointer code performs Release |
| MemPool.MpAllocGlobal.Dealloc | src/vhwd/memory/mempool_impl.h:403-413 | The pointer code performs Release for a handed-out block, and changes nothing for an address in no span, and changes no byte of any other block in a caller's hands |
| MemPool.MpAllocGlobal.AllocSmallBatch | src/vhwd/memory/mempool_paging.cpp:124-153 | The pointer code performs TakeAll on the refilled pool and reports its length |
| MemPool.MpAllocGlobal.CachedAlloc | src/vhwd/memory/mempool_cached.cpp:50-69 | The pointer code performs PoolOps.CachedAlloc, the block being of the least size that holds the request, and changes no byte of a block in a caller's hands |
| MemPool.MpAllocGlobal.DeallocBatch | src/vhwd/memory/mempool_paging.cpp:52-121 | The loop performs ReturnBatch and returns the head of what is left, and changes no byte of a block in a caller's hands |
| MemPool.MpAllocGlobal.CachedDealloc | src/vhwd/memory/mempool_cached.cpp:71-98 | The pointer code performs PoolOps.CachedFree for a handed-out block and changes no byte of any other block in a caller's hands |
| MemPool.MpAllocGlobal.Cleanup | src/vhwd/memory/mempool_cached.cpp:20-48 | The loop over all classes performs CleanFrom |
| MemPool.MpAllocGlobal.SweepClass | src/vhwd/memory/mempool_paging.cpp:388-433 | The unlinking walk performs Sweep |
| MemPool.MpAllocGlobal.Gc | src/vhwd/memory/mempool_paging.cpp:375-437 | The whole collection performs PoolOps.Gc and changes no byte of a block in a caller's hands |
| MemPool.MpAllocGlobal.Realloc | src/vhwd/memory/mempool_paging.cpp:157-189 | The pointer code performs PoolOps.Realloc; the caller finds its first n0 bytes and zeros behind them, so it keeps all its bytes if and only if the block stays or none behind those n0 was other than zero; no other caller's byte changes |
| MemPool.MpAllocGlobal.Memcpy | src/vhwd/memory/mempool_paging.cpp:186-186 | The copy loop copies just those words |
| MemPool.MpAllocGlobal.WriteWord | src/vhwd/memory/mempool_impl.h:369-413 | A caller that stores in its own block disturbs neither the pool nor another caller |
| MemPool.TwoMegabytesLoseTheirTail | src/vhwd/memory/mempool_paging.cpp:165-186 | On a new pool a caller gets 2 MB, stores a 1 in their last word, lets them grow by a byte, and finds a 0 there |
| ScriptExpr.LiteralSurvives | src/vhwd/scripting/codegen_generator_rvalue.cpp:111-114 | An integer literal means itself if and only if it fits 32 bits; otherwise what 32 bits leave of it |
| ScriptOps.CaretIsXor | src/vhwd/scripting/codegen_generator_rvalue.cpp:225-271 | Looking up an operator name gives the operator entered for it, except that ^ gives exclusive or and no name gives the power |
| ScriptOps.MeansWhatIsWritten | src/vhwd/scripting/codegen_generator_rvalue.cpp:233-270 | A name gives an operator if and only if it is the way that operator is written, given here operator by operator |
| ScriptOps.OpTable.Find | src/vhwd/scripting/codegen_generator_rvalue.cpp:233-270 | The table, filled on first use entry by entry, answers an operator exactly for the name it is written with, and nothing for other names |
| ScriptExpr.ExprRuns | src/vhwd/scripting/codegen_generator_rvalue.cpp:57-271 | The stack code of any expression leaves its value on top of the stack, its assignments done and everything else as it was |
| ScriptExpr.IncrRuns | src/vhwd/scripting/codegen_generator_rvalue.cpp:161-186 | ++ and -- in both forms: the old or the new value is left and the variable updated |
| ScriptAssign.AssignGivesIth | src/vhwd/scripting/codegen_generator_lvalue.cpp:43-77 | Multiple assignment gives the i-th variable the i-th value, nil where values run out, dropping extras |
| ScriptAssign.ChainGivesEach | src/vhwd/scripting/codegen_generator_rvalue.cpp:274-328 | In a chained assignment of any lists everything to the right is assigned first, and then each variable of the leftmost list gets what the item of the next list at its index holds |
| ScriptAssign.AdjustRuns | src/vhwd/scripting/codegen_generator_rvalue.cpp:306-313 | The nil or stack adjustment makes the values match the number of targets |
| ScriptAssign.AssignRuns | src/vhwd/scripting/codegen_generator_rvalue.cpp:274-328 | The emitted code of a chain of list assignments has that meaning and restores the stack height |
| ScriptShape.CodeTidy | src/vhwd/scripting/codegen_generator_rvalue.cpp:388-545 | The code of every accepted statement jumps only within itself or to a named enclosing exit or continuation |
| ScriptShape.CaseTargets | src/vhwd/scripting/codegen_generator_rvalue.cpp:597-698 | Every target of a switch table lies within the switch |
| ScriptSim.StmtRuns | src/vhwd/scripting/codegen_generator_rvalue.cpp:388-545 | Running the code of a statement ends where its structured outcome says: behind it, at the exit or continuation it leaves to, or returned; or it runs at least as long as the meaning does |
| ScriptSim.LoopRuns | src/vhwd/scripting/codegen_generator_rvalue.cpp:500-545 | while, for and do loops: the code agrees with the structured loop, including continue landing at the fini statement |
| ScriptSim.SwitchRuns | src/vhwd/scripting/codegen_generator_rvalue.cpp:645-698 | The switch head, through CALL and JUMP_N, goes to the selected case, else the default, else behind the switch |
| ScriptSim.SelectedPlaced | src/vhwd/scripting/codegen_generator_rvalue.cpp:597-640 | The table entry for a value is where the case that lists it stands |
| ScriptSim.JumpsStayInside | src/vhwd/scripting/codegen_generator.cpp:82-96 | No placeholder target survives in a generated function and no jump leaves its code |
| ScriptSim.FunctionRuns | src/vhwd/scripting/variant_code.cpp:30-262 | A generated function stops with the results and globals its statements' meaning gives |
| ScriptSim.LoweringPreservesMeaning | src/vhwd/scripting/codegen_generator_rvalue.cpp:388-698 | For every accepted function body, operator semantics, store and result: the generated code stops with that result if and only if the structured meaning yields it |
| ScriptSim.StopsOnce | src/vhwd/scripting/variant_code.cpp:30-262 | The machine's result does not depend on how many further steps are allowed |
| ScriptLaws.ControlsReach | src/vhwd/scripting/codegen_generator_rvalue.cpp:406-458 | break ends the innermost loop or switch and break2 the one around it; continue goes on with the innermost loop and continue2 with the one around it, at its test; a loop left or continued only inside an inner one goes on for ever |
| ScriptLaws.SwitchPicks | src/vhwd/scripting/codegen_generator_rvalue.cpp:597-698 | The case that lists the value is selected wherever it stands, the default exactly when no case lists it, and nothing without a default |
| ScriptLaws.Unrolled | src/vhwd/scripting/codegen_generator_rvalue.cpp:500-545 | A loop whose body and fini end normally is its test, body, fini and then the loop again without its init |
| ScriptLaws.OperandsInOrder | src/vhwd/scripting/codegen_generator_rvalue.cpp:161-223 | Operands are evaluated from the left and not swapped: with x++ or ++x as one operand the other sees the right one of the old and new value |
| ScriptGen.CodeGen.Patch | src/vhwd/scripting/codegen_generator.cpp:82-96 | set_loop1 and set_loop2 give every remembered jump its target and change no other instruction |
| ScriptGen.CodeGen.VisitExpr | src/vhwd/scripting/codegen_generator_rvalue.cpp:57-271 | The visitor appends the code of the expression |
| ScriptGen.CodeGen.VisitLValues | src/vhwd/scripting/codegen_generator_lvalue.cpp:43-77 | Stores are appended in reverse order, a nil placeholder dropping its value |
| ScriptGen.CodeGen.VisitAssign | src/vhwd/scripting/codegen_generator_rvalue.cpp:274-328 | The visitor appends the code of a chained list assignment |
| ScriptGen.CodeGen.VisitControl | src/vhwd/scripting/codegen_generator_rvalue.cpp:407-461 | A control statement is recorded in the list of exactly the loop or switch it leaves, and is refused if and only if it is break3 or no enclosing loop or switch catches what it means |
| ScriptStmt.ControlCaught | src/vhwd/scripting/codegen_generator_rvalue.cpp:406-458 | A control is accepted if and only if it is not break3 and the loops and switches around it catch its outcome |
| ScriptAccept.AcceptedIff | src/vhwd/scripting/codegen_generator_rvalue.cpp:383-698 | A statement is refused if and only if somewhere in it stands break3, a control whose level the loops and switches on the way to it do not provide, or a switch that repeats a value or its default |
| ScriptGen.CodeGen.VisitIf | src/vhwd/scripting/codegen_generator_rvalue.cpp:388-404 | Back-patching the two jumps of an if gives its code |
| ScriptGen.CodeGen.VisitLoop | src/vhwd/scripting/codegen_generator_rvalue.cpp:500-545 | Emitting body, fini and test and then patching gives the code of the loop, and the enclosing jump lists remember exactly the jumps that leave it |
| ScriptGen.CodeGen.VisitSwitch | src/vhwd/scripting/codegen_generator_rvalue.cpp:645-698 | Filling the table while cases are emitted and patching at the end gives the code of the switch; a repeated value or second default is refused |
| ScriptGen.CodeGen.VisitStmt | src/vhwd/scripting/codegen_generator_rvalue.cpp:382-698 | The visitor accepts exactly the statements the generator accepts and appends their code |
| ScriptGen.Generate | src/vhwd/scripting/codegen_generator.cpp:16-110 | The generator succeeds exactly on accepted bodies and then yields the code LoweringPreservesMeaning is about |
| LocalScopes.OwnerIsInnermost | src/vhwd/scripting/codegen_generator.cpp:152-163 | The block a lookup finds is the innermost one that declares the name |
| LocalScopes.SlotsDistinct | src/vhwd/scripting/codegen_generator.cpp:159-169 | Different variables of open blocks never share a slot, and all slots lie between 1 and the local count of the innermost block |
| LocalScopes.LookupInjective | src/vhwd/scripting/codegen_generator.cpp:145-174 | Two names found at the same slot are the same name |
| LocalScopes.Scopes.LockBlock | src/vhwd/scripting/codegen_generator.cpp:46-50 | Opening a block starts it above every open variable |
| LocalScopes.Scopes.UnlockBlock | src/vhwd/scripting/codegen_generator.cpp:52-60 | Closing a block raises nLocal to its local count and brings back its parent |
| LocalScopes.Scopes.FindLocal | src/vhwd/scripting/codegen_generator.cpp:145-174 | find_local in both modes returns the slot of the innermost variable, VAR_LOCAL declaring it in the innermost block first |
| LocalScopes.DeclaredStacked | src/vhwd/scripting/codegen_generator.cpp:165-170 | Declaring a variable changes the meaning of no other name |
| LocalScopes.NLocalBoundsAll | src/vhwd/scripting/codegen_generator.cpp:52-60 | Whenever a block has just been closed nLocal bounds every slot emitted so far, over any sequence of operations |
| LocalScopes.NLocalLeast | src/vhwd/scripting/codegen_generator.cpp:52-60 | nLocal is never more than the most variables that were open at once |
| LocalScopes.StoreAgrees | src/vhwd/scripting/codegen_generator.cpp:145-174 | Storing to the slot of a name changes, in the environment stack, the innermost variable of that name and nothing else |
| LocalScopes.LoadAgrees | src/vhwd/scripting/codegen_generator.cpp:145-174 | Loading from the slot of an assigned name gives its innermost value |
| LocalScopes.OpenAgrees | inc/vhwd/scripting/codegen_generator.h:24-30 | A fresh block leaves the values of open variables in their slots |
| LocalScopes.GrownAgrees | src/vhwd/scripting/codegen_generator.cpp:165-170 | So does declaring variables |
| LocalScopes.ForgetAgrees | src/vhwd/scripting/codegen_generator.cpp:145-174 | Going back to before a declaration leaves the values of the variables that are declared there |
| LocalScopes.CloseAgrees | src/vhwd/scripting/codegen_generator.cpp:52-60 | So does closing a block, for the outer variables |
| ScriptNames.ScopeGrows | src/vhwd/scripting/codegen_generator_rvalue.cpp:462-559 | Visiting a statement, with all the blocks it opens and closes, only adds variables to the innermost block and moves no slot |
| ScriptNames.SlotWhenEmitted | src/vhwd/scripting/codegen_generator_lvalue.cpp:14-54 | A local list, stored from the right, gives each name, when its store is emitted, the slot it has when the whole list is declared |
| ScriptNames.SlotsFit | src/vhwd/scripting/codegen_generator.cpp:52-60 | Every slot in the resolved code of a statement lies within nLocal and the blocks still open |
| ScriptNames.StmtLike | src/vhwd/scripting/codegen_generator_rvalue.cpp:274-698 | Whatever a statement does to names in the environment stack its resolved form does to slots, with the same outcome, unless it reads a variable whose declaration was jumped over |
| ScriptNames.NamesKeepMeaning | src/vhwd/scripting/codegen_generator_rvalue.cpp:274-698 | A function whose meaning by names ends stops with that result, whatever its nLocal slots hold at the start; if it stops, its meaning by names ends so or reads such a variable |
| ScriptNames.NeverUnset | src/vhwd/scripting/codegen_generator_rvalue.cpp:388-559 | If branches, loop bodies and cases declare only inside blocks no run reads such a variable |
| ScriptNames.NamedLoweringPreservesMeaning | src/vhwd/scripting/codegen_generator_rvalue.cpp:388-698 | For every such function the generated code stops with a result if and only if the meaning by names, on a stack of environments, is that result |
| ScriptNames.JumpedOver | src/vhwd/scripting/codegen_generator.cpp:145-174 | Without that condition a variable can read what a closed block left in its slot |
| ScriptNameLaws.RightSideFirst | src/vhwd/scripting/codegen_generator_rvalue.cpp:274-328 | In local s = s the right side means the s outside and what follows means the new one |
| ScriptNameLaws.DeclaredInside | src/vhwd/scripting/codegen_generator.cpp:46-60 | A block that only declares s is without effect outside, even on an outer s |
| ScriptNameLaws.SetOutside | src/vhwd/scripting/codegen_generator.cpp:145-174 | A block that assigns to an s it does not declare changes the s outside, be it local or global, and no other name |
| ScriptNameLaws.TestSeesBody | src/vhwd/scripting/codegen_generator_rvalue.cpp:500-545 | The test of a loop sees the variable its body declares, not an outer one of that name |
| LockFreeQueue.StepRefines | inc/vhwd/collection/lockfree_queue.h:377-717 | Every step of every thread keeps the invariant and does to a bounded FIFO exactly what its label says; the stores to rear and head are the only ones that change it, and rewind's store to head empties it |
| LockFreeQueue.RunsRefineFifo | inc/vhwd/collection/lockfree_queue.h:377-717 | Every interleaving of any number of getq, putq (single and batch) and rewind calls is a run of an atomic FIFO of capacity mask |
| LockFreeQueue.KeysAreLocks | inc/vhwd/collection/lockfree_queue.h:385-405 | In every reachable state a key is zero exactly when nobody holds it and has at most one holder |
| LockFreeQueue.OnlyHolder | inc/vhwd/collection/lockfree_queue.h:687-717 | The holder of a key is the only one; only rewind, holding both keys, stands between the two resetting stores |
| LockFreeQueue.HeadStoreTakes | inc/vhwd/collection/lockfree_queue.h:422-494 | The store to head removes exactly the elements the call returns, in order, for one element and for a batch copied in two parts |
| LockFreeQueue.RearStorePuts | inc/vhwd/collection/lockfree_queue.h:609-684 | The store to rear appends exactly the elements the call was given |
| LockFreeQueue.BufStoreHides | inc/vhwd/collection/lockfree_queue.h:609-610 | Writing elements into the buffer is invisible until rear is stored |
| LockFreeQueue.GetterStep | inc/vhwd/collection/lockfree_queue.h:377-496 | Each access of a getter is safe and moves the keys only as a lock does |
| LockFreeQueue.PutterStep | inc/vhwd/collection/lockfree_queue.h:566-686 | Each access of a putter likewise |
| LockFreeQueue.RewinderStep | inc/vhwd/collection/lockfree_queue.h:687-717 | Each access of rewind likewise |
| LockFreeCalls.CallsAnswer | inc/vhwd/collection/lockfree_queue.h:377-717 | Whatever other threads do between its start and its return, a getq takes effect once and returns just the elements it took, one or at most as many as asked for, or returns nothing after it saw the queue empty; a putq puts all of its own elements, or a prefix if QUEUE_PARTIAL was set, and returns how many, or none after it saw the queue full or leaked the key; a rewind clears the queue once |
| LockFreeCalls.GetAlone | inc/vhwd/collection/lockfree_queue.h:377-496 | An undisturbed getq returns, and has taken the first element, or as many as asked for if there are so many and else all |
| LockFreeCalls.PutAlone | inc/vhwd/collection/lockfree_queue.h:566-686 | An undisturbed putq returns, and has put as much of its batch as QUEUE_PARTIAL and the room allow |
| LockFreeQueue.InitInv | inc/vhwd/collection/lockfree_queue.h:741-788 | A queue of a power-of-two capacity starts in the invariant, empty |
| LockFreeQueue.LeaksIffTooMany | inc/vhwd/collection/lockfree_queue.h:615-686 | A putq that finds the putters' key free and runs undisturbed leaks it if and only if it has a batch, there is room for some of it but not for all, and QUEUE_PARTIAL is clear |
| LockFreeQueue.PartialNeverLeaks | inc/vhwd/collection/lockfree_queue.h:662-669 | No run of any threads leaks the key while QUEUE_PARTIAL stays set |
| LockFreeQueue.SmallNeverLeaks | inc/vhwd/collection/lockfree_queue.h:644-669 | Nor does any run in which no batch has more than one element |
| LockFreeQueue.LeakStopsPuts | inc/vhwd/collection/lockfree_queue.h:622-669 | After that nothing is ever put again nor the queue rewound, whatever any thread does |
| SrswQueue.StepRefines | inc/vhwd/collection/lockfree_queue.h:249-270 | Every step of the pushing and the popping thread refines a step of a bounded FIFO |
| SrswQueue.RunsRefineFifo | inc/vhwd/collection/lockfree_queue.h:249-270 | Every interleaving of the two threads is a run of an atomic FIFO that holds one element less than the ring has slots |
| SrswQueue.CallsAnswer | inc/vhwd/collection/lockfree_queue.h:249-270 | Whatever the other thread does, a push ends having put its own element or having found the queue full, a pop with one element or having found it empty |
| GcGraph.ExploredInside | src/vhwd/memory/gc_ptr.cpp:52-74 | A set that holds the roots and the unskipped members of its elements holds everything explored |
| GcGraph.ProgressDone | src/vhwd/memory/gc_ptr.cpp:52-74 | When nothing is pending, marked are exactly the stale objects and those explored from the roots |
| GcGraph.ExactIffNoStale | src/vhwd/memory/gc_ptr.cpp:44-74 | Over all choices of roots a collection keeps exactly the reachable objects if and only if no object is marked beforehand |
| GcGraph.NoDanglingMember | src/vhwd/memory/gc_ptr.cpp:81-104 | Nothing that a survivor of an exact collection points to is destroyed |
| GcGraph.StaleLosesMembers | inc/vhwd/memory/gc_ptr.h:322-327 | A mark left over on a reachable object: it survives while its member, reachable only through it, does not |
| GcGraph.ReachableAgain | src/vhwd/memory/gc_ptr.cpp:81-104 | What an exact collection leaves is reachable in what it leaves |
| Gc.GcState.GcThrowing | src/vhwd/memory/gc_ptr.cpp:63-80 | If a _gc_mark throws in the loop everything stays linked and the marks made so far stay, at least on the roots' objects and at most on what the collection would have kept; otherwise the collection is as ever |
| Gc.GcState.CollectTwice | src/vhwd/memory/gc_ptr.cpp:44-80 | After a collection, cut short or not, the next one is exact if it is forced or the first was not cut short |
| Gc.LeftoverMark | src/vhwd/memory/gc_ptr.cpp:63-104 | From a new collector: three objects in a chain, a collection cut short at its first pending object, and the next collection destroys the third although it is reachable |
| GcGraph.SweptMembers | src/vhwd/memory/gc_ptr.cpp:86-102 | The rebuilt list holds exactly the marked objects, each once |
| GcRoots.RootList.Insert | inc/vhwd/memory/gc_ptr.h:218-239 | Registering a pointer puts it first, unless it lies in the object under construction, and keeps the doubly linked list well formed |
| GcRoots.RootList.Erase | inc/vhwd/memory/gc_ptr.h:241-254 | Unregistering cuts exactly that node out; a node never registered is left alone |
| Gc.GcState.MarkMembers | inc/vhwd/memory/gc_ptr.h:322-327 | _gc_mark marks all members and queues exactly those not marked before |
| Gc.GcState.MarkRoots | src/vhwd/memory/gc_ptr.cpp:52-61 | After the root loop every root's object is dealt with and the marking invariant holds |
| Gc.GcState.MarkLevel | src/vhwd/memory/gc_ptr.cpp:65-73 | One breadth-first level deals with all pending objects and returns exactly the newly marked ones |
| Gc.GcState.MarkAll | src/vhwd/memory/gc_ptr.cpp:52-74 | Marking terminates on every graph, cycles included, with exactly the stale and explored objects marked |
| Gc.GcState.Sweep | src/vhwd/memory/gc_ptr.cpp:81-104 | The sweep relinks exactly the marked objects in reverse order, tagged FLAG, and counts them |
| Gc.GcState.GcNolock | src/vhwd/memory/gc_ptr.cpp:37-113 | A collection keeps the objects marked beforehand and those explored past them; forced, or with no marks, exactly the reachable ones, all tagged FLAG, counted, and with no dangling pointer |
| Gc.GcState.Link | inc/vhwd/memory/gc_ptr.h:210-216 | link puts the object first and counts it |
| Gc.GcState.GcNew | inc/vhwd/memory/gc_ptr.h:362-423 | gc_new collects exactly when more than nStepingDelta objects came since the last collection, which sets nNumberOfObjectLast to the survivors and which alone changes it; then it links and roots the new object, keeping every collection exact |
| Gc.CallAfterCall | inc/vhwd/memory/gc_ptr.h:362-423 | Over any run of gc_new calls on a new collector, roots being kept or dropped at will, the number of collections is Collections of the number of calls |
| Gc.CollectsEvery | inc/vhwd/memory/gc_ptr.h:365-398 | Collections counts one for call number delta + 2 and one for every (delta + 1)-th call behind a collecting one, and no others |
| Q2Packet.ParseSplit | inc/vhwd/net/q2packet.h:75-167 | Parsing two pieces in turn, keeping what is left over, is parsing them together |
| Q2Packet.ChunkingIndependent | inc/vhwd/net/q2packet.h:75-167 | However a stream is cut into chunks, the packets reported, the leftover and the verdict are the same |
| Q2Packet.PacketsComeBack | inc/vhwd/net/q2packet.h:75-167 | A stream of packets with sizes from MIN to MAX is reported as those packets, with the partial one kept |
| Q2Packet.BadIsForever | inc/vhwd/net/q2packet.h:120-126 | Once a size above MAX was met no later input is accepted |
| Q2Packet.RestIsRest | inc/vhwd/net/q2packet.h:114-161 | What is kept between chunks is shorter than MAX and holds no complete packet |
| Q2Packet.NothingDropped | inc/vhwd/net/q2packet.h:75-167 | Packets and leftover, joined, are the stream up to where it was refused, and all of it if it was not |
| Q2Packet.PacketsAsSaid | inc/vhwd/net/q2packet.h:109-131 | Every packet is as long as its size field says, MIN if that says less, and lies between MIN and MAX |
| Q2Packet.BadAtOnce | inc/vhwd/net/q2packet.h:109-126 | A header with a size above MAX is refused as soon as it is complete, before any of its data |
| Q2Packet.TwiceMaxIsEnough | inc/vhwd/net/q2packet.h:51 | Sizes that are multiples of the word size always need less than twice MAX |
| Q2Packet.HighWaterIs | inc/vhwd/net/q2packet.h:145-146 | A stream laid out packet by packet reaches as far as its packets, each padded, and its leftover add up to |
| Q2Packet.PaddingNeedsMore | inc/vhwd/net/q2packet.h:145-146 | From a new buffer, two chunks of at most MAX bytes of which the second makes update write beyond twice MAX |
| Q2Packet.Buffer.Done | inc/vhwd/net/q2packet.h:60-73 | done drops the cached packets and moves the partial data to the front |
| Q2Packet.Buffer.Update | inc/vhwd/net/q2packet.h:75-167 | update caches exactly the packets that parsing the kept bytes and the chunk gives, keeps exactly the leftover, and reports a bad size; an empty chunk or one above MAX changes nothing; its writes stay within twice MAX if and only if the packets, padded, and the leftover add up to no more |
| Bits.MaskIsMod | src/vhwd/collection/collection.cpp:68-71 | Masking with one less than a power of two is the remainder, for negative differences too |
| Ring.AdvanceHead | inc/vhwd/collection/ring_buffer.h:45-48 | Moving the read position over k elements drops just them |
| Ring.AdvanceRear | inc/vhwd/collection/ring_buffer.h:41-44 | Moving the write position over what was written behind it appends it |
| Ring.WriteFree | src/vhwd/collection/collection.cpp:160-169 | Writing behind the contents does not change them |
| Ring.BatchSlots | src/vhwd/collection/collection.cpp:81-90 | The one- or two-part copy visits consecutive slots of the ring |
| ByteRing.RingBuffer.Peek | src/vhwd/collection/collection.cpp:65-93 | peek gives up to n of the next bytes and consumes nothing |
| ByteRing.RingBuffer.Recv | src/vhwd/collection/collection.cpp:103-133 | recv gives up to n of the next bytes and removes exactly them |
| ByteRing.RingBuffer.Send | src/vhwd/collection/collection.cpp:143-174 | send appends all of its bytes or, if they do not fit, none |
| ByteRing.RingBuffer.RdFree | src/vhwd/collection/collection.cpp:95-101 | rd_free is the number of queued bytes |
| ByteRing.RingBuffer.WrFree | src/vhwd/collection/collection.cpp:135-141 | wr_free is the room left, one slot being kept free |
| ByteRing.RingBuffer.HasPacket | src/vhwd/collection/collection.cpp:24-37 | packet() holds exactly when the length prefix and all bytes it announces are queued |
| ByteRing.RingBuffer.Packet | src/vhwd/collection/collection.cpp:40-62 | packet(p, n) takes exactly the announced bytes, or reports that they are missing or do not fit and takes nothing |
| ByteRing.RingBuffer.RdFlip | inc/vhwd/collection/ring_buffer.h:45-48 | rd_flip removes the next n bytes |
| ByteRing.RingBuffer.WrFlip | inc/vhwd/collection/ring_buffer.h:41-44 | wr_flip appends the n bytes that stand behind the contents |
| ByteRing.SegsAreContents | src/vhwd/net/overlapped.cpp:65-90 | The descriptors of init_send denote exactly the next queued bytes |
| ByteRing.SegsAreFree | src/vhwd/net/overlapped.cpp:104-134 | The descriptors of init_recv share no slot with the contents |
| RingThreads.StepRefines | src/vhwd/net/overlapped.cpp:19-136 | Every step of one sender and one receiver, using send/recv/peek or the overlapped descriptors, keeps the invariant and does to a bounded FIFO what its label says |
| RingThreads.RunsRefineFifo | src/vhwd/collection/collection.cpp:65-174 | Every interleaving of the two sides is a run of an atomic bounded byte FIFO |
| RingThreads.RunsLoseNothing | src/vhwd/collection/collection.cpp:65-174 | Over any run of the two sides what was there and what was sent is, in order, what was received and what is left |
| RingThreads.FreshRunsLoseNothing | src/vhwd/collection/collection.cpp:13-21 | A rewound ring is empty and satisfies the invariant; over any run from there what was sent is what was received and what is left |
| RingThreads.SendAnswers | src/vhwd/collection/collection.cpp:143-174 | Whatever the receiver does meanwhile, a send ends having sent all of its own bytes, or none of them after finding less room than they need |
| RingThreads.RecvAnswers | src/vhwd/collection/collection.cpp:65-133 | Whatever the sender does meanwhile, a recv or peek ends with at most n bytes, or after finding the ring empty; undisturbed it gets the first n bytes or all there are |
| RingThreads.SegmentsOffered | src/vhwd/net/overlapped.cpp:45-136 | The overlapped descriptors cover exactly the room there is, up to the limit of one receive, and exactly the queued bytes; with no room or no bytes nothing is started |
| RingThreads.SendSegmentsHold | src/vhwd/net/overlapped.cpp:27-93 | From init_send to done_send, whatever the sender does meanwhile, the segments hold the next queued bytes |
| RingThreads.RecvSegmentsFree | src/vhwd/net/overlapped.cpp:41-136 | From init_recv to done_recv the segments lie only in free space |
| RingThreads.DoneRecvAppends | src/vhwd/net/overlapped.cpp:41-54 | done_recv appends exactly the bytes the network put into the first n segment bytes |
| RingThreads.DoneSendRemoves | src/vhwd/net/overlapped.cpp:27-39 | done_send removes exactly the bytes reported sent |
| Crc32.HelperIs | src/vhwd/basic/hashing.cpp:6-18 | The compile-time helper keeps register and unused index bits apart; together they are the bitwise steps |
| Crc32.TableIs | src/vhwd/basic/hashing.cpp:30-35 | Every table entry is its index run through eight bitwise steps, as in section 8 of RFC 1952 |
| Crc32.StepByteIs | src/vhwd/basic/hashing.cpp:51-54 | A turn of the byte loop is eight bitwise steps with the byte xored in |
| Crc32.StepWordIs | src/vhwd/basic/hashing.cpp:56-63 | A turn of the word loop is four turns of the byte loop on a little-endian machine |
| Crc32.ByteFoldIsBitFold | src/vhwd/basic/hashing.cpp:39-76 | The table form computes the bitwise register |
| Crc32.CheckValue | src/vhwd/basic/hashing.cpp:6-18 | The check value of CRC-32: the checksum of the nine bytes 123456789 is CBF43926 hexadecimal |
| Crc32.Loops | src/vhwd/basic/hashing.cpp:39-76 | For every start address and length the prefix, word and suffix loops compute the byte-wise fold |
| Crc32.Crc | src/vhwd/basic/hashing.cpp:78-122 | crc32 is the bitwise checksum |
| Crc32.Crc32Gen.Update | src/vhwd/basic/hashing.cpp:39-76 | update adds its bytes to what was fed in |
| Crc32.Crc32Gen.Done | inc/vhwd/basic/hashing.h:178-188 | done gives the checksum of everything fed in, however it was split, and starts again |
| Crc32.ShiftNInjective | src/vhwd/basic/hashing.cpp:6-18 | The register determines what it was any number of steps before |
| Crc32.BurstDetected | src/vhwd/basic/hashing.cpp:78-122 | Messages that differ only within 32 consecutive bits, at any bit position, have different checksums |
| PacketCheck.IPacket.Update | src/vhwd/net/overlapped.cpp:163-173 | update writes the stamp and a checksum that check accepts, exactly if the size is in range, and changes nothing else |
| PacketCheck.IPacket.Check | src/vhwd/net/overlapped.cpp:176-190 | check accepts exactly packets with a size in range whose checksum field is the checksum of the rest |
| PacketCheck.BurstRejected | src/vhwd/net/overlapped.cpp:176-190 | Corruption of covered bytes within 32 consecutive bits is rejected, the size field being intact |
| PacketCheck.WindowRejected | src/vhwd/net/overlapped.cpp:176-190 | So is any corruption of up to four consecutive covered bytes |
| PacketCheck.FieldRejected | src/vhwd/net/overlapped.cpp:176-190 | And any corruption of the checksum field alone |
| AtomicMutex.StepKeepsInv | inc/vhwd/basic/atomic.h:151-210 | Every read or write of any thread keeps the invariant: the lock is free, or exactly one thread owns it, with num and tid as its position says |
| AtomicMutex.MutualExclusion | inc/vhwd/basic/atomic.h:156-210 | After any run at most one thread holds locks, tid names it and num is its depth; tid names a thread only while it owns the lock; val is 0 exactly when it is free |
| AtomicMutex.AssertionsHold | inc/vhwd/basic/atomic.h:172-207 | None of the three assertions in lock and unlock ever fails |
| AtomicMutex.TryLockDecides | inc/vhwd/basic/atomic.h:178-198 | try_lock by a thread that is not the owner gets the lock exactly if val was 0 |
| AtomicMutex.CallsAnswer | inc/vhwd/basic/atomic.h:151-210 | Whatever other threads do, lock returns with one more lock held, try_lock with one more or, only if the caller held none, with none, and unlock with one fewer |
| AtomicMutex.CallsEnd | inc/vhwd/basic/atomic.h:151-210 | An undisturbed call returns within five accesses, if for a lock the lock is free or the caller's own |
| ArrXt.OffsetInside | inc/vhwd/collection/arr_xt.h:74-97 | Every index tuple in shape has an offset below the number of elements |
| ArrXt.TupleOfOffset | inc/vhwd/collection/arr_xt.h:74-97 | The tuple can be read back from its offset |
| ArrXt.OffsetOfTuple | inc/vhwd/collection/arr_xt.h:74-97 | Every offset below the number of elements belongs to a tuple in shape |
| ArrXt.StrideIs | inc/vhwd/collection/arr_xt.h:74-97 | One more at an index moves the offset by the product of the dimensions before it |
| ArrXt.RejectedIff | inc/vhwd/collection/arr_xt.h:161-165 | The chained-division test rejects a shape if and only if its true size overflows and does not wrap to zero |
| ArrXt.WrapsToZero | inc/vhwd/collection/arr_xt.h:161-165 | A shape of true size 2^64 that passes the test |
| ArrXt.Arr.CopyFrom | inc/vhwd/collection/arr_xt.h:185-197 | The nested loops copy exactly the tuples of both shapes |
| ArrXt.Arr.Resize | inc/vhwd/collection/arr_xt.h:157-199 | resize keeps every element in the overlap of old and new shape, or fails and changes nothing, and says when |
| Utf8.EncodesByStandard | src/vhwd/basic/codecvt.cpp:205-236 | The bytes written for a 16-bit unit are exactly the layout of section 3 of RFC 3629, and no other bytes fit it |
| Utf8.OneComesBack | src/vhwd/basic/codecvt.cpp:149-174 | Decoding the bytes of one unit gives it back, the cut to 16 bits removing the extra lead bit |
| Utf8.RoundTrip | src/vhwd/basic/codecvt.cpp:139-247 | Decoding undoes encoding for every sequence of 16-bit units, surrogates included |
| Utf8.UnicodeToUtf8 | src/vhwd/basic/codecvt.cpp:194-247 | The encoder loop stays inside four bytes for each unit and computes Encode |
| Utf8.WholeAdd | src/vhwd/basic/codecvt.cpp:147-176 | Behind whole characters decoding goes on with the rest |
| Utf8.Utf8ToUnicode | src/vhwd/basic/codecvt.cpp:139-181 | The decoder loop stays inside one unit for each byte and computes Decode of what it reads, which reaches beyond its input if and only if that ends inside a character |
| Utf8.OtherInput | src/vhwd/basic/codecvt.cpp:149-176 | Input the encoder never makes: a four-byte character gives the low 16 bits of its number, and a byte below C0 hexadecimal is taken alone |
| Utf8.Units32 | src/vhwd/basic/codecvt.cpp:167-172 | With 32-bit units a number comes back if and only if it takes at most two bytes |

## Left out

- Pool locks and threads: each public operation is one atomic step; `try_lock` never fails, so gc skips no class and cleanup is what a thread's own gc does.
- Page allocation failure: page_alloc always succeeds in the pool.
- MemPool.MpAllocGlobal.CreateSpanNolock: a descriptor in the tail of its span's pages is kept apart from the words of the pages; PoolTheorems.HandedInside says that no block reaches it.
- MpObjectPool: descriptors outside the pages are named by their span's base address and not allocated from a pool.
- MemPool.MpAllocGlobal.Dealloc: an address in no span goes to the C library's free; the method reports this and leaves the pool as it is. MemPool.MpAllocGlobal.CachedDealloc does the same.
- MemPool.MpAllocGlobal.Realloc: covers a block the pool handed out and n > 0; the C library's realloc, and the NULL and zero forms that just call alloc or dealloc, are not modelled.
- MemPool.MpAllocGlobal.Gc: cleans the calling thread's cache; other threads' caches keep their blocks.
- MemPool.MpAllocGlobal.FindSpan: uses the flat page map; PoolRep.TwoLevelsFindBlocks says when the two-level one finds every block alike.
- ScriptGen.Generate: expressions with several values, calls, tables, arrays, classes, for_each, function parameters and ggvars are left out; double, string and boolean literals are constants.
- ScriptGen.CodeGen.VisitStmt: the same statements and expressions are left out.
- ScriptSim.LoweringPreservesMeaning: variables are resolved to slots there, ScriptNames resolves them; an integer literal means what 32 bits leave of it (ScriptExpr.LiteralSurvives).
- ScriptNames.NamesKeepMeaning: a run that reads a variable whose declaration was jumped over has no meaning by names; ScriptNames.JumpedOver gives such a program, ScriptNames.NeverUnset the condition that rules it out.
- LockFreeQueue.RunsRefineFifo: QUEUE_TIMEOUT is clear, counters do not wrap, batch lengths are not negative, and peek, which advances head exactly as a batch getq does, is not a separate operation.
- SrswQueue.RunsRefineFifo: reference counting, reset and several readers or writers are not modelled.
- Gc.GcState.GcNew: the object's constructor has no effect of its own; members of an object under construction, collections nested in a constructor, exceptions from constructors, failed allocation and destructors are not modelled. GcRoots.RootList.Insert does have the test for the object under construction.
- Gc.GcState.GcThrowing: an exception from _gc_mark in the root loop, outside the try block, leaves gc_nolock altogether and is not modelled.
- Q2Packet.Buffer.Update: requires room for what the chunk needs, and says exactly when that is more than twice MAX; what the original overwrites then is not modelled.
- ByteRing.RingBuffer.Peek, Recv and Send with a negative length, and the flag that keeps two overlapped operations of one side apart, are not modelled.
- Crc32.Crc: big-endian machines are not modelled.
- PacketCheck.IPacket.Check: the packet's memory reaches as far as its size field, if in range, says.
- PacketCheck.BurstRejected: the size field is intact; a changed size makes check read another stretch of bytes.
- AtomicMutex.MutualExclusion: tid, which the constructor leaves unset, names no thread at the start, and num does not wrap.
- ArrXt.Arr.Resize: the allocator's max_size is a parameter, and the exception is a result that says the array was left as it was; a shape that wraps to zero leaves dims that no element backs.
- Utf8.Utf8ToUnicode: up to three bytes behind the input can be read; the GBK tables are left out.
- Sockets, pipes, shared memory, files, console, logging, clock, threads, coroutines, containers, scanner and parser: I/O, plumbing, or not part of this model.
