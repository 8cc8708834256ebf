# Verified model of a C toolbox

A Dafny 4.11 model of the stateful and arithmetic core of the toolbox: the Electric Fence
allocator, word-packed bitmaps, the activity (actor) protocol, streaming MD5, intrusive
circular lists, CRC-16, the element pool, the byte ring queue, the log ring and Base64.
Operations that update state in place are classes or array methods; each is proved against
a specification on plain values (sets, sequences, standards), and the main results are
about every input, every run or every interleaving. `dafny verify dfyconfig.toml` checks
the whole project.

| file | what it models |
|---|---|
| `PageMath.dfy`, `EfenceTable.dfy`, `Efence.dfy`, `EfenceRun.dfy` | the slot table as a value, the allocator, whole client runs |
| `Word.dfy`, `Weight.dfy`, `Bitmap.dfy`, `BitmapShift.dfy` | bits of one word, the parallel bit count, bitmaps as sets, multi-word shifts |
| `Activity.dfy`, `ActivityMail.dfy` | senders, stoppers and workers as interleaved steps, what clients can rely on |
| `Md5.dfy`, `Md5Vectors.dfy`, `Md5Stream.dfy` | RFC 1321 and the block loops, a test vector, the buffered context |
| `ListHead.dfy`, `ListRun.dfy` | list operations on the heap, whole programs over a family of lists |
| `Crc.dfy`, `CrcOrder.dfy` | bit-serial division, the table form, error detection, the order of x |
| `Pool.dfy`, `Queue.dfy`, `LogBuffer.dfy`, `Base64.dfy` | the smaller components, each with its whole-run or round-trip theorem |

## What is proved

- **Electric Fence** (`EfenceRun.Run`): in every run of malloc, memalign, realloc and free from
  start-up, including the growth of the slot table by a nested allocation, the in-use slots are
  non-empty, page-aligned and disjoint and their union is exactly the memory obtained; two
  neighbouring free (or protected) slots meet only where a chunk starts; `unUsedSlots` is the
  number of empty slots and at least 5; no internal error is reachable. The whole run, with its answers,
  its table and its chunks, is a function of the requests and of the places at which the system granted
  chunks (`Foresee`); in particular a request is refused for lack of memory exactly where neither a free
  slot nor a grant can hold the buffer, or the larger table it needs first. In the client's terms: its own
  books (a map from address to what was asked for) decide when the process aborts and that a returned
  address is a new one; the buffers are those on the books, with their sizes, each accessible and
  fenced, with the first closed page less than the alignment behind the bytes asked for; every byte ever
  given out that is free now is inaccessible, and under EF_PROTECT_FREE never given out again. The one case in which the
  books do not decide is giving back an empty buffer fenced from below: `Foresee` decides it by the
  table, `Serve` states exactly when free finds it, and `LostBuffer` is a run in which it does not.
- **Bitmaps**: range set and clear, both searches, iteration, weight, the five relations and both
  shifts agree with sets of bit numbers, for every size and position, also when a shift is done in
  place. The right shift fails for exactly one family of arguments, which `ShiftRight` characterises.
- **Activity** (`EveryRun`, `EveryMessageArrives`, `NothingLeaks`, `EveryStopCompletes`, `SafeTypes`): for
  every interleaving, RUN means no STOP is outstanding, PENDING_STOP means exactly one and it is last,
  STOP means everything accepted was handled once and in order; each resource has exactly one holder and
  is released exactly once; each activity accepts, in order, exactly what the successful calls with it as
  target sent, and every call returns the code due; from every reachable state the worker's own steps can
  handle all that is outstanding and complete a stop that was asked for. A set of client
  message types cannot break any of this if and only if none is stored as STOP or as EXEC.
- **MD5** (`HashChunks`): any chunking gives the digest that sections 3.1 to 3.5 of RFC 1321 define for
  the concatenation; the length field is 8 times the byte count modulo 2^64. `EmptyDigest` ties that
  definition to the RFC's own test vector.
- **Lists** (`ListRun.Run`): every program over a family of disjoint lists refines the same program on
  sequences. `CutThenSpliceInit` says exactly when cutting and splicing back restores a list.
- **CRC** (`Update`, `BurstDetected`, `OddErrorDetected`, `TwoBitsDetected`): the table form is division
  by x^16 + x^12 + x^5 + 1, and in a message of any length every error burst of at most 16 bits and every
  error with an odd number of wrong bits is detected, and two wrong bits are detected exactly when their
  distance is not a multiple of 32767, the order of x.
- **Pool, queue, log, Base64** (`Pool.Run`, `Queue.RunAll`, `LogBuffer.RunAll`, `RoundTrip`,
  `ReencodeExactly`): whole-run refinement, returned values included, or round trips in both directions.
  Every pool malloc is answered, held elements keep what clients wrote into them although free stores its
  eight-byte links in memory, and what was carved and is not held is on the free list once.
  `QueueExactly` and `BlockSizeIsExact` state exactly which sizes work.

## Where the code and its documentation differ

- `list_cut_position` is documented to make `list` the cut-off part; on an empty `head`, and on a single
  entry with a foreign `entry`, it returns without touching `list` (linux_list.h:311-317). The model
  follows the code.
- `bitmap_shift_right` by exactly `bits` stores in front of the bitmap when `bits` is a multiple of the
  word size (linux_bitops.h:1004-1015); the model returns `ok == false` there.
- `realloc` of a pointer that is not live ends the process, unless the new buffer happens to land on that
  very address: then the new buffer itself is freed and the call succeeds (efence/efence.c:843-885).
  `Efence.Allocator.Realloc` states the exact condition and `EfenceRun.StaleRealloc` gives such a run. When a
  free slot still carries the stale address, the process already dies in `memcpy` on the protected page
  (efence/efence.c:873) and not in the abort of `free`; the model counts both as an abort.
- A zero-size buffer fenced from below gets an address outside its own slot (efence/efence.c:641), the one
  where the next slot starts (`UserAddressInside`). If that one is idle, has this address too and stands earlier
  in the table, `free` finds it first and ends the process although the buffer is live (efence/efence.c:764-776):
  `LiveIsFreeable` states the exact condition and `EfenceRun.LostBuffer` gives such a run.
- `memalign` cannot honour an alignment that does not divide the page size, in particular a larger one
  (efence/efence.c:472-478, 608-649); `AlignmentHonoured` states that this is the only exception.
- One carry is not always enough for an MD5 call of 2^32 bytes or more (md5.c:315-317);
  `CountAddsExactly` states when it is.
- The handler goes by the stored type alone (activity.c:90-106), and the type is an `int` cut to sixteen
  bits after a check of its upper bound only (activity.c:51, 313): -65535 is stored as STOP. A client message
  stored as STOP breaks the state machine, one stored as EXEC puts a foreign pointer into the exec pool; all
  other types, also those below the general ones, are harmless (`SafeTypes`, `ForeignStop`, `ForeignExec`).
- A queue larger than 32768 places, which the type of its size allows, overwrites items (queue.c:33-37);
  `Queue.BadRunFails` gives the run and `Queue.QueueExactly` states that these are the only sizes.
- A block whose size does not fit in 32 bits, or has no elements, is accepted by `pool_init` but too small for
  its elements (pool.c:68-71); `BlockSizeIsExact` states that these are the only ones.

## Model

| member | source | states |
|---|---|---|
| `Efence.UserAddressInside` | efence/efence.c:608-649 | the user's address lies in the buffer's own slot if and only if it is not an empty buffer fenced from below |
| `Efence.InternalUserSize` | efence/efence.c:410-418 | a table buffer keeps its page-aligned size under the default alignment |
| `Efence.NewSlotOk` | efence/efence.c:477-498 | a new buffer's record is well formed: page-aligned, non-empty, ending at (or starting after) its dead page |
| `Efence.SlotForUserAddress` | efence/efence.c:698-713 | the first slot with that user address, or none |
| `Efence.SlotForInternalAddress` | efence/efence.c:716-730 | first slot that starts at the address, or none |
| `Efence.SlotForInternalAddressPreviousTo` | efence/efence.c:735-747 | first slot that ends at the address, or none |
| `Efence.BestFit` | efence/efence.c:524-545 | the first among the smallest free slots that fit and the first empty slot, despite early exit, and the next empty one whenever it is needed and the table has it |
| `Efence.BestIndexIsBest` | efence/efence.c:524-545 | the index that specifies the scan is that of a free slot that fits, no larger than any other and smaller than all before it, or there is none |
| `Efence.Allocator.constructor` | efence/efence.c:335-390 | start-up: one chunk, its first page is the table, the rest free and inaccessible, every invariant holds |
| `Efence.Allocator.CreateMemory` | efence/efence.c:549-579 | a fresh chunk, of the size computed for the need, becomes a free slot; no other slot changes and the counter drops by one; a refusal changes no chunk |
| `Efence.Allocator.Carve` | efence/efence.c:587-606 | split: the slot is cut to size and the surplus becomes a free slot; the counter drops only then |
| `Efence.Allocator.SetFences` | efence/efence.c:608-649 | which pages become accessible and which inaccessible, and the address given out |
| `Efence.Allocator.Place` | efence/efence.c:587-655 | placing a buffer keeps every invariant, adds exactly that buffer, and its bytes to the history |
| `Efence.Allocator.FindRoom` | efence/efence.c:524-584 | with two empty slots both "No empty slot" errors are unreachable; the result is the best free slot of the table, which gains a chunk only when nothing fits |
| `Efence.Allocator.Fill` | efence/efence.c:524-655 | the new table is the one `SpotFor` gives for the old one and the chunk granted, if any: first smallest free slot that fits, surplus in the first empty slot; memory is asked for only when nothing fits |
| `Efence.SpotUses` | efence/efence.c:524-584 | only the grants that are used decide where a buffer goes |
| `Efence.RefusedOnlyInNeed` | efence/efence.c:524-584 | unless no free slot can hold the larger table or the buffer, an allocation obtains no chunk, is not refused for lack of memory, and does not depend on what the system would grant |
| `Efence.Allocator.MemalignLocked` | efence/efence.c:458-655 | no internal error; aborts exactly on a forbidden zero size; answer, table and new chunks are those of `Allot` for the old table and the places granted, growth of the table included; adds one new buffer with a new address, also inside table growth; the history only grows |
| `Efence.InTwoSteps` | efence/efence.c:506-579 | the grants of an allocation split into those for the larger table and those for the buffer |
| `Efence.Allocator.Prepare` | efence/efence.c:506-512 | nothing happens with seven or more empty slots; otherwise the table grows, or the process ends because no free slot can hold it and no chunk is granted |
| `Efence.Allocator.MoveTable` | efence/efence.c:421-433 | the larger table replaces the old one, whose place is given back; the new table is a function of the old one; at least seven more empty slots |
| `Efence.Allocator.AllocateMoreSlots` | efence/efence.c:406-436 | growing the table by a nested allocation keeps all buffers and leaves at least ten empty slots; it is refused exactly when no free slot can hold the larger table and no chunk is granted, and the new table is a function of the old one and the grant |
| `Efence.Allocator.Release` | efence/efence.c:774-796 | the freed slot is relabelled and all its pages become inaccessible |
| `Efence.Allocator.CoalescePrevious` | efence/efence.c:798-812 | one merge with the previous neighbour; only the right edge is still pending |
| `Efence.Allocator.CoalesceNext` | efence/efence.c:813-819 | one merge with the next neighbour; nothing is pending any more |
| `Efence.Allocator.Reclaim` | efence/efence.c:774-822 | after release and one merge on each side every invariant holds again, and the table is the one `FreedTable` gives |
| `Efence.FreedAlone` | efence/efence.c:774-822 | without idle neighbours only the freed slot changes |
| `Efence.Allocator.FreeLocked` | efence/efence.c:750-824 | aborts exactly when the first slot with the address is not a live buffer (or a retired table while the table moves), with the message for each case; otherwise removes exactly that slot, the table is the old one with up to two merges, and access to all bytes of the slot is gone |
| `Efence.LiveIsFreeable` | efence/efence.c:764-776 | free takes a live buffer back if and only if it is not an empty one, fenced from below, that an earlier slot with its address hides |
| `Efence.HidesHollow` | efence/efence.c:698-713 | only an empty buffer fenced from below can share its address, and only with a slot that starts where it ends and is not a buffer |
| `Efence.Allocator.Memalign` | efence/efence.c:662-671 | one new buffer with a new address, all invariants, table sealed, and never-given memory where freed memory is protected; the answer is that of `Allot`; a chunk is obtained, or memory refused, only in need |
| `Efence.Allocator.Malloc` | efence/efence.c:890-896 | the same with the configured alignment |
| `Efence.Allocator.Free` | efence/efence.c:828-840 | free(NULL) changes nothing; otherwise exactly one buffer goes and none of its bytes stays accessible, or the process aborts: exactly when no live buffer has the address, unless that is an empty one fenced from below; the answer and the table are a function of the old table in all cases |
| `Efence.Allocator.Realloc` | efence/efence.c:843-885 | new buffer in, old one out; aborts exactly for a forbidden zero size or a stale pointer that the new buffer does not land on; answer, landing place and table are a function of the old table and the chunks granted; the result is live if and only if the old pointer was |
| `Efence.Allocator.GiveUp` | efence/efence.c:854-878 | the old buffer is looked up with the new one in place and freed; aborts exactly when the slot found is not a live buffer |
| `Efence.PlaceGood` | efence/efence.c:587-649 | partition, canonical form, fences, counter and buffer set after a placement with split |
| `Efence.AddChunkGood` | efence/efence.c:549-579 | the same after a fresh chunk |
| `Efence.FenceGuarantee` | efence/efence.c:608-649 | each buffer is fully accessible, the page just past its end (or before its start) is not, and two buffers never overlap or share an address |
| `EfenceRun.HistoryClosed` | efence/efence.c:783-796 | every byte that some answered request gave out and that lies in a free or protected slot now is inaccessible |
| `EfenceRun.NotReused` | efence/efence.c:774-796 | a buffer outside all bytes given before keeps all buffers ever given disjoint |
| `EfenceRun.BooksGuarded` | efence/efence.c:608-649 | everything on the client's books is accessible, and the page next to it on the fenced side is not |
| `EfenceRun.GuardedIsCaught` | efence/efence.c:472-475 | the fence in the terms of the request: the first closed page lies less than the alignment behind the bytes asked for or, below, directly in front of them |
| `EfenceTable.AddChunkPartition` | efence/efence.c:549-579 | slots still tile exactly the memory obtained after a fresh chunk |
| `EfenceTable.PlacePartition` | efence/efence.c:587-606 | and after a split |
| `EfenceTable.MergePartition` | efence/efence.c:798-821 | and after a merge |
| `EfenceTable.PlaceCanonical` | efence/efence.c:598-606 | a split creates no mergeable neighbours |
| `EfenceTable.MergeLeftCanonical` | efence/efence.c:798-812 | merging left leaves only the right edge to check |
| `EfenceTable.MergeRightCanonical` | efence/efence.c:813-819 | merging right leaves mergeable neighbours only at chunk starts |
| `EfenceTable.MergeCount` | efence/efence.c:809-817 | a merge frees exactly one table entry |
| `EfenceTable.PlaceSpared` | efence/efence.c:587-606 | where freed memory is protected, a buffer is cut from memory that was never given out, and what is left over was not given out either |
| `EfenceRun.Serve` | efence/efence.c:828-896 | one request, by the client's books: exactly when it aborts, that the address is new, the books afterwards, and that what was given out joins a history that only grows; answer, table and new chunks are a function of the old table and the places granted; memory is asked for only in need; freeing something on the books aborts exactly when another slot hides it |
| `EfenceRun.Run` | efence/efence.c:405-433 | every run: it is the one `Foresee` gives for the requests and the places at which the system granted chunks, answers, table, chunks and refusals included; partition, canonical form, counter, no internal error, every answer by the books, buffers and sizes as on the books, fences around them within less than the alignment, room for the table at 40 bytes a slot, freed memory out of reach, and under EF_PROTECT_FREE never given out again |
| `EfenceRun.ForeseeNext` | efence/efence.c:828-896 | a run that used up its grants goes on with its next request from the plan and with the grants after it |
| `EfenceRun.ForeseeStops` | efence/efence.c:828-896 | nothing is answered after the request that ends the process |
| `EfenceRun.FirstIsServed` | efence/efence.c:335-390 | the first malloc that fits the chunk of start-up is served, at a known address, whatever the system would grant |
| `EfenceRun.OneFreeSlot` | efence/efence.c:798-821 | with one chunk, no buffers and nothing protected, coalescing has left exactly one free slot |
| `EfenceRun.StaleRealloc` | efence/efence.c:843-885 | malloc, free, realloc of the freed pointer: succeeds with that pointer, and nothing is live |
| `EfenceRun.LostBuffer` | efence/efence.c:698-776 | eight requests: three small buffers, the first freed, two empty ones in its place, the second small one freed; then free refuses the second empty one, which is on the books |
| `EfenceRun.AlignmentHonoured` | efence/efence.c:472-478 | a client gets the alignment it asked for, wherever the buffer lands, if and only if the alignment divides the page size |
| `EfenceRun.SizeIsExact` | efence/efence.c:477-498 | the size computed modulo 2^64 is the real one if and only if the real one is representable |
| `Word.BitBitwise` | linux_bitops.h:56-60 | the word operators act on each bit |
| `Word.BitShr` | linux_bitops.h:1017-1027 | a right shift moves bit j + n to j and fills with zeros |
| `Word.BitShl` | linux_bitops.h:1082-1092 | a left shift moves bit j - n to j and fills with zeros |
| `Word.FirstMask` | linux_bitops.h:92-100 | exactly the bits from start modulo 64 on |
| `Word.LastMask` | linux_bitops.h:102-109 | exactly the usable bits of the last word, all of them when the size is word-aligned |
| `Word.FindFirstSet` | linux_bitops.h:117-147 | the halving search returns one plus the lowest set bit, zero for zero |
| `Weight.HweightCounts` | linux_bitops.h:225-270 | the parallel count equals the number of set bits, for all 2^64 words |
| `Bitmap.SetRange` | linux_bitops.h:543-562 | set union with the range; every other bit and every word outside the range unchanged, also for a word-aligned end |
| `Bitmap.ClearRange` | linux_bitops.h:572-591 | set difference with the range, likewise |
| `Bitmap.FindNextBit` | linux_bitops.h:604-632 | the least usable set bit at or after start, or the size |
| `Bitmap.FindNextZeroBit` | linux_bitops.h:670-701 | the least usable clear bit at or after start, or the size |
| `Bitmap.SetBitsSound` | linux_bitops.h:646-657 | the list of set bits holds exactly the set bits, strictly increasing |
| `Bitmap.ForEachSetBit` | linux_bitops.h:646-657 | the iteration ends and visits exactly that list |
| `Bitmap.SetBitsOfWord` | linux_bitops.h:738-748 | counting word by word adds up |
| `Bitmap.WeightOf` | linux_bitops.h:738-748 | the weight is the number of bits the iteration visits |
| `Bitmap.ClearByWords` | linux_bitops.h:839-850 | no usable bit set if and only if all words but the last are zero and the last is under its mask |
| `Bitmap.Equal` | linux_bitops.h:761-772 | true if and only if the usable bits agree |
| `Bitmap.Intersects` | linux_bitops.h:785-799 | true if and only if some usable bit is set in both |
| `Bitmap.Subset` | linux_bitops.h:813-827 | true if and only if every usable bit of the first is set in the second |
| `Bitmap.Empty` | linux_bitops.h:839-850 | true if and only if no usable bit is set |
| `Bitmap.Full` | linux_bitops.h:862-873 | true if and only if every usable bit is set |
| `BitmapShift.Zero` | linux_bitops.h:400-403 | all words in use become zero, the others stay |
| `BitmapShift.StoreInRange` | linux_bitops.h:1004-1015 | the last store is inside the bitmap if and only if not (n == bits and bits is a multiple of 64) |
| `BitmapShift.RightMixed` | linux_bitops.h:1017-1027 | the word joined from two neighbours holds the right bits, overhead bits of the source excluded |
| `BitmapShift.ShiftRightWords` | linux_bitops.h:1009-1015 | whole-word branch |
| `BitmapShift.ShiftRightBits` | linux_bitops.h:1016-1031 | branch that joins neighbouring words |
| `BitmapShift.ShiftRight` | linux_bitops.h:992-1037 | bit k of the result is usable bit k + n of the source, zeros above; fails exactly for n == bits with a word-aligned size; source and destination may be the same array |
| `BitmapShift.LeftMixed` | linux_bitops.h:1082-1092 | the word joined from two neighbours holds the right bits |
| `BitmapShift.ShiftLeftWords` | linux_bitops.h:1066-1080 | whole-word branch |
| `BitmapShift.ShiftLeftBits` | linux_bitops.h:1081-1100 | branch that joins neighbouring words |
| `BitmapShift.ShiftLeft` | linux_bitops.h:1050-1106 | bit k of the result is usable bit k - n of the source, zeros below; in place or not |
| `BitmapShift.ThereAndBack` | linux_bitops.h:992-1106 | shifting left and back in place keeps exactly the bits that were not shifted out |
| `Activity.EveryRun` | activity.c:42-393 | every interleaving keeps the state machine, the order of messages and the ownership of resources |
| `Activity.StoppedIsDrained` | activity.c:126-180 | a stopped activity has an empty queue and handled all it accepted, once each and in order |
| `Activity.NothingLeaks` | activity.c:87-149 | when all rest, everything acquired was released exactly once |
| `Activity.EverySuccessAccepted` | activity.c:307-393 | over every run, the calls that returned 0 are as many as the client messages that were accepted |
| `ActivityMail.EveryMessageArrives` | activity.c:42-56 | over every run each activity accepted, in order, exactly its stops and the contents of the sends and execs begun with it as target that return 0, and every call returns what is due: 0, -1 for an activity that does not run, -12 without memory, -22 for a type above 65535 |
| `ActivityMail.PostAgrees` | activity.c:304-350 | one post reaches the queue of its target and no other, or is refused with the code due |
| `ActivityMail.CallMatches` | activity.c:304-404 | each step of a send or exec is where its client's note puts it |
| `ActivityMail.MailIsHandled` | activity.c:126-148 | the worker of a running activity can always handle all that is outstanding by its own steps alone |
| `Activity.StopCompletes` | activity.c:126-180 | a stopping activity is never stuck: finitely many steps of its own worker lead to STOP |
| `Activity.EveryStopCompletes` | activity.c:126-180 | so from every state a run can reach, and then everything accepted was handled |
| `Activity.SafeTypes` | activity.c:90-121 | a set of client message types is safe in every run if and only if each is refused, or stored as neither STOP nor EXEC |
| `ActivityMail.SafeInNumbers` | activity.c:79-120 | a set of client types is safe if and only if none up to 65535 is 1 or 2 modulo 65536 |
| `Activity.ForeignStop` | activity.c:91-93 | a run in which a client type stored as STOP breaks the state machine |
| `Activity.ForeignExec` | activity.c:95-106 | a run in which a client type stored as EXEC ends with the release of something that is no exec item |
| `Activity.EnqueueKeeps` | activity.c:42-58 | a running activity keeps its phase under a post if and only if the message is not a STOP, and stays free of misused messages if and only if it is no client message stored as EXEC |
| `Activity.HandleKeeps` | activity.c:87-124 | handling keeps phase and order |
| `Activity.DequeueKeeps` | activity.c:60-70 | taking the first message keeps phase and order |
| `Activity.WorkerKeeps` | activity.c:126-219 | every worker or launch step keeps phase and order |
| `Activity.WorkerConserves` | activity.c:95-148 | a worker step conserves ownership if and only if it does not handle a client message as an EXEC |
| `Activity.StopConserves` | activity.c:72-85 | a stop request conserves ownership, also when the pool is exhausted |
| `Activity.PostConserves` | activity.c:329-346 | posting moves what the call holds into the message, or leaves it to be given back |
| `Activity.CallConserves` | activity.c:307-393 | every step of send and exec, on success and on every error path, conserves ownership |
| `Activity.NextKeeps` | activity.c:42-393 | every step of the system keeps the protocol |
| `Activity.NextConserves` | activity.c:42-393 | every step of the system conserves ownership |
| `Md5.RoundFunctions` | md5.c:251-254 | the cheaper forms equal the functions of section 3.4 of RFC 1321 |
| `Md5.OrdersAgree` | md5.c:288-295 | the word order table is that of the four rounds |
| `Md5.TurnsAgree` | md5.c:298-303 | the rotation table is that of the four rounds |
| `Md5.ConstantsAgree` | md5.c:265-286 | the hexadecimal constants are the integer parts of 2^32 times abs(sin(i)), given in decimal |
| `Md5.LoopStepIsOperation` | md5.c:368-373 | one pass of a round loop is one operation of the RFC, registers renamed |
| `Md5.Scramble` | md5.c:366-395 | the four loops perform the 64 operations |
| `Md5.ProcessConcat` | md5.c:321-323 | processing blocks composes over concatenation |
| `Md5Vectors.EmptyDigest` | md5.c:85-138 | the digest of the empty message is the one of section A.5 of RFC 1321 |
| `Md5Vectors.Step` | md5.c:354-395 | one operation, by the value it writes |
| `Md5Vectors.InitialBytes` | md5.c:85-93 | the initial registers are the bytes of section 3.3 of RFC 1321, low-order first |
| `Md5Vectors.RotateBits` | md5.c:59 | a rotation by s takes bit j - s, counted round the word, to bit j |
| `Md5Vectors.WordValue` | md5.c:70-72 | a word is the number its bytes write to the base 256, low-order first, and gives them back |
| `Md5Stream.CountAdds` | md5.c:312-317 | one carry is enough for calls below 2^32 bytes |
| `Md5Stream.CountAddsExactly` | md5.c:312-317 | for every length: the count stays right if and only if the length is below 2^32 or the low word overflows exactly once modulo 2^32 |
| `Md5Stream.LongCallMiscounts` | md5.c:312-317 | a first call with 2^33 bytes loses a carry |
| `Md5Stream.BitCount` | md5.c:119-122 | the shifted double word is the bit count modulo 2^64 |
| `Md5Stream.Absorb` | md5.c:210-245 | taking whole blocks off pending plus new bytes keeps the context's meaning |
| `Md5Stream.FinishesBlocks` | md5.c:100-125 | pending bytes with the padding complete the message of sections 3.1 and 3.2 |
| `Md5Stream.Context.constructor` | md5.c:85-94 | an empty message |
| `Md5Stream.Context.ProcessBlock` | md5.c:258-323 | registers and count after whole blocks |
| `Md5Stream.Context.TopUp` | md5.c:214-231 | the buffer, which may hold a full block, is filled and compressed |
| `Md5Stream.Context.Bulk` | md5.c:233-238 | whole blocks straight from the input |
| `Md5Stream.Context.Stash` | md5.c:240-244 | at most one block waits in the buffer |
| `Md5Stream.Context.ProcessBytes` | md5.c:210-245 | feeding appends to the message, for every call that is counted right |
| `Md5Stream.Context.Finish` | md5.c:100-138 | the digest of everything fed |
| `Md5Stream.HashChunks` | md5.c:85-245 | every chunking whose calls are counted right gives the digest of the concatenation |
| `Md5Stream.HashBuffer` | md5.c:196-208 | the one-call form gives the digest, also of buffers of 2^32 bytes and more that are counted right |
| `ListHead.ListIsUnique` | linux_list.h:76-84 | links determine the entries: a heap holds at most one list for a head |
| `ListHead.Turn` | linux_list.h:76-84 | any entry may serve as the head of the same ring |
| `ListHead.Inverse` | linux_list.h:103-110 | next and prev undo each other everywhere on a ring |
| `ListHead.Init` | linux_list.h:91-94 | an empty list |
| `ListHead.Insert` | linux_list.h:103-110 | the four links of an insertion |
| `ListHead.Add` | linux_list.h:125-127 | the new entry is first, the others keep their order |
| `ListHead.AddTail` | linux_list.h:137-139 | the new entry is last |
| `ListHead.Unlink` | linux_list.h:148-163 | the others close up, the entry keeps its stale links |
| `ListHead.Del` | linux_list.h:165-169 | the others close up, the entry is poisoned |
| `ListHead.DelInit` | linux_list.h:201-204 | the others close up, the entry is an empty list |
| `ListHead.Replace` | linux_list.h:183-189 | the new node takes the old one's place, also when the old one was alone |
| `ListHead.ReplaceInit` | linux_list.h:191-195 | and the old one becomes an empty list |
| `ListHead.Move` | linux_list.h:211-214 | within one ring or between two |
| `ListHead.MoveTail` | linux_list.h:221-225 | likewise, to the end |
| `ListHead.IsLast` | linux_list.h:232-235 | true if and only if it is the last entry |
| `ListHead.IsEmpty` | linux_list.h:241-243 | true if and only if there is no entry |
| `ListHead.IsEmptyCareful` | linux_list.h:258-261 | true if and only if there is no entry |
| `ListHead.IsSingular` | linux_list.h:280-282 | true if and only if there is exactly one entry |
| `ListHead.RotateLeft` | linux_list.h:267-274 | the first entry becomes the last |
| `ListHead.RotateTimes` | linux_list.h:267-274 | n rotations move the first n entries to the end, so a full turn restores the list |
| `ListHead.CutAt` | linux_list.h:284-293 | the entries up to the cut and those after it, as two lists |
| `ListHead.CutPosition` | linux_list.h:309-323 | all four outcomes, including the two that leave everything alone |
| `ListHead.Join` | linux_list.h:325-336 | the four links of a splice |
| `ListHead.Splice` | linux_list.h:343-348 | concatenation in front; the spliced head keeps its stale links |
| `ListHead.SpliceTail` | linux_list.h:355-360 | concatenation at the end |
| `ListHead.SpliceInit` | linux_list.h:369-375 | concatenation in front, and the spliced list is empty |
| `ListHead.SpliceTailInit` | linux_list.h:385-391 | concatenation at the end, and the spliced list is empty |
| `ListHead.CutThenSpliceInit` | linux_list.h:309-375 | restores the list if and only if something was cut or `list` was empty; otherwise the old entries of `list` are in front |
| `ListHead.ForEach` | linux_list.h:455-461 | the walk meets every entry once, in order, and ends |
| `ListRun.RemoveEntry` | linux_list.h:165-204 | deletion as its list's head sees it |
| `ListRun.ReplaceEntry` | linux_list.h:183-195 | replacement as its list's head sees it |
| `ListRun.CutEntry` | linux_list.h:309-323 | a cut by what it leaves, into a list or into a head that is none |
| `ListRun.Step` | linux_list.h:91-391 | each of the seventeen operations on a family of disjoint lists, replacing a head included, refines the one on sequences and leaves all other lists alone; a node taken out by an `_init` operation is an empty list of its own until it is used again |
| `ListRun.RunReplaceHead` | linux_list.h:183-195 | a new head takes over all entries of the old one, also when there are none |
| `ListRun.Run` | linux_list.h:91-391 | so does every program of them, heads spliced away, set up again and replaced included, and nodes left alone |
| `ListRun.NothingElse` | linux_list.h:91-391 | no operation puts anything into a list but its own new node and nodes of lists |
| `Crc.TableLow` | crc.c:10-43 | the first 128 table entries are the remainders they stand for |
| `Crc.TableHigh` | crc.c:10-43 | so are the other 128 |
| `Crc.FeedByte` | crc.c:65-70 | one table step is eight steps of bit-serial division |
| `Crc.Update` | crc.c:60-73 | bit-serial division of the message by 0x1021, for every initial value |
| `Crc.Compute` | crc.c:45-58 | the same from zero |
| `Crc.CheckValue` | crc.c:45-73 | the code of the digits 1 to 9 is 0x31c3 |
| `Crc.Composes` | crc.c:60-73 | the code of two parts is the code of the second started from that of the first |
| `Crc.FeedInjective` | crc.c:60-73 | different registers stay different under equal input |
| `Crc.BurstDetected` | crc.c:60-73 | every burst of at most 16 bits in messages of any length changes the code |
| `Crc.TwoBytesDetected` | crc.c:60-73 | messages that differ only within two consecutive bytes have different codes |
| `Crc.FeedBitParity` | crc.c:60-73 | each message bit changes the parity of the register by that bit |
| `Crc.OddErrorDetected` | crc.c:60-73 | an odd number of wrong bits in messages of any length changes the code |
| `CrcOrder.ShiftsAreProduct` | crc.c:60-73 | n shifts of the register are its product with x^n modulo the polynomial |
| `CrcOrder.OrderIsExact` | crc.c:60-73 | x^n is one modulo the polynomial if and only if 32767 divides n |
| `CrcOrder.TwoBitsDetected` | crc.c:60-73 | exactly two wrong bits, in messages of any length, change the code if and only if their distance is not a multiple of 32767 |
| `Pool.ElementsApart` | pool.c:55-71 | different carved elements never overlap |
| `Pool.LiveApart` | pool.c:47-72 | live elements never overlap in any reachable state |
| `Pool.Scribbled` | pool.c:74-80 | whatever bytes a client writes into what it holds, the free list stays intact |
| `Pool.LinkHasRoom` | pool.c:13-32 | the eight bytes of a link fit into an element and belong to no other one, live or free |
| `Pool.KeptByFree` | pool.c:74-80 | what clients wrote into their other elements survives the link that free writes |
| `Pool.Pool.constructor` | pool.c:13-32 | an empty pool with elements of at least eight bytes, which is well formed if and only if a block has elements |
| `Pool.Pool.Malloc` | pool.c:47-72 | returns an element that is not live and changes no byte; free list, carved set and peak stay exact |
| `Pool.Pool.NextBlock` | pool.c:55-69 | table doubling and block creation; non-NULL blocks stay a prefix |
| `Pool.Pool.Free` | pool.c:74-80 | exactly that element stops being live, and only its first eight bytes change |
| `Pool.Pool.FreeAll` | pool.c:82-87 | nothing is live, the blocks are kept |
| `Pool.Pool.Deinit` | pool.c:34-45 | returns the blocks it freed: all of them, none twice |
| `Pool.Pool.Walk` | pool.c:47-53 | following the links meets every free element once |
| `Pool.BlockSizeIsExact` | pool.c:68-71 | with both products in 32 bits, all elements lie in the memory malloc was asked for if and only if a block has elements and its size fits in 32 bits |
| `Pool.Run` | pool.c:13-87 | every run: each malloc is answered with an element that is not held, held elements never overlap and keep what was written into them, the number carved since the last reset is the peak number held, and the free list holds the others, each once; refused exactly when a malloc meets blocks without elements |
| `Queue.TailIsExact` | queue.c:33-37 | the 16-bit sum is exact in every state if and only if the size is at most 32768 |
| `Queue.AppendIsFifo` | queue.c:26-59 | an append is right in every state if and only if the size is at most 32768 |
| `Queue.BadRunFails` | queue.c:26-89 | for each larger size, a run of appends and gets after which get returns the wrong item |
| `Queue.QueueExactly` | queue.c:26-89 | every run of appends and gets answers as a bounded FIFO if and only if the size is at most 32768 |
| `Queue.Queue.Clear` | queue.c:13-23 | empty |
| `Queue.Queue.Append` | queue.c:26-59 | one item at the end, refused exactly when full |
| `Queue.Queue.Get` | queue.c:62-89 | the oldest item, refused exactly when empty |
| `Queue.Queue.NumItems` | queue.c:91-94 | number of items held |
| `Queue.Queue.NumAvailable` | queue.c:96-99 | number of items that still fit |
| `Queue.Queue.Enqueue` | queue.c:101-135 | all of the data at the end, or nothing |
| `Queue.Queue.PeekConsequent` | queue.c:137-164 | the longest prefix within the limit that does not wrap |
| `Queue.Queue.PeekNoncopy` | queue.c:167-186 | the same as a place in the buffer |
| `Queue.Queue.Release` | queue.c:188-210 | drops from the front, at most what is there |
| `Queue.Queue.Drain` | queue.c:166-210 | two peek and release rounds take out everything in order |
| `Queue.RunAll` | queue.c:13-210 | after any mix of operations, peeks included, the ring holds what a bounded FIFO holds and every operation returned what the FIFO says |
| `LogBuffer.WriteInside` | logbuffer.c:38-40 | a write that stays inside keeps the history |
| `LogBuffer.WriteAcross` | logbuffer.c:41-51 | a write that reaches or passes the end keeps the last lap |
| `LogBuffer.LogBuffer.Puts` | logbuffer.c:28-53 | oversized writes keep their end; returns what was stored |
| `LogBuffer.LogBuffer.Gets` | logbuffer.c:55-68 | the last min(total, size) bytes ever written, in order |
| `LogBuffer.RunAll` | logbuffer.c:14-68 | so for any history of writes |
| `Base64.TableIsAlphabet` | b64.h:29-38 | the table is the alphabet of section 4 of RFC 4648 |
| `Base64.EncodeMasks` | b64.c:171-174 | the masks, shifts and sums of the encoder, on eight bits, are the quotients and remainders of the bytes |
| `Base64.DecodeMasks` | b64.c:63-65 | the same for the decoder |
| `Base64.DigitsOfGroup` | b64.c:171-174 | these quotients and remainders are the four digits of the 24-bit group |
| `Base64.OctetsOfJoined` | b64.c:63-65 | and the three bytes of four joined digits |
| `Base64.EncLength` | b64.c:152-222 | the encoding of n bytes has 4 * ceil(n / 3) characters |
| `Base64.RoundTrip` | b64.c:27-222 | decoding an encoding gives the bytes back, with their exact length |
| `Base64.EncIsCanonical` | b64.c:190-215 | an encoding is whole groups with padding only at the end and no stray bits |
| `Base64.EndsInPadding` | b64.c:190-215 | an encoding ends in "==" after one byte more than whole groups, in one "=" after two, and has only letters of the alphabet otherwise |
| `Base64.TestVectors` | b64.c:27-222 | the vectors of section 10 of RFC 4648, encoded and decoded |
| `Base64.ReencodeExactly` | b64.c:27-222 | re-encoding a decoded text gives it back if and only if it is canonical |
| `Base64.Lookup` | b64.c:53-59 | the index of a table character; any other character stays as it is |
| `Base64.Encode` | b64.c:152-222 | the loops compute the encoding of section 4 of RFC 4648 |
| `Base64.Decode` | b64.c:27-130 | the loops decode up to the first character outside the alphabet |

## Left out

- Electric Fence: memory contents (EF_FILL, memcpy in realloc), locking, banner, environment parsing, posix_memalign, calloc, valloc and the string functions; mmap is an arbitrary page-aligned range that overlaps nothing, or the end of the process; access rights are a ghost set of bytes.
- Electric Fence: sizes are unbounded numbers; `EfenceRun.SizeIsExact` states when the 64-bit computation agrees.
- EfenceRun.Run: settings are fixed during a run, the page size is smaller than the creation size, holds at least seven slots and is a multiple of the alignment, as start-up needs.
- Efence.Allocator.Realloc: dying in memcpy counts as an abort; for an empty buffer fenced from below the condition is stated on the table in which it is looked up.
- Activity: which handler function runs for a message, the result of a stop call, registration by name, the manager's init and fini, the periodic timer, join in stop, delayed messages and scheduling (a stop can always complete, not that the worker gets to run); the event loop is assumed to return only after its exit call; a send that is refused for a null activity or a delay returns some negative code.
- MD5: the FILE form, big-endian byte swapping and the other size/speed settings; the two disjoint parts of the high length word are added instead of or-ed.
- Lists: hlist, the typed iteration macros and the safe variants; poison pointers are null.
- ListHead.CutPosition: requires an entry of the list, or its head, when there are two or more entries, as the comment above the function does.
- Bitmaps: single-bit operations, rotates, the 8-, 16- and 32-bit counts, the word-wise combinations, fill and copy are easier than what is here; the 32-bit word size and compiler builtins are not modelled; sizes are at least 1 except where the source handles 0.
- Word.BitShr: a shift by n is n shifts by one.
- Pool: allocation failure and 32-bit wrap-around of the counters.
- Pool.Run: does not follow a pool without elements beyond its first malloc, which hands out memory that is not its own (`Pool.BlockSizeIsExact`).
- Queue: the critical sections; sizes above 32768, which do not work (`Queue.QueueExactly`).
- Log: the file descriptor form; `buf_size` is ignored by the source, so the caller's buffer must hold what is kept.
- Base64: allocation failure, including a reallocation to zero bytes; isalnum is that of the C locale.
- CRC: the 32-bit length; messages are sequences.
- bitmap.h, event1.c, speck.c, app_utils.c, cmocka, protothread, sockets, timers, logging and system calls: easier or bound to I/O.
