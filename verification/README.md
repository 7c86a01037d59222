# Memcached and the assembly shuffler, modelled and proved in Dafny

This project models the storage, indexing and buffering code of memcached 1.6.9 and
one code transformation of the assembly generator that clones its performance, and
proves what that code is relied on for. Code that updates state in place is written as
classes and loops, each proved against a function on values; what holds over whole runs,
with threads interleaving, is proved about those functions. What a single operation does is
stated again by an outcome lemma, in terms of what can be seen before and after it.

`dafny verify dfyconfig.toml` checks everything. Each file is one module.

| file | what it is about |
|---|---|
| `Crc32cSpec`, `Crc32cHardware`, `Crc32cSoftware` | the three CRC-32C routines compute the CRC of section 12.1 of RFC 3720 |
| `ExtStoreSpec`, `ExtStoreInv`, `ExtStoreRuns`, `ExtStoreEngine` | pages, write buffers and threads of the external storage engine; reads are exact or miss |
| `ExtStoreCounts`, `ExtStoreOutcomes`, `ExtStoreReadback` | what its page counts mean, when pages stay and go, what each step does, and what the disk holds |
| `ExtStoreWriters`, `ExtStoreRaces` | its writers and allocators step by step, and when an assertion can fail |
| `Assoc`, `AssocChains`, `AssocTable`, `AssocIterator` | the hash table during its expansion, on values and on linked items, and walks over it |
| `LruKinds`, `LruQueue`, `LruPull`, `LruRefinement`, `LruBump`, `Crawler` | the segmented LRU: linked queues, pulling the tail, asynchronous bumps, the crawler |
| `Transmit`, `RespBundle`, `ChunkCopy`, `CasStore` | responses sent piecewise, their allocator, chunked append and prepend, compare-and-store and increments |
| `BipBufferModel`, `Itoa`, `Numbers` | the byte ring between threads, the decimal printer, and the reader of numbers |
| `Shuffle` | shuffling code blocks keeps what the code does |
| `Sequences`, `Options`, `ByteStrings`, `Arithmetic` | lists without repetitions, optional values, bytes, facts about products |

Where a property turned out not to hold of the code, the code is kept as it is, a lemma
shows an input or a run for which it fails, and another lemma states exactly when it holds:

- a poll of more than was peeked: `BipBufferModel.PollTooMuch`, `BipBufferModel.PollSoundExactly`;
- a chunked item as the first entry of a response, or a second one: `Transmit.FirstChunkedSendsHeader`,
  `Transmit.SecondChunkedSendsHeader`, `Transmit.ChunkedBytesExactly`;
- a chunked operand of an item in one piece: `ChunkCopy.ChunkedOperandOfFlatItem`, `ChunkCopy.StoresJoinedExactly`;
- a held item that takes over another item's id: `CasStore.HeldItemMixesIds`, `CasStore.HonestStep`;
- a number taken for another one, or refused: `Numbers.NegativeNumbers`, `Numbers.ReadsBack`;
- an item lock that is kept but handed to nobody: `LruPull.SomeLost`, `LruPull.NothingLostExactly`;
- the assertions on a read from a write buffer: `ExtStoreRuns.EmptyObjectFails`, and exactly which reads and which
  configurations, `ExtStoreRuns.FailedReadExactly`, `ExtStoreRuns.ReadCanFailExactly`;
- the assertion that a bucket's newest page is full: `ExtStoreRaces.SharedBucketFails`,
  `ExtStoreRaces.CanFailExactly`.

Memory, disk, clock, network and random outcomes are parameters: whether an allocation
succeeds, how many bytes a send accepts, which locks are busy, what time it is, what memory
holds behind a value, which numbers are drawn.

## Model

| member | source | states |
|---|---|---|
| `Crc32cSpec.ChecksumIsRfc3720` | applications/memcached-1.6.9/crc32c.c:160-245 | the running checksum (complement, eight bit steps per byte, complement) is the CRC-32C of section 12.1 of RFC 3720, written as polynomial division with the unreflected generator 11EDC6F41 |
| `Crc32cSpec.ChecksumConcat` | applications/memcached-1.6.9/crc32c.h:11-14 | feeding a result back in as the starting value gives the checksum of the concatenation |
| `Crc32cSpec.StepsLinear` | applications/memcached-1.6.9/crc32c.c:84-116 | any number of zero bits acts linearly over GF(2) on the register |
| `Crc32cSpec.StepsAdd` | applications/memcached-1.6.9/crc32c.c:104-111 | zero bits compose: m after n is m + n |
| `Crc32cSpec.RegisterSplit` | applications/memcached-1.6.9/crc32c.c:183-199 | a starting value can be shifted by zeros and added to the CRC started from zero |
| `Crc32cSpec.RegisterConcat` | applications/memcached-1.6.9/crc32c.c:171-241 | the register after a concatenation is the register of the second part started from that of the first |
| `Crc32cSpec.RegisterIsBitSteps` | applications/memcached-1.6.9/crc32c.c:350-361 | byte-wise steps are the bit-serial register fed with the message bits, low bit first |
| `Crc32cHardware.QuadInstruction` | applications/memcached-1.6.9/crc32c.c:187-194 | crc32q, taken as 64 bit steps on a little-endian load, is the register over the eight bytes in memory order |
| `Crc32cHardware.TimesIsSteps` | applications/memcached-1.6.9/crc32c.c:61-70 | multiplying by an operator for n zero bits applies n zero bits to any register |
| `Crc32cHardware.SquareDoubles` | applications/memcached-1.6.9/crc32c.c:74-77 | squaring an operator for n zero bits gives the operator for 2n |
| `Crc32cHardware.GfMatrixTimes` | applications/memcached-1.6.9/crc32c.c:61-70 | the loop that stops when the vector is used up computes the matrix product |
| `Crc32cHardware.GfMatrixSquare` | applications/memcached-1.6.9/crc32c.c:74-77 | each row of the square is the product of the matrix with its own row |
| `Crc32cHardware.DoubleOperator` | applications/memcached-1.6.9/crc32c.c:95-111 | one squaring puts the operator for 2n zero bits into the other matrix |
| `Crc32cHardware.OneBitOperator` | applications/memcached-1.6.9/crc32c.c:87-93 | the polynomial and the shifted rows are the operator for one zero bit |
| `Crc32cHardware.ZerosOp` | applications/memcached-1.6.9/crc32c.c:84-116 | the operator for 8 times the largest power of two not above len (1 for len 0), whichever of the two matrices it ends up in |
| `Crc32cHardware.Zeros` | applications/memcached-1.6.9/crc32c.c:120-130 | the four byte tables of that operator |
| `Crc32cHardware.ShiftIsSteps` | applications/memcached-1.6.9/crc32c.c:133-136 | four table lookups apply the operator to a whole register |
| `Crc32cHardware.JoinThree` | applications/memcached-1.6.9/crc32c.c:195-196 | shift, xor, shift, xor joins three independently started streams into the register over all three blocks |
| `Crc32cHardware.ThreeStreams` | applications/memcached-1.6.9/crc32c.c:184-194 | the interleaved loop computes the three registers of three adjacent blocks |
| `Crc32cHardware.ThreeWay` | applications/memcached-1.6.9/crc32c.c:183-219 | the outer loop leaves less than three blocks and the register over what it consumed |
| `Crc32cHardware.InitHw` | applications/memcached-1.6.9/crc32c.c:154-157 | the two table sets shift by exactly LONG and SHORT zero bytes |
| `Crc32cHardware.Crc32cHw` | applications/memcached-1.6.9/crc32c.c:160-245 | for every buffer, alignment and starting value the x86 routine returns the RFC 3720 CRC-32C, with every eight-byte load at a multiple of eight |
| `Crc32cSoftware.ByteLookup` | applications/memcached-1.6.9/crc32c.c:365 | a table lookup on the low byte and a byte shift are eight bit steps |
| `Crc32cSoftware.InitSwLittle` | applications/memcached-1.6.9/crc32c.c:349-369 | row k, entry n of the slicing table is byte n followed by k zero bytes |
| `Crc32cSoftware.EightBytes` | applications/memcached-1.6.9/crc32c.c:385-393 | eight bytes at once: the register is the sum of each folded byte moved past the bytes behind it |
| `Crc32cSoftware.SliceStep` | applications/memcached-1.6.9/crc32c.c:385-393 | eight lookups in the little-endian table are the register over eight bytes |
| `Crc32cSoftware.Crc32cSwLittle` | applications/memcached-1.6.9/crc32c.c:373-404 | for every buffer, alignment and starting value the little-endian routine returns the RFC 3720 CRC-32C, with aligned loads |
| `Crc32cSoftware.SwapByte` | applications/memcached-1.6.9/crc32c.c:411-415 | the mask-and-shift swap reverses the eight bytes |
| `Crc32cSoftware.InitSwBig` | applications/memcached-1.6.9/crc32c.c:422-443 | the byte table, and a slicing table holding the swapped forms of the little-endian entries |
| `Crc32cSoftware.BigSliceStep` | applications/memcached-1.6.9/crc32c.c:459-467 | eight lookups in the big-endian table on a swapped register are the swapped register over eight bytes |
| `Crc32cSoftware.Crc32cSwBig` | applications/memcached-1.6.9/crc32c.c:447-478 | with aligned big-endian loads the big-endian routine returns the RFC 3720 CRC-32C |
| `BipBufferModel.UsedIsLength` | applications/memcached-1.6.9/bipbuffer.c:23-66 | bipbuf_used is the length of the queue, bipbuf_is_empty is exact, and bipbuf_unused never exceeds the memory left |
| `BipBufferModel.WriteAndPush` | applications/memcached-1.6.9/bipbuffer.c:91-128 | bytes written at the requested place and pushed join the back of the queue, and region A is not touched |
| `BipBufferModel.OfferAppends` | applications/memcached-1.6.9/bipbuffer.c:109-128 | an offer appends all its bytes or none |
| `BipBufferModel.OfferFits` | applications/memcached-1.6.9/bipbuffer.c:77-128 | an offer is taken, and a request granted, if and only if the bytes from the write offset on are in the memory and hold nothing; an empty buffer takes all its size, one without region B half its free bytes |
| `BipBufferModel.SwitchExactly` | applications/memcached-1.6.9/bipbuffer.c:70-75 | region B is turned on exactly when there is more room before region A than behind it, and stays on until region A is drained and it takes its place |
| `BipBufferModel.PollOutcome` | applications/memcached-1.6.9/bipbuffer.c:151-180 | a poll does nothing on an empty buffer or past the end of the memory, takes the oldest bytes up to region A, and breaks the queue otherwise |
| `BipBufferModel.PollTakes` | applications/memcached-1.6.9/bipbuffer.c:151-180 | a poll of no more than region A takes exactly the oldest bytes, through every switch of regions |
| `BipBufferModel.PollSoundExactly` | applications/memcached-1.6.9/bipbuffer.c:151-180 | an accepted poll keeps a valid queue, shorter by what it asked for, if and only if it asks for no more than region A holds |
| `BipBufferModel.PollTooMuch` | applications/memcached-1.6.9/bipbuffer.c:151-180 | the bound of bipbuf_poll does not catch every larger poll: a run that reaches a ring which such a poll breaks |
| `BipBufferModel.PushRoom` | applications/memcached-1.6.9/bipbuffer.c:70-107 | a push of n costs at most n bytes of room even when it switches regions |
| `BipBufferModel.RequestCovers` | applications/memcached-1.6.9/bipbuffer.c:77-128 | after a successful request of n bytes any pushes and offers of at most n in all succeed |
| `BipBufferModel.RefinesFifo` | applications/memcached-1.6.9/bipbuffer.c:23-180 | in every state of every run the ring holds exactly the bytes of a first-in first-out queue |
| `BipBufferModel.RunExtends` | applications/memcached-1.6.9/bipbuffer.c:23-180 | every enabled event continues a run: validity of the ring never stops one |
| `BipBufferModel.WindowStepStable` | applications/memcached-1.6.9/bipbuffer.c:91-149 | no push, offer or peek changes the bytes of a peeked window |
| `BipBufferModel.PeekedWindowStable` | applications/memcached-1.6.9/bipbuffer.c:130-180 | from a peek to its poll the window's bytes stay the front of the queue |
| `BipBufferModel.EntriesStayAligned` | applications/memcached-1.6.9/items.c:1326-1347 | with 16-byte entries only, every peeked window is a whole number of entries |
| `BipBufferModel.BipBuffer.constructor` | applications/memcached-1.6.9/bipbuffer.c:42-56 | an empty buffer on memory that is not cleared |
| `BipBufferModel.BipBuffer.Unused` | applications/memcached-1.6.9/bipbuffer.c:23-30 | the room in the region that is being written, never negative and never more than the memory left |
| `BipBufferModel.BipBuffer.Used` | applications/memcached-1.6.9/bipbuffer.c:37-40 | the length of the queue |
| `BipBufferModel.BipBuffer.IsEmpty` | applications/memcached-1.6.9/bipbuffer.c:63-66 | whether the queue is empty |
| `BipBufferModel.BipBuffer.Request` | applications/memcached-1.6.9/bipbuffer.c:77-89 | the write place, with room for the request inside the memory, or nothing when there is not enough |
| `BipBufferModel.BipBuffer.Push` | applications/memcached-1.6.9/bipbuffer.c:91-107 | commits the bytes or refuses, and keeps the ring valid |
| `BipBufferModel.BipBuffer.Offer` | applications/memcached-1.6.9/bipbuffer.c:109-128 | appends the bytes to the queue or changes nothing |
| `BipBufferModel.BipBuffer.PeekAll` | applications/memcached-1.6.9/bipbuffer.c:142-149 | region A, whose bytes are the front of the queue |
| `BipBufferModel.BipBuffer.Poll` | applications/memcached-1.6.9/bipbuffer.c:151-180 | takes n bytes off the front when n is within region A |
| `Itoa.DecimalIsCanonical` | applications/memcached-1.6.9/itoa_ljust.c:109-149 | the text printed is all digits, has no leading zero, and parses back to the number |
| `Itoa.SignedIsCanonical` | applications/memcached-1.6.9/itoa_ljust.c:119-149 | the text of a signed number has a sign exactly if the number is negative, no leading zero, and reads back as the number |
| `Itoa.DecimalLength` | applications/memcached-1.6.9/itoa_ljust.c:109-149 | a number below 10^k has at most k digits |
| `Itoa.U64TextFits` | applications/memcached-1.6.9/memcached.h:66 | the text of any 64-bit number with its NUL fits in INCR_MAX_STORAGE_LEN |
| `Itoa.DecimalSplit` | applications/memcached-1.6.9/itoa_ljust.c:134-139 | the text of a number is the text of its upper part followed by the padded lower digits |
| `Itoa.LutIsPad` | applications/memcached-1.6.9/itoa_ljust.c:64-76 | the table holds the two digits of every number below 100 |
| `Itoa.SubtractLeavesLow` | applications/memcached-1.6.9/itoa_ljust.c:95-102 | the 32-bit multiply and subtract leaves exactly the lower digits |
| `Itoa.Out2` | applications/memcached-1.6.9/itoa_ljust.c:73-76 | two digits are written at the pointer and nothing else changes |
| `Itoa.Digits` | applications/memcached-1.6.9/itoa_ljust.c:83-90 | an odd number of digits has its first one printed, and the switch is entered at the right case |
| `Itoa.Itoa` | applications/memcached-1.6.9/itoa_ljust.c:92-107 | the fall-through switch writes the remaining digits and the NUL, from every entry case |
| `Itoa.ItoaU32` | applications/memcached-1.6.9/itoa_ljust.c:109-117 | writes the decimal text of every 32-bit number, the NUL after it, and nothing else |
| `Itoa.ItoaU64` | applications/memcached-1.6.9/itoa_ljust.c:128-140 | the same for every 64-bit number, over the recursion on the upper part |
| `Itoa.Itoa32` | applications/memcached-1.6.9/itoa_ljust.c:119-126 | the same for signed 32-bit numbers, the least one included |
| `Itoa.Itoa64` | applications/memcached-1.6.9/itoa_ljust.c:142-149 | the same for signed 64-bit numbers, the least one included |
| `Assoc.BucketIsRemainder` | applications/memcached-1.6.9/assoc.c:37-38 | the mask of the low n bits is the remainder modulo 2^n |
| `Assoc.SizeFitsWord` | applications/memcached-1.6.9/assoc.c:37 | the shift of a 32-bit one is the table size exactly up to 31, one less than HASHPOWER_MAX |
| `Assoc.SameBucketSameLock` | applications/memcached-1.6.9/assoc.c:208-212 | hashes that share a bucket share the item lock that guards it |
| `Assoc.InsertRefines` | applications/memcached-1.6.9/assoc.c:152-169 | inserting a new key adds it to the finite map the table stands for, in both tables of an expansion |
| `Assoc.DeleteRefines` | applications/memcached-1.6.9/assoc.c:171-188 | deleting a key removes exactly it from the map |
| `Assoc.ExpandRefines` | applications/memcached-1.6.9/assoc.c:121-140 | starting an expansion, with or without memory, leaves the map unchanged |
| `Assoc.MoveValid` | applications/memcached-1.6.9/assoc.c:213-232 | after a bucket move every item is in the bucket its hash leads to, in the table that lookups choose |
| `Assoc.MoveFind` | applications/memcached-1.6.9/assoc.c:213-232 | a bucket move changes the outcome of no lookup |
| `Assoc.MoveRefines` | applications/memcached-1.6.9/assoc.c:213-232 | a bucket move leaves the map unchanged |
| `Assoc.RouteStable` | applications/memcached-1.6.9/assoc.c:73-83 | moving other buckets, any number of them, changes neither the table nor the chain a hash leads to |
| `Assoc.RunRefinesMap` | applications/memcached-1.6.9/assoc.c:73-232 | in every state of every run of inserts, deletes, expansions and bucket moves the table agrees with the map |
| `Assoc.ChainAfter` | applications/memcached-1.6.9/assoc.c:152-188 | an insert puts its item at the head of the key's chain, a delete takes exactly that item out and keeps the order, and no other chain changes |
| `Assoc.ChainMoved` | applications/memcached-1.6.9/assoc.c:212-232 | a bucket move turns the chain around and splits it by the next bit of the hashes, and leaves every other chain as it is |
| `Assoc.RunExtends` | applications/memcached-1.6.9/assoc.c:73-232 | every enabled event continues a run: the shape of the tables never stops one |
| `Assoc.ExpansionLength` | applications/memcached-1.6.9/assoc.c:222-232 | an expansion ends after exactly hashsize(hashpower - 1) bucket moves, and not before |
| `AssocTable.Buckets.Insert` | applications/memcached-1.6.9/assoc.c:157-165 | one bucket of an array gets a new head, with all links of the array right |
| `AssocTable.Buckets.Delete` | applications/memcached-1.6.9/assoc.c:171-188 | one bucket of an array loses the key's item, with all links of the array right |
| `AssocTable.HashTable.constructor` | applications/memcached-1.6.9/assoc.c:58-71 | an empty table of the asked-for size |
| `AssocTable.HashTable.AssocFind` | applications/memcached-1.6.9/assoc.c:73-97 | following the pointers of the chain the hash leads to finds what the map has |
| `AssocTable.HashTable.AssocInsert` | applications/memcached-1.6.9/assoc.c:152-169 | the pointer writes make the item the head of its chain, in the table being filled or emptied, and leave every other chain alone |
| `AssocTable.HashTable.AssocDelete` | applications/memcached-1.6.9/assoc.c:171-188 | the key's item, if there is one, is led around in its chain, and every other chain is left alone |
| `AssocTable.HashTable.AssocExpand` | applications/memcached-1.6.9/assoc.c:121-140 | doubles the table, or keeps the old one when there is no memory |
| `AssocTable.HashTable.MoveOneBucket` | applications/memcached-1.6.9/assoc.c:212-232 | relinks the nodes of one old bucket into the new table, with no node in two buckets, and ends the expansion at the last |
| `AssocChains.FindNode` | applications/memcached-1.6.9/assoc.c:85-97 | following h_next from the bucket finds what the chain has under the key |
| `AssocChains.InsertNode` | applications/memcached-1.6.9/assoc.c:157-165 | two pointer writes put the item in front of the chain |
| `AssocChains.NodeBefore` | applications/memcached-1.6.9/assoc.c:102-118 | the link that leads to the key's item: the bucket itself, or the h_next of the node before it |
| `AssocChains.DeleteNode` | applications/memcached-1.6.9/assoc.c:171-188 | leading that link around the item leaves exactly the chain without it, and the item without a successor |
| `AssocChains.MoveNodes` | applications/memcached-1.6.9/assoc.c:213-218 | relinking each node of an old bucket leaves the new buckets as the scatter of the chain, with no node in two of them |
| `AssocIterator.RunKeepsInv` | applications/memcached-1.6.9/assoc.c:302-363 | in every state of every walk the saved pointers are where the walk left them, although other threads change unlocked buckets |
| `AssocIterator.RunExtends` | applications/memcached-1.6.9/assoc.c:302-363 | every enabled event continues a walk: the invariant never stops one |
| `AssocIterator.CallCounts` | applications/memcached-1.6.9/assoc.c:312-354 | one call returns the next item of the bucket it holds, or moves to the next bucket |
| `AssocIterator.ReturnedExactlyOnce` | applications/memcached-1.6.9/assoc.c:302-363 | a whole walk returns every item that stays linked exactly once |
| `AssocIterator.LocksHeld` | applications/memcached-1.6.9/assoc.c:312-363 | at most one bucket lock is held at a time and none after assoc_iterate_final |
| `AssocIterator.CallsExact` | applications/memcached-1.6.9/assoc.c:312-354 | after any calls and any changes by other threads: the calls made are the items returned plus the buckets left behind plus the final one, and what was returned with what is left of the locked chain is the chains met so far |
| `AssocIterator.WalkEnds` | applications/memcached-1.6.9/assoc.c:312-354 | a walk that is done has returned every chain as it was when its lock was taken, by one call for each item, one for each bucket and one more |
| `AssocIterator.WalkIsBounded` | applications/memcached-1.6.9/assoc.c:312-354 | if no chain met was longer than m, a walk that is not done has made at most (m + 1) calls for each bucket |
| `AssocIterator.Walker.AssocIterate` | applications/memcached-1.6.9/assoc.c:312-354 | the code on the linked buckets, following h_next, is that step, with the lock it takes or gives back |
| `ExtStoreRuns.InitListsHold` | applications/memcached-1.6.9/extstore.c:330-340 | initialisation puts pages 1 to n - 1 on the free list of their device and page 0 on none |
| `ExtStoreRuns.InitInv` | applications/memcached-1.6.9/extstore.c:293-343 | the initial engine meets the invariant |
| `ExtStoreInv.AllocateInv` | applications/memcached-1.6.9/extstore.c:401-435 | taking a free page into a bucket, with a new version, keeps the invariant |
| `ExtStoreInv.AttachInv` | applications/memcached-1.6.9/extstore.c:438-458 | attaching a write buffer at the allocation mark keeps it |
| `ExtStoreInv.AppendInv` | applications/memcached-1.6.9/extstore.c:585-603 | writing an object, also an empty one, into the attached buffer keeps it and records the write |
| `ExtStoreInv.SubmitInv` | applications/memcached-1.6.9/extstore.c:497-518 | submitting a full buffer finds a free IO and keeps the invariant |
| `ExtStoreInv.IoAvailable` | applications/memcached-1.6.9/extstore.c:497-502 | the IO stack is never empty when a buffer is submitted |
| `ExtStoreInv.PwriteInv` | applications/memcached-1.6.9/extstore.c:814-819 | the disk transfer of a buffer touches only bytes of that buffer's range |
| `ExtStoreInv.FlushDoneInv` | applications/memcached-1.6.9/extstore.c:466-492 | the callback finds the buffer at the written mark and moves the mark past it |
| `ExtStoreInv.LiveRead` | applications/memcached-1.6.9/extstore.c:711-728 | an object of the page's present version lies in the write buffer or on disk, with the bytes written; the assertions on the buffer hold unless it starts at the end of what the page has allocated |
| `ExtStoreInv.ReadStartInv` | applications/memcached-1.6.9/extstore.c:774-792 | the locked part of a read misses, copies from the buffer, fails an assertion, or takes a reference |
| `ExtStoreInv.PinnedBytes` | applications/memcached-1.6.9/extstore.c:793-813 | while a reference is held the object's bytes stay on disk |
| `ExtStoreInv.PreadInv` | applications/memcached-1.6.9/extstore.c:793-813 | the disk transfer of a read stays within the page and keeps the invariant |
| `ExtStoreInv.ReadEndInv` | applications/memcached-1.6.9/extstore.c:830-835 | releasing the reference never takes the count below zero |
| `ExtStoreInv.FreeInv` | applications/memcached-1.6.9/extstore.c:844-890 | freeing an unreferenced page takes it off its bucket, clears it and puts it on its free list |
| `ExtStoreInv.MaintVisitInv` | applications/memcached-1.6.9/extstore.c:927-956 | the maintenance thread's visit of a page keeps the invariant and its remembered victim valid |
| `ExtStoreInv.MaintEvictInv` | applications/memcached-1.6.9/extstore.c:958-975 | closing the victim, and freeing it when unreferenced, keeps the invariant |
| `ExtStoreInv.AlignedIsDivisible` | applications/memcached-1.6.9/extstore.c:226-229 | a page size is a whole number of buffers if and only if the remainder is zero |
| `ExtStoreRuns.WriteStep` | applications/memcached-1.6.9/extstore.c:529-603 | a write request and write under the page lock: submit, attach, append, or refuse |
| `ExtStoreRuns.RunKeepsInv` | applications/memcached-1.6.9/extstore.c:401-975 | the invariant holds in every state of every interleaving; what the counts mean is in `ExtStoreCounts` |
| `ExtStoreRuns.RunExtends` | applications/memcached-1.6.9/extstore.c:401-975 | every step a thread can take continues a run: the invariant never stops one |
| `ExtStoreRuns.ReadsAreExact` | applications/memcached-1.6.9/extstore.c:774-836 | a finished read of a completed write missed or delivered exactly the bytes written, in every interleaving of writes, flushes, deletes, closes, evictions and page reuse; only the read of an empty object can fail an assertion instead |
| `ExtStoreRuns.MissMeansGone` | applications/memcached-1.6.9/extstore.c:776-792 | a read misses if and only if the page is free, closed or of another version when the read starts |
| `ExtStoreRuns.FailedReadExactly` | applications/memcached-1.6.9/extstore.c:711-714 | the assertions of _read_from_wbuf fail if and only if the page is live and active and the object starts at the allocation mark, which only an empty object can |
| `ExtStoreRuns.EmptyObjectFails` | applications/memcached-1.6.9/extstore.c:711-714 | in every accepted configuration with a page to write on, some run has a read that fails an assertion |
| `ExtStoreRuns.ReadCanFailExactly` | applications/memcached-1.6.9/extstore.c:711-714 | over all runs from a configuration: a read can fail an assertion if and only if there is a page besides page 0 and pages have space |
| `ExtStoreRuns.LoggedWrites` | applications/memcached-1.6.9/extstore.c:585-603 | every recorded write was made by a write event of the run with these bytes |
| `ExtStoreRuns.PartitionOf` | applications/memcached-1.6.9/extstore.c:330-340 | every page but page 0 is on exactly one free list or bucket list, and page 0 on none |
| `ExtStoreRuns.ReachableStructure` | applications/memcached-1.6.9/extstore.c:438-492 | without a buffer allocated equals written, with one the buffer starts at written and ends at allocated, within the page |
| `ExtStoreRuns.ReachableDisjoint` | applications/memcached-1.6.9/extstore.c:585-603 | objects of one page version occupy disjoint ranges |
| `ExtStoreCounts.CountsExact` | applications/memcached-1.6.9/extstore.c:645-677 | in every run the object and byte counts of a page in use are what was written on its present version less what the deletes on that version took, none of them below zero; those of a free page are zero |
| `ExtStoreCounts.LedgerBounds` | applications/memcached-1.6.9/extstore.c:655-664 | so the object count is between the writes recorded less the objects named by deletes, and the writes recorded |
| `ExtStoreCounts.VisitFreesExactly` | applications/memcached-1.6.9/extstore.c:927-956 | the maintenance scan frees the page it visits if and only if it is full, unreferenced, and closed or without objects by that count, and otherwise leaves it as it is |
| `ExtStoreCounts.VisitSpares` | applications/memcached-1.6.9/extstore.c:949-956 | it does not free a page that is not closed while the deletes on its version name fewer objects than were written |
| `ExtStoreCounts.ObjectsStay` | applications/memcached-1.6.9/extstore.c:927-975 | from any state on, a page version stays readable as long as nobody closes or evicts it and the deletes name fewer objects than were written |
| `ExtStoreCounts.NoMiss` | applications/memcached-1.6.9/extstore.c:776-792 | and then a read of an object on it does not miss |
| `ExtStoreCounts.GoneStaysGone` | applications/memcached-1.6.9/extstore.c:401-435 | a page version that cannot be read will never be readable again, whatever use the page is put to |
| `ExtStoreCounts.CloseIsFinal` | applications/memcached-1.6.9/extstore.c:693-702 | after a close or an eviction every later read of an object written before misses |
| `ExtStoreOutcomes.AllocateOutcome` | applications/memcached-1.6.9/extstore.c:401-435 | an allocation opens a free page of the device class asked for, else of the default class, under a new version at the head of its bucket, and changes nothing if there is none |
| `ExtStoreOutcomes.FreshVersion` | applications/memcached-1.6.9/extstore.c:425 | that version is above those of all pages and recorded writes |
| `ExtStoreOutcomes.WriteOutcome` | applications/memcached-1.6.9/extstore.c:529-603 | a write is taken if and only if the page is being written and its buffer is not queued and has room, or it has none and gets one that is large enough; it goes to the first free byte; a buffer without room is queued |
| `ExtStoreOutcomes.VisitTime` | applications/memcached-1.6.9/extstore.c:926-948 | every scan visits every page, and the victim it notes is not newer than any page that could be evicted when visited |
| `ExtStoreOutcomes.VictimTime` | applications/memcached-1.6.9/extstore.c:926-948 | the victim could be evicted when it was visited and has been in the same use since |
| `ExtStoreOutcomes.EvictsIfShort` | applications/memcached-1.6.9/extstore.c:913-956 | the scan evicts if and only if no page could be given out when it began and it freed none |
| `ExtStoreOutcomes.EvictOutcome` | applications/memcached-1.6.9/extstore.c:958-975 | the eviction closes the victim, frees it unless a read is on it, and touches no other page |
| `ExtStoreReadback.BlindReadback` | applications/memcached-1.6.9/extstore.c:497-518 | in every run each byte of a page below the written mark is a byte of an object recorded on its present version, or zero |
| `ExtStoreEngine.Engine.constructor` | applications/memcached-1.6.9/extstore.c:293-343 | builds the initial engine |
| `ExtStoreEngine.Engine.LinkFreePages` | applications/memcached-1.6.9/extstore.c:330-340 | the loop from the last page down builds the free lists and their count |
| `ExtStoreEngine.Engine.TakeFreePage` | applications/memcached-1.6.9/extstore.c:404-419 | takes from the free list asked for, or from the default one |
| `ExtStoreEngine.Engine.AllocatePageIn` | applications/memcached-1.6.9/extstore.c:401-435 | the allocation step on the engine's fields; when its assertion can fail is stated by ExtStoreRaces |
| `ExtStoreEngine.Engine.AllocateWbuf` | applications/memcached-1.6.9/extstore.c:438-458 | the attach step on the engine's fields |
| `ExtStoreEngine.Engine.SubmitWbuf` | applications/memcached-1.6.9/extstore.c:497-518 | the submit step, which needs an IO and has one |
| `ExtStoreEngine.Engine.WriteObject` | applications/memcached-1.6.9/extstore.c:546-603 | the write step: the address returned is that of the recorded write |
| `ExtStoreEngine.Engine.WbufCallback` | applications/memcached-1.6.9/extstore.c:466-492 | the flush callback on the engine's fields |
| `ExtStoreEngine.Engine.ReadLocked` | applications/memcached-1.6.9/extstore.c:774-792 | the locked part of a read: a miss, the object's bytes from the buffer, a reference, or a failed assertion, and then for an empty object at the allocation mark |
| `ExtStoreEngine.Engine.FreePageAt` | applications/memcached-1.6.9/extstore.c:844-890 | the free step on the engine's fields |
| `ExtStoreEngine.Engine.VisitPage` | applications/memcached-1.6.9/extstore.c:927-956 | one round of the maintenance loop |
| `ExtStoreWriters.FullIsSpent` | applications/memcached-1.6.9/extstore.c:548-551 | a page in use that a write request takes for full has allocated all of its space |
| `ExtStoreWriters.TakeOk` | applications/memcached-1.6.9/extstore.c:529-557 | every step of any number of writers and of the other threads keeps: all pages of a bucket but the newest are spent, and so are those a writer could have seen, but for the one it has yet to test |
| `ExtStoreWriters.WriterRunOk` | applications/memcached-1.6.9/extstore.c:529-557 | that holds in every state of every run, up to the first assertion that fails |
| `ExtStoreWriters.WriterRunReachable` | applications/memcached-1.6.9/extstore.c:529-557 | the engine in such a run is one the theorems on runs are about |
| `ExtStoreWriters.WriterRunExtends` | applications/memcached-1.6.9/extstore.c:529-557 | every step a thread can take continues such a run |
| `ExtStoreWriters.FailingPageIsNew` | applications/memcached-1.6.9/extstore.c:403 | when the assertion of _allocate_page fails for a writer that found its page full, the page it fails on was given to the bucket after this writer's lookup |
| `ExtStoreWriters.OneWriterEach` | applications/memcached-1.6.9/extstore.c:403 | as long as no two threads write to one bucket the assertion holds |
| `ExtStoreRaces.FillPage` | applications/memcached-1.6.9/extstore.c:529-584 | for every page and buffer size, requests that fit fill a page buffer by buffer, through submits and flushes, until it takes no more |
| `ExtStoreRaces.SharedBucketFails` | applications/memcached-1.6.9/extstore.c:529-557 | in every accepted configuration with a page to write on, two threads that use one bucket have a run that ends in the failed assertion |
| `ExtStoreRaces.CanFailExactly` | applications/memcached-1.6.9/extstore.c:403 | over all runs, for every accepted configuration and every assignment of buckets to any number of writers: the assertion can fail if and only if two writers use one bucket, there is a page besides page 0 and pages have space |
| `Transmit.AddIovBytes` | applications/memcached-1.6.9/memcached.c:961-968 | a plain entry appends its bytes to the response |
| `Transmit.AddChunkedIovBytes` | applications/memcached-1.6.9/memcached.c:973-977 | a chunked entry appends the first len bytes of the item's chain |
| `Transmit.WireIsBytes` | applications/memcached-1.6.9/memcached.c:2438-2501 | what the code sends for a well-formed response, entry by entry and by the chunked index alone, is its bytes |
| `Transmit.ChunkedOnceNotFirst` | applications/memcached-1.6.9/memcached.c:973-977 | adding a chunked item keeps a response well formed if and only if it is not the first entry, since index 0 means none, and no other was added before, since there is one index |
| `Transmit.ChunkedBytesExactly` | applications/memcached-1.6.9/memcached.c:973-977 | adding a chunked item adds its value to the bytes sent, whatever header memory the items have, if and only if it is not the first entry and no other chunked item has bytes to send |
| `Transmit.FirstChunkedSendsHeader` | applications/memcached-1.6.9/memcached.c:973-977 | as the first entry, the item's header memory is sent in place of its value: a response that shows it |
| `Transmit.SecondChunkedSendsHeader` | applications/memcached-1.6.9/memcached.c:973-977 | a second chunked item makes the first one's header memory be sent: a response that shows it |
| `Transmit.ChunkEntries` | applications/memcached-1.6.9/memcached.c:2455-2480 | a chunked item is rebuilt from where the last send stopped, chunk by chunk, as far as the limit on entries allows |
| `Transmit.TransmitPre` | applications/memcached-1.6.9/memcached.c:2438-2501 | the entries built are a prefix of the bytes left to send, never over the limit, empty only if nothing is left, and never empty of bytes while the first response has some |
| `Transmit.AdvanceBytes` | applications/memcached-1.6.9/memcached.c:2526-2545 | advancing an entry by n takes its first n bytes off, plain or chunked |
| `Transmit.TakeFromEntries` | applications/memcached-1.6.9/memcached.c:2525-2553 | a partly sent response keeps exactly its unsent bytes, and tosend their number |
| `Transmit.TransmitPost` | applications/memcached-1.6.9/memcached.c:2507-2555 | exactly the accepted bytes leave the stream, skipped and finished responses with them |
| `Transmit.Conn.Queue` | applications/memcached-1.6.9/memcached.c:1088-1126 | queueing a response appends its bytes to what has to be sent |
| `Transmit.Conn.TransmitOnce` | applications/memcached-1.6.9/memcached.c:2566-2619 | one sendmsg, whatever it accepts, sends the next bytes of the stream; complete means all was sent, and an incomplete send that accepted something has sent a byte or finished a response |
| `Transmit.Conn.TransmitMany` | applications/memcached-1.6.9/memcached.c:2566-2619 | over any sequence of partial sends the bytes sent are a prefix of the responses in order, sent plus left is the whole, and as many accepting sends as there are bytes and responses send all of it |
| `RespBundle.SearchCovers` | applications/memcached-1.6.9/memcached.c:989-998 | the search from the likely slot on looks at every slot of the bundle |
| `RespBundle.Thread.constructor` | applications/memcached-1.6.9/memcached.c:984-1040 | a thread without bundles |
| `RespBundle.Thread.FindSlot` | applications/memcached-1.6.9/memcached.c:989-998 | a bundle on the open list has a free slot and the search finds one |
| `RespBundle.Thread.TakeFromHead` | applications/memcached-1.6.9/memcached.c:989-1014 | a slot of the head bundle is handed out that was not before; a bundle that becomes full leaves the list |
| `RespBundle.Thread.NewBundle` | applications/memcached-1.6.9/memcached.c:1016-1037 | a new bundle with its first slot handed out is the open list |
| `RespBundle.Thread.RespAllocate` | applications/memcached-1.6.9/memcached.c:984-1040 | fails only without open bundle and memory; otherwise hands out one slot that was free and changes no other: the first free one of the head bundle from the last place on, around its end, or the first of a new bundle |
| `RespBundle.Thread.GiveBack` | applications/memcached-1.6.9/memcached.c:1046-1047 | frees exactly the slot and counts it off its bundle |
| `RespBundle.Thread.Retire` | applications/memcached-1.6.9/memcached.c:1053-1071 | an empty bundle that is not alone on the list leaves it and is freed |
| `RespBundle.Thread.KeepLast` | applications/memcached-1.6.9/memcached.c:1048-1052 | an empty bundle alone on the list is kept, and the next search in it starts at its first slot |
| `RespBundle.Thread.Reopen` | applications/memcached-1.6.9/memcached.c:1077-1083 | a bundle that was full goes to the head of the list |
| `RespBundle.Thread.RespFree` | applications/memcached-1.6.9/memcached.c:1042-1086 | frees exactly the slot; a bundle goes if and only if it is empty and not the only open one |
| `RespBundle.Thread.OnList` | applications/memcached-1.6.9/memcached.c:1073-1083 | the pointer test for being on the list is exact |
| `RespBundle.Thread.Invariant` | applications/memcached-1.6.9/memcached.c:984-1086 | in every state: counts are exact, the list is the bundles with a free slot, at most one bundle is empty and it is last, and response_obj_bytes is READ_BUFFER_SIZE for each bundle |
| `ChunkCopy.Piece` | applications/memcached-1.6.9/memcached.c:1393-1400 | the part of a value that lies in one chunk stands at that chunk's offset in the value |
| `ChunkCopy.FirstRoom` | applications/memcached-1.6.9/memcached.c:1374-1382 | the copy goes on at the last chunk, since all others are full |
| `ChunkCopy.AllocChunk` | applications/memcached-1.6.9/items.c:221-245 | the new chunk is linked at the end, empty, with room for what remains up to the limit |
| `ChunkCopy.Fill` | applications/memcached-1.6.9/memcached.c:1397-1409 | one round adds the bytes, and then a chunk if the last one is full |
| `ChunkCopy.CopyFlat` | applications/memcached-1.6.9/memcached.c:1419-1438 | from an item in one piece: the chain's value grows by exactly the first len bytes, or by a prefix of them when a chunk is refused |
| `ChunkCopy.Pass` | applications/memcached-1.6.9/memcached.c:1411-1414 | the source moves to its next chunk exactly when the present one is used up |
| `ChunkCopy.ChunkRound` | applications/memcached-1.6.9/memcached.c:1391-1415 | one round of that copy moves the bytes that fit and leaves bytes, source chunks or a full chunk fewer than before |
| `ChunkCopy.CopyChunked` | applications/memcached-1.6.9/memcached.c:1384-1417 | from a chunked item, however it is cut: the same; the loop ends by bytes left, source chunks left, destination full |
| `ChunkCopy.CopyChunks` | applications/memcached-1.6.9/memcached.c:1373-1441 | _store_item_copy_chunks on items of either kind |
| `ChunkCopy.JoinedValue` | applications/memcached-1.6.9/memcached.c:1443-1467 | what append and prepend store is the two values joined, with one line end |
| `ChunkCopy.CopyBoth` | applications/memcached-1.6.9/memcached.c:1445-1449 | both copies into a chunked item give the first value without its line end, then the second |
| `ChunkCopy.CopyData` | applications/memcached-1.6.9/memcached.c:1443-1467 | on success the new item holds the joined value if it is chunked or both operands are in one piece; in one piece it holds the joined memory of the operands in every case; only a refused chunk makes it fail |
| `ChunkCopy.OperandsInOnePiece` | applications/memcached-1.6.9/memcached.c:1559-1561 | the sizes for which a new item in one piece has both operands in one piece |
| `ChunkCopy.StoresJoinedExactly` | applications/memcached-1.6.9/memcached.c:1443-1467 | over all memory the operands may have: what append and prepend store is the joined value if and only if it is not the added item alone that is chunked, by its own client flags, or that item is a prepended empty value |
| `ChunkCopy.MakeJoined` | applications/memcached-1.6.9/memcached.c:1559-1572 | the new item is allocated by its size and filled; on success it holds the joined value whenever the sizes say so |
| `ChunkCopy.ChunkedOperandOfFlatItem` | applications/memcached-1.6.9/items.c:256-269 | with the default sizes: half a megabyte with client flags appended to an empty value without flags is chunked, the result is not, and clear header memory is stored in place of the value |
| `CasStore.RunInv` | applications/memcached-1.6.9/memcached.c:1475-1633 | in every run the table holds the linked items and each of their ids was given with the value it stands for |
| `CasStore.NextMoves` | applications/memcached-1.6.9/memcached.c:1475-1633 | a step leaves a key as it is, removes it, or gives it an id above all earlier ones |
| `CasStore.ViewAfter` | applications/memcached-1.6.9/items.c:112-117 | from any point of a run on, a key is as it was all along, or gone, or has a newer id |
| `CasStore.NoAba` | applications/memcached-1.6.9/memcached.c:1489-1501 | a key seen twice with one id kept its value all the time in between |
| `CasStore.ChangeGrows` | applications/memcached-1.6.9/items.c:484-504 | two values of a key in a run have strictly increasing ids |
| `CasStore.CasOutcome` | applications/memcached-1.6.9/memcached.c:1508-1545 | a compare-and-store is done if and only if the key is there and has the id named, or a newer one with stale stores allowed; otherwise nothing changes |
| `CasStore.StoreOutcome` | applications/memcached-1.6.9/memcached.c:1475-1633 | for each mode, over what the key shows before and after: the result code and its exact condition (add on an absent key, replace on a present one, set always, cas by id, append and prepend on a present key in memory whose id fits), the value then seen, old[..n-2] + new for append and new[..n-2] + old for prepend, under the next id; and no change otherwise |
| `CasStore.JoinsAreCopies` | applications/memcached-1.6.9/memcached.c:1443-1468 | the value append and prepend leave is the one their copying code puts together |
| `CasStore.OtherOutcomes` | applications/memcached-1.6.9/items.c:506-519 | an unlink leaves the key absent; marking an item stale gives it the next id and keeps the value; writing it to disk keeps id and value |
| `CasStore.CasReplacesWhatWasRead` | applications/memcached-1.6.9/memcached.c:1489-1545 | done on the id read with a value, it replaces exactly that value, which was current ever since |
| `CasStore.SupersededItem` | applications/memcached-1.6.9/memcached.c:2191-2206 | the item replaced by an increment takes over the new item's id |
| `CasStore.HonestStep` | applications/memcached-1.6.9/memcached.c:2179-2206 | an item, linked or only held, keeps the value its id was given with if and only if the step is not an increment or decrement that replaces it by another text |
| `CasStore.HeldItemMixesIds` | applications/memcached-1.6.9/memcached.c:2203-2205 | so a holder of the old item can report the old value with the new id: a run in which it does |
| `Numbers.ReadsBack` | applications/memcached-1.6.9/util.c:49-72 | safe_strtoull reads a printed 64-bit number back, whatever blanks pad it, if and only if it is below 2^63 or no dash follows before the next NUL |
| `Numbers.NegativeNumbers` | applications/memcached-1.6.9/util.c:59-69 | a negative number is refused exactly from -1 to -2^63: zero is taken, and below that it is taken for what it wraps around to |
| `Numbers.EverySplits` | applications/memcached-1.6.9/util.c:49-72 | any memory is spaces, a sign, digits, each possibly missing, and a rest |
| `Numbers.ReadsExactly` | applications/memcached-1.6.9/util.c:49-72 | of memory so split: a number is read if and only if there are digits below 2^64 followed by a space, a NUL or the end, with the sign applied modulo 2^64, and not if the result is 2^63 or more and the string holds a dash |
| `CasStore.DeltaPrints` | applications/memcached-1.6.9/memcached.c:2149-2206 | a change that is done finds a number n in the value and leaves, under the next id, the text of (n + d) mod 2^64 for an increment by d, and of n - d or 0 if d > n for a decrement, padded to the old length unless a new item was needed |
| `CasStore.DeltaOutcome` | applications/memcached-1.6.9/memcached.c:2116-2221 | exactly when a change is refused and with which code, no item, a value in chunks, on disk, empty or no number, another id, no memory, and that it then changes nothing |
| `CasStore.PrintsReads` | applications/memcached-1.6.9/memcached.c:2149-2152 | the next change finds that number, unless it is 2^63 or more and a dash lies behind the value |
| `CasStore.OtherKey` | applications/memcached-1.6.9/memcached.c:1475-2221 | a step on one key changes neither id nor value of another |
| `CasStore.IncrementsCount` | applications/memcached-1.6.9/memcached.c:2116-2221 | as long as only increments are done to a key, every one that is not refused counts exactly once, modulo 2^64, whatever is done to other keys |
| `CasStore.DecrementsCount` | applications/memcached-1.6.9/memcached.c:2116-2221 | as long as only decrements are done to a key, its number is what it was less all that those not refused asked for, or zero if they asked for more |
| `CasStore.Cache.GetCasId` | applications/memcached-1.6.9/items.c:112-117 | ids count up from one |
| `CasStore.Cache.DoItemLink` | applications/memcached-1.6.9/items.c:484-504 | linking gives a fresh id and makes the item the key's |
| `CasStore.Cache.DoItemUnlink` | applications/memcached-1.6.9/items.c:506-519 | unlinking takes the key out of the table and marks the item |
| `CasStore.Cache.DoItemReplace` | applications/memcached-1.6.9/items.c:577-584 | unlink the old, link the new |
| `CasStore.Cache.DoStoreItem` | applications/memcached-1.6.9/memcached.c:1475-1633 | every mode and comparison result, with the code's branches, gives the outcome and state of the store step, which `CasStore.StoreOutcome` states mode by mode |
| `CasStore.Cache.PrintNew` | applications/memcached-1.6.9/memcached.c:2149-2175 | the text of the new number, printed by itoa_u64 into the buffer for it, unless the value is no number |
| `CasStore.Cache.DoAddDelta` | applications/memcached-1.6.9/memcached.c:2116-2221 | refuses values in chunks or on disk, parses, adds or subtracts and prints; in place with a new id when nobody else holds the item and the text fits, by a new item otherwise: the step that `CasStore.DeltaPrints` and `CasStore.DeltaOutcome` state |
| `LruQueue.RealSwapped` | applications/memcached-1.6.9/items.c:1793-1820 | the crawler's swap does not reorder or recount the real items |
| `LruQueue.Queue.LinkQ` | applications/memcached-1.6.9/items.c:406-431 | the item is the new head; the links, size and bytes are right |
| `LruQueue.Queue.UnlinkQ` | applications/memcached-1.6.9/items.c:446-476 | exactly the item leaves, from any place; the links, size and bytes are right |
| `LruQueue.Queue.LinkTail` | applications/memcached-1.6.9/items.c:1730-1749 | the crawler is the new tail and the real items are unchanged |
| `LruQueue.Queue.UnlinkTail` | applications/memcached-1.6.9/items.c:1751-1770 | the crawler leaves the queue, also after it stepped off the head |
| `LruQueue.Queue.CrawlQ` | applications/memcached-1.6.9/items.c:1774-1826 | the crawler changes places with the item before it and returns it; at the head it steps off and returns nothing |
| `Crawler.RoundKeepsOrder` | applications/memcached-1.6.9/crawler.c:444-452 | a round of the crawler changes neither the items nor their order |
| `Crawler.DropItems` | applications/memcached-1.6.9/items.c:446-476 | an unlink by another thread takes exactly that item out of the queue and leaves the others in order |
| `Crawler.StartStarts` | applications/memcached-1.6.9/crawler.c:582-618 | starting puts the crawler behind all items, with the limit plus one |
| `Crawler.RunInv` | applications/memcached-1.6.9/crawler.c:444-452 | whatever other threads insert, unlink and move between rounds, everything behind the crawler was passed |
| `Crawler.NoOtherEnd` | applications/memcached-1.6.9/crawler.c:446-452 | a crawl without a limit ends only at the head |
| `Crawler.PassesAll` | applications/memcached-1.6.9/crawler.c:444-452 | every item in the queue when such a crawl ends was passed, and the queue is left without the crawler |
| `Crawler.PassedOnce` | applications/memcached-1.6.9/crawler.c:444-452 | an item no other thread touched meanwhile was passed exactly once |
| `Crawler.EvaluatesPassed` | applications/memcached-1.6.9/crawler.c:446-447 | while a crawl is on, the items evaluated are those passed, and with a limit of n the items evaluated plus the rest of the limit are n |
| `Crawler.LimitHolds` | applications/memcached-1.6.9/crawler.c:446-447 | whatever other threads do, a crawl with a limit of n ends only at the head, with at most n items evaluated, or after exactly n |
| `Crawler.LimitedAlone` | applications/memcached-1.6.9/crawler.c:596-604 | left alone, it evaluates exactly the last min(n, length) items, from the tail on, and is off one round later |
| `Crawler.CrawlAlone` | applications/memcached-1.6.9/crawler.c:444-452 | left alone and without a limit, the crawler passes and evaluates the items once each from the tail to the head and is gone one round later |
| `Crawler.LruCrawler.StartCrawl` | applications/memcached-1.6.9/crawler.c:582-618 | the start step on the linked queue, unless a crawl is running |
| `Crawler.LruCrawler.CrawlRound` | applications/memcached-1.6.9/crawler.c:444-452 | a round on the linked queue is the model's round; the item to evaluate is the one passed |
| `Crawler.LruCrawler.ClassDone` | applications/memcached-1.6.9/crawler.c:341-350 | the crawler is off the linked queue and the items are as they were |
| `Crawler.LruCrawler.InsertItem` | applications/memcached-1.6.9/items.c:406-431 | a head insert by another thread, seen from the crawler |
| `Crawler.LruCrawler.UnlinkItem` | applications/memcached-1.6.9/items.c:446-476 | an unlink by another thread, on either side of the crawler |
| `LruBump.RunInv` | applications/memcached-1.6.9/items.c:1040-1065 | in every run: a linked ACTIVE item in COLD has an entry not drained yet, ACTIVE implies FETCHED, and the reference count is links, holders and entries |
| `LruBump.NextInv` | applications/memcached-1.6.9/items.c:1289-1351 | every event keeps that |
| `LruBump.PullIsOneOf` | applications/memcached-1.6.9/items.c:1112-1251 | whatever lru_pull_tail does to an item it looks at is one of the events of that model: left alone, moved with its mark cleared, or unlinked |
| `LruBump.EntriesAreAlive` | applications/memcached-1.6.9/items.c:1289-1310 | an item named by an entry that is not drained is not free |
| `LruBump.HitOutcome` | applications/memcached-1.6.9/items.c:1040-1065 | a first hit marks FETCHED only, a second ACTIVE outside COLD; in COLD it marks ACTIVE if and only if the buffer has room for an entry, which then goes behind the others and holds a reference |
| `LruBump.DrainOutcome` | applications/memcached-1.6.9/items.c:1336-1343 | draining takes the oldest entry left, moves its item to WARM if it is still linked, in COLD and ACTIVE, and gives the reference back |
| `LruBump.CommitBuf` | applications/memcached-1.6.9/items.c:1293-1304 | an entry pushed into the ring buffer is the last one to be drained |
| `LruBump.AdvanceBuf` | applications/memcached-1.6.9/items.c:1336-1343 | draining takes the oldest entry left and never steps over the window |
| `LruBump.PollBuf` | applications/memcached-1.6.9/items.c:1345-1347 | the poll of a drained window drops exactly the drained entries |
| `LruBump.UpdateIsUpdated` | applications/memcached-1.6.9/items.c:548-565 | what do_item_update does to the queues does to the item what this model's update says |
| `LruBump.Store` | applications/memcached-1.6.9/items.c:1293-1304 | request, write in place and push store the entry whole or not at all |
| `LruBump.BumpBuffer` | applications/memcached-1.6.9/items.c:1326-1347 | one buffer is peeked, drained and polled: every entry of the window and no other, unless the buffer is empty |
| `LruBump.Cache.LruBumpAsync` | applications/memcached-1.6.9/items.c:1289-1310 | takes a reference and requests, fills and pushes an entry in the ring buffer; gives the reference back when there is no room |
| `LruBump.Cache.DoItemBump` | applications/memcached-1.6.9/items.c:1040-1065 | first hit FETCHED, second ACTIVE, with an entry if in COLD; ACTIVE is taken back without one |
| `LruBump.Cache.DoItemUpdate` | applications/memcached-1.6.9/items.c:548-565 | moves linked ACTIVE items of COLD to WARM and clears the mark |
| `LruBump.Cache.DrainWindow` | applications/memcached-1.6.9/items.c:1326-1347 | the count of bytes lands exactly on zero and exactly the window's entries are drained, each giving back its reference |
| `LruPull.UnlinkQOk` | applications/memcached-1.6.9/items.c:446-476 | taking an item off its queue keeps all counts, with that item on no queue |
| `LruPull.LinkQOk` | applications/memcached-1.6.9/items.c:406-431 | putting it on the queue of its class keeps all counts and ends that |
| `LruPull.UnlinkOk` | applications/memcached-1.6.9/items.c:522-535 | unlinking drops the link's reference with the link |
| `LruPull.VisitOk` | applications/memcached-1.6.9/items.c:1112-1236 | the visit of one item keeps the counts, and gives the lock and reference back unless the walk stops there |
| `LruPull.FinishOk` | applications/memcached-1.6.9/items.c:1239-1251 | the end of the call links a moved item to its new queue and gives lock and reference back unless an item was asked for |
| `LruPull.PullOk` | applications/memcached-1.6.9/items.c:1098-1237 | the same over the whole walk, crawlers and locked items included |
| `LruPull.PullTailKeeps` | applications/memcached-1.6.9/items.c:1080-1254 | on every path reference counts are links plus holders, each linked item is on exactly its own queue, sizes and sizes_bytes count the real items, and every item lock taken is released, but for one item under LRU_PULL_RETURN_ITEM |
| `LruPull.PullHeld` | applications/memcached-1.6.9/items.c:1218-1221 | that item is handed out if and only if the queue is COLD and nothing is evicted |
| `LruPull.NothingLostExactly` | applications/memcached-1.6.9/items.c:1241-1251 | a call can never keep a lock and reference that it hands to nobody if and only if it is on class 0, asks for no item, asks for one on COLD without evicting, or the clock is at its end and every item flushed |
| `LruPull.SomeLost` | applications/memcached-1.6.9/items.c:1247-1250 | in every other call there are queues for which one is lost |
| `LruPull.UpdateOk` | applications/memcached-1.6.9/items.c:548-575 | do_item_update keeps all counts and queues |
| `LruPull.UpdateMoves` | applications/memcached-1.6.9/items.c:548-575 | with the segmented LRU exactly an ACTIVE item of COLD leaves its queue for the head of WARM; without it an item goes to the head of its own queue if and only if its time is before now - 60 in 32-bit time; no other queue changes |
| `LruPull.VisitOutcome` | applications/memcached-1.6.9/items.c:1134-1236 | what becomes of a visited item, case by case: unlinked if and only if exptime != 0 and exptime < now, or oldest_live has come and its time or id is older, or COLD is to evict; else to the head of WARM if ACTIVE, to COLD if the queue is over its share or the item too old in 32-bit time, handed out, or left alone; with the count and whether the walk goes on |
| `LruPull.TailUnlinks` | applications/memcached-1.6.9/items.c:1080-1254 | a whole call unlinks no item but expired or flushed ones and one to be evicted from COLD, and links none |
| `LruPull.TailReclaimed` | applications/memcached-1.6.9/items.c:1098-1157 | it unlinks every one of the last k items, k at most five, if these are expired or flushed and their locks are free |
| `LruPull.Cache.DoItemLinkQ` | applications/memcached-1.6.9/items.c:406-431 | the link step on the queues and counters |
| `LruPull.Cache.DoItemUnlinkQ` | applications/memcached-1.6.9/items.c:446-476 | the unlink step on the queues and counters |
| `LruPull.Cache.DoItemUnlinkNolock` | applications/memcached-1.6.9/items.c:522-535 | unlinks a linked item and drops its reference; leaves others alone |
| `LruPull.Cache.DoItemUpdate` | applications/memcached-1.6.9/items.c:548-575 | the update step on items, queues and counters, with the 32-bit clock |
| `LruPull.Cache.HotWarm` | applications/memcached-1.6.9/items.c:1159-1193 | the HOT and WARM cases with their fall-through, where the kept limit is the same for every item |
| `LruPull.Cache.ColdCase` | applications/memcached-1.6.9/items.c:1194-1230 | the COLD case: evict, hand out, move to WARM, or stay |
| `LruPull.Cache.LruPullTail` | applications/memcached-1.6.9/items.c:1080-1254 | the loop is the walk that `LruPull.VisitOutcome`, `LruPull.TailUnlinks` and `LruPull.TailReclaimed` are about, ends although crawlers cost no try, and keeps everything above |
| `LruRefinement.CountsAgree` | applications/memcached-1.6.9/items.c:419-428 | a linked queue that stands for a list has the list's number of real items and bytes |
| `LruRefinement.SizesAgree` | applications/memcached-1.6.9/items.c:419-428 | so the counters kept with the linked queue are those of the list |
| `LruRefinement.LinkRefines` | applications/memcached-1.6.9/items.c:406-431 | what linking leaves in the linked queue stands for what it does to the list |
| `LruRefinement.UnlinkRefines` | applications/memcached-1.6.9/items.c:446-476 | the same for unlinking, from any place |
| `LruRefinement.WalkRefines` | applications/memcached-1.6.9/items.c:1098-1102 | the tail pointer and the prev pointers lead over the list from its end |
| `Shuffle.WholeShape` | assembly_analysis/assembly_generator.py:317-350 | in generated code every jump goes to the label right behind it and no label occurs twice |
| `Shuffle.WholeVisible` | assembly_analysis/assembly_generator.py:521-535 | the operations of generated code are those asked for, in order |
| `Shuffle.LabelFound` | assembly_analysis/assembly_generator.py:407-428 | after any reordering a label is found at the place its block was moved to |
| `Shuffle.StepSame` | assembly_analysis/assembly_generator.py:407-428 | one step of the shuffled program is one step of the program |
| `Shuffle.ShuffledRuns` | assembly_analysis/assembly_generator.py:407-428 | for every order of the blocks and every outcome of the branches the shuffled program ends at its end label after the same operations in the same order |
| `Shuffle.SplitBlocks` | assembly_analysis/assembly_generator.py:408-421 | cutting keeps all instructions in order; no block is empty and all but the last end with a jump |
| `Shuffle.ShuffleInPlace` | assembly_analysis/assembly_generator.py:423 | the in-place shuffle is a reordering, whatever numbers are drawn, and the one that these numbers stand for |
| `Shuffle.EveryOrderDrawn` | assembly_analysis/assembly_generator.py:423 | every order of the blocks is the one of some numbers drawn |
| `Shuffle.AnyOrderDoes` | assembly_analysis/assembly_generator.py:407-428 | for every order of the blocks of generated code the shuffled program does the operations asked for and ends at its end label |
| `Shuffle.Generator.AsmInst` | assembly_analysis/assembly_generator.py:317-350 | the text of one request and the next label numbers; the line is left open exactly for an instruction without a line end |
| `Shuffle.Generator.AsmLines` | assembly_analysis/assembly_generator.py:521-534 | the lines hold the whole code between the start label and the jump to the end |
| `Shuffle.Generator.GenerateAsmBlock` | assembly_analysis/assembly_generator.py:516-535 | whatever the requests, the draws and the branches, the block generated runs exactly the operations asked for and reaches its end label |

## Left out

- The UDP transmit path, TLS, SASL, libevent, option parsing, statistics text and the protocol parsers: plumbing without a deep property.
- The tail-repair branch of `lru_pull_tail`, which overwrites reference counts on purpose and is off by default.
- The crawler's exits for a failed client, which run without the queue's lock; the expiry and dump modules it calls for each item.
- The aarch64 form of `crc32c_hw`, and the choice between the hardware and software routines at start.
- Failed or short disk transfers in extstore: every transfer is complete, as its callback takes for granted.
- Page and buffer sizes that make extstore_init divide by zero, and a device class of a file beyond the number of buckets, which it does not check.
- The mapping of extstore pages to several files: each page is one extent of its own. Versions, counters and compare-and-store ids do not wrap.
- Slab allocation and rebalancing: the models take an allocation to succeed or fail, and `lru_pull_tail` leaves out the call to `slabs_reassign`.
- The locks themselves: a section under a lock is one step, and who holds which item lock elsewhere is a parameter.
- AssocTable.HashTable.AssocExpand: growing from 31 to 32 shifts a 32-bit one by 32, which C leaves undefined; the model doubles the table. `Assoc.SizeFitsWord` states the bound.
- LruPull.Cache.DoItemLinkQ: queues are lists of addresses; that the linked queues stand for them is in `LruRefinement`.
- LruPull.Cache.DoItemUnlinkQ: the same.
- LruPull.Cache.LruPullTail: the same; whether `item_trylock` fails elsewhere is a set given to the call.
- LruBump.Cache.DoItemUpdate: changes the item's marks only; the relinking is `LruPull.Cache.DoItemUpdate`, and `LruBump.UpdateIsUpdated` ties the two together.
- CasStore.Cache.DoStoreItem: does not carry the expiry time, the client flags and the stale mark of an item, which a stale store and a join take over from the old one; values and ids do not depend on them.
- CasStore.Cache.DoAddDelta: what lies in memory behind the value, up to the next NUL, is given to the call, as `strchr` in `safe_strtoull` looks at it.
- ChunkCopy.CopyData: what a `memcpy` reads behind an operand's own memory is taken to be there, with any content; that it may be unmapped is not modelled.
- ExtStoreEngine.Engine.AllocatePageIn: the source's assertion is not assumed, so a page may be allocated at any time; when the assertion can fail is in `ExtStoreRaces`.
- Shuffle.Generator.GenerateAsmBlock: register and address placeholders and the random choice of instructions are left out; a conditional branch may go either way.
- Crc32cHardware.Crc32cHw: the upper half of the 64-bit register of `crc32q`, which the instruction clears, is not carried along.
- The C `int` that `bipbuf_unused` returns: for buffers over INT_MAX bytes it can turn negative, and runs of the ring are over buffers up to that size.
- The rest of the repository: profiling and clustering scripts, the network skeletons, `cache.c`, the hash functions and the binary protocol would add mostly easy members.
