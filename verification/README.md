# Verified algorithms of the kernel documentation

The `Documentation` tree describes several small algorithms precisely, as C programs or as C
fragments with the promises written around them. This project models them in Dafny and proves
those promises.

| files | what they model |
|---|---|
| `Gf2`, `CrcMachine`, `CrcDetect`, `CrcTables`, `CrcWords`, `CrcBytes`, `CrcLookup`, `CrcOrder` | the CRC tutorial and `crc32hash`'s `crc32` |
| `Common` (modules `Common` and `Bits`), `CircBuf` | the lock-free circular buffer |
| `RefCount`, `DecAndLock` | reference counting with a list, and `_atomic_dec_and_lock` |
| `VdsoHash`, `Vdso` | the reference vDSO parser's `elf_hash` and symbol look-up |
| `VirtioBlock` | the descriptor walk of `mpssd`'s block device |
| `Skeleton` | the V4L2 PCI skeleton driver |
| `Framebuffer` | the cfag12864b example |
| `Vrl4` | the vrl4 boot image writer |

`dafny verify dfyconfig.toml` checks everything.

## How the parts are built

**CRC.** A polynomial over GF(2) is the set of its exponents, and "remainder" is defined by
`dividend = quotient * divisor + remainder` with a bound on the degree (`Gf2`). `CrcMachine` runs
the tutorial's loops on registers of any width, written from the deciding bit down, so that one
development serves the big-endian and the little-endian loops. `CrcWords` and `CrcBytes` connect
32-bit words and bytes to it; the loops there are the tutorial's, on `bv32`. The results hold for
every message, every polynomial and every start value unless a row says otherwise. `CrcOrder` computes
products modulo the CRC-32 polynomial, shows that x has order 2^32 - 1, and with that decides how many
zeros the CRC fails to notice.

**Concurrency.** `CircBuf`, `RefCount` and `DecAndLock` are state machines whose steps are single
memory accesses. A run is any schedule of steps, and the results are about every run. Weak
ordering is part of the models: a load of the other side's ring index may be stale
(`CircBuf.LoadTail`, `CircBuf.LoadHead`), the producer's item and `obj->active` become visible at a
later step than the store (`CircBuf.Flush`, `RefCount.Drain`), and `atomic_read` may deliver any
value (`DecAndLock.Read`). A slot may be
loaded ahead of the head or after the tail (`CircBuf.Prefetch`, `CircBuf.ReadLate`). The barriers
against this are parameters, and each main result is an if-and-only-if over them: the three places of `RefCount.SafeIff`, the four of
`CircBuf.FifoIff`, and the order that `spin_lock` imposes in `DecAndLock.ZeroUnderLockIff`. What stays
fixed is listed under "Left out".

**Programs that update state** are methods proved against functions on values: the class
`Skeleton.Driver` against `Dev` and the invariant `Valid` that every handler keeps,
`Framebuffer.Display` against the picture it shows, `Vrl4.System` against the image of its input.

## Where code and text disagree

- vrl4.c:23 says the copy size is the smaller of image and limit plus the alignment; the code
  (vrl4.c:147-148) also rounds the program's length up. The model follows the code, and
  `Vrl4.DocumentedSizeIff` says for which kernels the two agree.
- circular-buffers.txt:134 says that a third party's measurement may be negative. The macros end in
  a bitwise AND with `size - 1`, so the guess is never negative; `ThirdPartyGuess` says what it is.
- atomic_ops.txt:544-546 requires a lock release to make earlier stores visible, while the error
  sequence at 382-396 lets a store stay invisible across a release, and 398-402 hold the barrier of
  `atomic_dec_and_test` responsible. `RefCount` makes each of them a parameter. For the deactivation
  either is enough; but the release after `obj_list_add` is needed in any case, so
  the barrier of `atomic_dec_and_test` alone does not make the scheme safe.
- circular-buffers.txt:214-216 has the tail published with a release, while 186-193 argue from the spare
  slot and the consumer's lock. `CircBuf.FifoIff` shows that either of the two is enough.
- parse_vdso.c:80 takes `elf_hash` from the ELF specification and computes in `unsigned long`, so the
  bucket it chooses can depend on the word width. `VdsoHash.BucketsAgreeIff` and `Vdso.FindsAllIff`
  say exactly when that matters for tables whose linker hashed in 32 bits.

## Model

| member | source | states |
|---|---|---|
| `Gf2.RemainderUnique` | Documentation/crc32.txt:11-20 | A dividend has at most one remainder of smaller degree than the divisor, whatever the lengths of the quotients. |
| `CrcMachine.DivideIsRemainder` | Documentation/crc32.txt:31-47 | Long division from remainder 0 delivers a polynomial exactly when it is the remainder of the input bits, for every width and divisor. |
| `CrcMachine.DelayedIsDivide` | Documentation/crc32.txt:52-68 | Merging the input late equals long division of the message followed by as many zeros as the register is wide; the skipped first cycles only precompute the start value. |
| `CrcMachine.RunIsRemainder` | Documentation/crc32.txt:55-68 | From start value 0 the late-merging loop holds the remainder of message * x^width and nothing else is that remainder. |
| `CrcMachine.MergeIsRun` | Documentation/crc32.txt:82-107 | Merging k bits at once and shifting k times equals k iterations of the bit loop, for every k up to the register's width. |
| `CrcMachine.RunLinear` | Documentation/crc32.txt:13-15 | The CRC of a sum of messages, from a sum of start values, is the sum of the CRCs. |
| `CrcMachine.Coefficients` | Documentation/crc32.txt:17-20 | The polynomial of a bit string has coefficient 1 at x^e exactly where the bit e places from the end is set. |
| `CrcTables.ChunkByTable` | Documentation/crc32.txt:114-123 | Consuming k bits is one look-up of the k deciding bits, in a table of the CRCs of k-bit messages, for every k up to the width. |
| `CrcTables.SlicesSum` | Documentation/crc32.txt:137-153 | The CRC of a concatenation is the sum of one look-up per piece, each in a table for its own distance from the end, for any number and lengths of pieces. |
| `CrcTables.MergeFirst` | Documentation/crc32.txt:159-164 | The running CRC can be merged into the first register width of input; whatever follows is looked up independently of it. |
| `CrcDetect.BurstDetected` | Documentation/crc32.txt:23-26 | Messages that differ only inside a window as wide as the register have different CRCs, at any position, for any start value, if the divisor has a constant term. |
| `CrcDetect.DetectsBurstsIff` | Documentation/crc32.txt:23-26 | All such bursts are detected if and only if the divisor has a constant term; without one a missed burst is constructed. |
| `CrcDetect.CheckByRemainder` | Documentation/crc32.txt:3-9 | A received CRC leaves remainder 0 exactly when it equals the recomputed one, for any start value and any divisor with a constant term. |
| `CrcDetect.InvertedResidue` | Documentation/crc32.txt:173-177 | An inverted CRC always leaves the CRC of the inversion pattern, independent of message and start value. |
| `CrcDetect.TrailingZeros` | Documentation/crc32.txt:171-173 | Zero bits after message and plain CRC never change remainder 0. |
| `CrcDetect.InvertedTrailingZeros` | Documentation/crc32.txt:171-177 | With a constant term, zero bits after an inverted CRC go unnoticed exactly when shifting them in leaves a register of ones unchanged, for every message and start value. `CrcOrder.TrailingBitsIff` decides the condition for CRC-32. |
| `CrcDetect.LeadingZeros` | Documentation/crc32.txt:179-182 | With a constant term, leading zero bits go unnoticed exactly when shifting them in leaves the start value unchanged, for every message; from start value 0 they always do. |
| `CrcWords.DivideLoop` | Documentation/crc32.txt:43-47 | The big-endian loop on words computes the long division that `CrcMachine.DivideIsRemainder` is about, on the word read from its top bit. |
| `CrcWords.DelayedLoop` | Documentation/crc32.txt:64-68 | The late-merging big-endian loop computes the machine's run on the word read from its top bit. |
| `CrcWords.LittleLoop` | Documentation/crc32.txt:70-75 | The little-endian loop computes the same run on the word read from its bottom bit. |
| `CrcWords.LittleMirrorsBig` | Documentation/crc32.txt:77-80 | With polynomial and remainder bit-reversed, a little-endian step gives the bit-reversed big-endian step. |
| `CrcWords.WordExtensional` | Documentation/crc32.txt:77-80 | Words with the same bit string are equal, so results about bit strings are results about words. |
| `CrcWords.WordReading` | Documentation/crc32.txt:70-80 | Which bit is which: bit 0 of a word comes first little-endian, the others are those of the word shifted down, and big-endian is the same backwards. |
| `CrcBytes.MessageReading` | Documentation/crc32.txt:23-29 | Bits 8 j to 8 j + 7 of a message are the bits of byte j with masks 1, 2, 4, up to 128 in little-endian order, and backwards in big-endian order. |
| `CrcBytes.BigBytesLoop` | Documentation/crc32.txt:84-91 | The big-endian byte loop equals the bit loop on the bytes' bits, most significant first. |
| `CrcBytes.LittleBytesLoop` | Documentation/crc32.txt:93-100 | The little-endian byte loop equals the bit loop on the bytes' bits, least significant first. |
| `CrcBytes.Crc32` | Documentation/pcmcia/crc32hash.c:11-21 | `crc32` returns the little-endian byte CRC with polynomial 0xedb88320 from start value 0. |
| `CrcBytes.CrcFromBits` | Documentation/pcmcia/crc32hash.c:15-19 | The byte CRC, read from its bottom bit, is the machine's run on the message's bits, for every polynomial and start value. |
| `CrcBytes.PolyExponents` | Documentation/pcmcia/crc32hash.c:18 | The constant stands for the divisor x^32 + x^26 + x^23 + x^22 + x^16 + x^12 + x^11 + x^10 + x^8 + x^7 + x^5 + x^4 + x^2 + x + 1. |
| `CrcBytes.CrcIsRemainder` | Documentation/pcmcia/crc32hash.c:11-21 | `crc32` of a message is the unique remainder of message * x^32 on division by that polynomial. |
| `CrcBytes.CrcDetectsBurst` | Documentation/pcmcia/crc32hash.c:11-21 | `crc32` differs for any two messages of equal length that differ only within 32 consecutive bits, at any alignment. |
| `CrcBytes.CrcCheck` | Documentation/crc32.txt:3-9 | Message plus four CRC bytes, least significant first, leaves 0 exactly when the CRC is right, for any start value. |
| `CrcBytes.CrcInvertedCheck` | Documentation/crc32.txt:171-177 | Message plus inverted CRC always leaves the CRC of the bytes ff ff ff ff, which is not 0, for any start value. |
| `CrcBytes.CrcLeadingZeros` | Documentation/crc32.txt:179-181 | Leading zero bytes never change `crc32`. |
| `CrcLookup.SarwateIsByteStep` | Documentation/crc32.txt:109-120 | With entries equal to the CRCs of one-byte messages, one look-up equals eight iterations of the loop, for every remainder and byte. |
| `CrcLookup.SarwateLoop` | Documentation/crc32.txt:109-120 | The table-driven loop computes the byte CRC of the whole message. |
| `CrcLookup.LookupIsCrc` | Documentation/crc32.txt:137-143 | One look-up per byte, each in its own table, sums to the CRC of the bytes. |
| `CrcLookup.SliceIsCrc` | Documentation/crc32.txt:149-164 | A slicing step over n bytes equals n iterations of the byte loop, for every n from 4 up (4 and 8 in the text). |
| `CrcLookup.SliceLoop` | Documentation/crc32.txt:149-164 | Repeated slicing consumes all whole slices and holds the CRC of what it consumed. |
| `CrcLookup.SliceCrc` | Documentation/crc32.txt:149-164 | Slicing, then table look-ups for the remaining bytes, computes the byte CRC of the whole message, for every number of tables from 4 up. |
| `CrcOrder.ShiftIsMul` | Documentation/crc32.txt:17-20 | Shifting a register m times multiplies it by x^m modulo the CRC-32 polynomial, for every register and m. |
| `CrcOrder.OnesReturnIff` | Documentation/crc32.txt:173-182 | Shifting a register of ones k times restores it if and only if k is a multiple of 2^32 - 1, the order of x modulo the CRC-32 polynomial. |
| `CrcOrder.TrailingBitsIff` | Documentation/crc32.txt:171-177 | k zero bits after an inverted CRC-32 go unnoticed if and only if k is a multiple of 2^32 - 1, for every message and start value. |
| `CrcOrder.LeadingBitsIff` | Documentation/crc32.txt:179-182 | From a start value of ones, k zero bits before a message go unnoticed if and only if k is a multiple of 2^32 - 1, for every message. |
| `CrcOrder.TrailingBytesIff` | Documentation/crc32.txt:171-177 | The same condition on the number of zero bytes after message and inverted CRC. |
| `CrcOrder.LeadingBytesIff` | Documentation/crc32.txt:179-182 | The same condition on the number of zero bytes before a message. |
| `Bits.AndMask` | Documentation/circular-buffers.txt:68-71 | ANDing with 2^k - 1 is the remainder modulo 2^k. |
| `CircBuf.Measures` | Documentation/circular-buffers.txt:80-113 | From wrapped indices, `CIRC_CNT` is the number of items and `CIRC_SPACE` the free slots less one, for every power-of-two size and word width. |
| `CircBuf.NextIndex` | Documentation/circular-buffers.txt:172-173 | Advancing by one with the mask keeps an index equal to the running count modulo the size. |
| `CircBuf.ViewsBound` | Documentation/circular-buffers.txt:115-129 | In every run, whatever the barriers: the space that the producer computes from its copies of the indices is at most the true space, the count that the consumer computes is at most the true count, and the other two readings are upper bounds. |
| `CircBuf.ThirdPartyGuess` | Documentation/circular-buffers.txt:131-134 | A third party with any two old readings gets the difference of the counts modulo the size, so never a negative number; with a slightly newer tail than head, the size less the difference. |
| `CircBuf.EveryRunIsFifo` | Documentation/circular-buffers.txt:158-219 | With enough barriers, in every interleaving, with stale indices, late stores and late loads, what was produced is what the consumer has received or is still to load, followed by the slots from tail to head, and one slot stays free. |
| `CircBuf.RefinesFifo` | Documentation/circular-buffers.txt:158-219 | With enough barriers, every step of every run is a step of a FIFO of capacity size - 1: publishing the head appends, publishing the tail removes the first item and delivers it, nothing else changes what is held or delivered. |
| `CircBuf.FifoIff` | Documentation/circular-buffers.txt:163-219 | The consumer receives the produced items in order in all runs if and only if publishing the head waits for the item's store, the slot is loaded after the head, and the load is done before the tail is published or before the consumer's next invocation; or the buffer has a single slot and so never holds an item. |
| `CircBuf.NoRace` | Documentation/circular-buffers.txt:186-193 | In no run does the producer fill the slot that the consumer is reading, nor the slot that was removed last; with enough barriers no late store and no late load meets the other side. |
| `CircBuf.InBounds` | Documentation/circular-buffers.txt:51-54 | In every run the slots in use, and those of late stores and loads, have indices inside the buffer. |
| `RefCount.StepKept` | Documentation/atomic_ops.txt:314-367 | With the release after `obj_list_add` and one of the two later barriers, every access by any CPU keeps count = references, one destroyer at zero, and no late store to an object without a reference. |
| `RefCount.LastReference` | Documentation/atomic_ops.txt:310-312 | When a CPU is about to destroy an object, nobody refers to it, it is not yet freed, and `active == 0` is visible. |
| `RefCount.SafeIff` | Documentation/atomic_ops.txt:374-402 | All runs on any CPUs and objects are safe (no BUG, no double free, no access after free, not even by a late store) if and only if the release after `obj_list_add` makes earlier stores visible and the release in `obj_timeout` or `atomic_dec_and_test` does. |
| `RefCount.BugTriggers` | Documentation/atomic_ops.txt:378-396 | Without the release in `obj_timeout` and the barrier of `atomic_dec_and_test`, the documented error sequence reaches the BUG. |
| `RefCount.LateActivation` | Documentation/atomic_ops.txt:314-330 | Without the release after `obj_list_add`, whatever the other barriers, a run in which its store hits the freed object. |
| `RefCount.NoLeak` | Documentation/atomic_ops.txt:344-367 | When all calls have returned, each object that timed out has been destroyed exactly once and no other object has. |
| `RefCount.PokesNewest` | Documentation/atomic_ops.txt:332-342 | In every run the object that `obj_poke` takes a reference to is the one added last among those that have not timed out. |
| `RefCount.AccessRecorded` | Documentation/atomic_ops.txt:314-367 | Every access of every call to an object that was destroyed is recorded as an access after free. |
| `RefCount.OwnStoreSeen` | Documentation/atomic_ops.txt:374-376 | A CPU sees its own latest store at once; the other CPUs see memory until the store is drained. |
| `DecAndLock.OutcomesTruthful` | Documentation/atomic_ops.txt:594-617 | In every run, with or without that order, each call returns 1 exactly when its own swap wrote zero, and holds the lock on return exactly when it returns 1. |
| `DecAndLock.ZeroUnderLockIff` | Documentation/atomic_ops.txt:619-625 | In all runs the counter falls to zero only in a step of the thread that holds the lock, if and only if `spin_lock` orders the accesses after it; the only other way to zero is an increment of -1. |
| `DecAndLock.BegunIsReturned` | Documentation/atomic_ops.txt:582-614 | No call is lost: at every point of every run each thread has begun as many increments, and as many decrements, as it has returned from, and one more exactly while it is inside one. |
| `DecAndLock.ExactlyOnce` | Documentation/atomic_ops.txt:567-617 | At every point of every run each thread has changed the counter once for each of its calls that has returned, and once more only between swap and return, however many swaps failed; when all calls have returned, the counter is its start value plus the increments begun less the decrements begun. |
| `DecAndLock.MutualExclusion` | Documentation/atomic_ops.txt:554-557 | No two threads are between taking the lock and releasing it. |
| `VdsoHash.ElfHash` | Documentation/vDSO/parse_vdso.c:81-92 | The loop computes the hash of the string in either width of `unsigned long`. |
| `VdsoHash.HashDigits` | Documentation/vDSO/parse_vdso.c:84-90 | For every name and width, the hash digit by digit: with x = 16 h + c, the lowest hexadecimal digit and the third to seventh are those of x, the second is xored with the eighth, the eighth is 0, and what lies above 32 bits is kept. |
| `VdsoHash.VersionName` | Documentation/vDSO/parse_vdso.c:31-33 | The hash of the version name LINUX_2.6 is 0x3ae75f6 in both widths. |
| `VdsoHash.ValueCounts` | Documentation/vDSO/parse_vdso.c:229 | The number that the bucket index is computed from is 0 for the word 0 and grows by one with the word. |
| `VdsoHash.HashWidth` | Documentation/vDSO/parse_vdso.c:81-92 | With 32 bits the hash stays below 2^28, and it is the low half of the 64-bit hash, for every string. |
| `VdsoHash.WidthsAgree` | Documentation/vDSO/parse_vdso.c:81-92 | The two widths give the same hash if and only if none of the last eight characters overflows 32 bits. |
| `VdsoHash.WidthsDiffer` | Documentation/vDSO/parse_vdso.c:81-92 | A seven-byte name whose hash depends on the width: 2 and 0x100000002. |
| `VdsoHash.BucketsAgree` | Documentation/vDSO/parse_vdso.c:229 | For every name and bucket count the widths choose the same bucket exactly when what the 64-bit hash has above 32 bits is a multiple of the count. |
| `VdsoHash.BucketsDiffer` | Documentation/vDSO/parse_vdso.c:229 | For that seven-byte name they choose the same bucket exactly when the count divides 2^32. |
| `VdsoHash.BucketsAgreeIff` | Documentation/vDSO/parse_vdso.c:229 | They choose the same bucket for all names if and only if the count divides 2^32. |
| `Vdso.MatchVersion` | Documentation/vDSO/parse_vdso.c:184-220 | The walk ends and returns true exactly when a non-base definition with the masked index exists and the first one carries the hash and the name. |
| `Vdso.VersionMeaning` | Documentation/vDSO/parse_vdso.c:202-219 | A version matches exactly when the first definition with bit 0 of its flags clear and the same low 15 bits of index carries both the hash and the name. |
| `Vdso.FunctionInfo` | Documentation/vDSO/parse_vdso.c:234-241 | The tests of a symbol hold exactly for info bytes 0x12 and 0x22 with a section. |
| `Vdso.Check` | Documentation/vDSO/parse_vdso.c:231-249 | The tests of one entry hold exactly for a defined global or weak function with the name and version. |
| `Vdso.MissesNothing` | Documentation/vDSO/parse_vdso.c:228-249 | If the symbols were placed by a hash, of either width, that gives the searched bucket for the name, the first wanted entry of the chain exists whenever any entry of the table is wanted. |
| `Vdso.FindsPlacedIff` | Documentation/vDSO/parse_vdso.c:228-249 | For every width, name and bucket count: the search meets the name in all tables that were placed by the 32-bit hash and hold it, if and only if the two widths choose the same bucket for it. |
| `Vdso.MissedSymbol` | Documentation/vDSO/parse_vdso.c:228-249 | Where the buckets differ, a table with one symbol, placed by the 32-bit hash, whose search meets nothing wanted. |
| `Vdso.FindsAllIff` | Documentation/vDSO/parse_vdso.c:228-249 | A 64-bit program finds every name in such tables if and only if the bucket count divides 2^32. |
| `Vdso.Walk` | Documentation/vDSO/parse_vdso.c:229-252 | The chain walk ends at the first wanted entry in chain order, or at the end of a chain that holds nothing wanted. |
| `Vdso.Lookup` | Documentation/vDSO/parse_vdso.c:222-255 | 0 if initialisation failed or the searched chain holds nothing wanted, otherwise load offset plus value, modulo the number of addresses, of the first wanted entry in chain order; and when the symbols were placed by a hash that gives the searched bucket, that is the answer for the whole table. |
| `VirtioBlock.NextFlag` | Documentation/mic/mpssd/mpssd.c:344 | A descriptor has a successor exactly when bit 0 of its flags is set. |
| `VirtioBlock.NoRevisit` | Documentation/mic/mpssd/mpssd.c:340-348 | A descriptor chain that ends visits no descriptor twice. |
| `VirtioBlock.ChainFits` | Documentation/mic/mpssd/mpssd.c:1161-1162 | A chain has at most as many descriptors as the ring; without its header and status that is the `seg_max` entries allocated. |
| `VirtioBlock.WalkChain` | Documentation/mic/mpssd/mpssd.c:1219-1234 | The walk ends on the status descriptor and writes one entry per data descriptor within the array: the i-th has the i-th descriptor's length, the first begins at backend + 512 * sector, each other where the one before ends, and the remaining entries are left alone. |
| `VirtioBlock.ScatterTiles` | Documentation/mic/mpssd/mpssd.c:1222-1234 | Those entries cover each byte of one contiguous backend range exactly once and no other byte. |
| `Skeleton.FormatDerived` | Documentation/video4linux/v4l2-pci-skeleton.c:322-352 | In every run the stored format is, by fields: on S-Video 720 by 480 exactly for a 525-line standard and otherwise by 576, interlaced, SMPTE 170M; on HDMI the width of the timings, Rec.709, and the full height or alternate fields of half the height; YUYV with two bytes to a pixel; timings in range and size within 32 bits. |
| `Skeleton.FrozenWhileBusy` | Documentation/video4linux/v4l2-pci-skeleton.c:382-387 | In every run, from any point on and for as long as buffers are allocated, input, standard, timings and format stay as they were at that point. |
| `Skeleton.PrepareNeverRejects` | Documentation/video4linux/v4l2-pci-skeleton.c:197-210 | In every run `buffer_prepare` accepts every buffer that was sized by a successful `queue_setup`. |
| `Skeleton.BuffersConserved` | Documentation/video4linux/v4l2-pci-skeleton.c:215-280 | In every run each buffer was returned as often as it was queued, less one if it is on the list; stopping empties the list. |
| `Skeleton.FramesInOrder` | Documentation/video4linux/v4l2-pci-skeleton.c:138-153 | Completed frames are numbered 0, 1, 2, ... since streaming started, and those since `queue_setup` carry the format's field, or top and bottom in turn in alternate mode. |
| `Skeleton.Driver.constructor` | Documentation/video4linux/v4l2-pci-skeleton.c:794-797 | A probed device is valid, shows 720 by 576 on S-Video, has 720p timings and no buffers, and is the start of every run. |
| `Skeleton.Driver.FillPixFormat` | Documentation/video4linux/v4l2-pci-skeleton.c:322-352 | The format computed step by step is the one that `FormatDerived` describes by fields. |
| `Skeleton.Driver.SetFmt` | Documentation/video4linux/v4l2-pci-skeleton.c:354-392 | Setting the format never changes the state of a valid device; it succeeds exactly for the one pixel format without buffers. |
| `Skeleton.Driver.SetStd` | Documentation/video4linux/v4l2-pci-skeleton.c:415-445 | Success, exactly on S-Video with the same standard or without buffers, leaves the device valid with the standard and its format; an error, or allocated buffers, leave the state alone. |
| `Skeleton.Driver.SetDvTimings` | Documentation/video4linux/v4l2-pci-skeleton.c:493-530 | Success, exactly on HDMI with listed timings in range that are the current ones or without buffers, leaves the device valid with the timings and their format; an error, or allocated buffers, leave the state alone. |
| `Skeleton.Driver.SetInput` | Documentation/video4linux/v4l2-pci-skeleton.c:627-652 | Success, exactly for an existing input without buffers, leaves the device valid with the input and its format; an error leaves the state alone. |
| `Skeleton.Driver.SetupQueue` | Documentation/video4linux/v4l2-pci-skeleton.c:165-191 | Refused exactly for read() with alternate fields or too small a wanted size; otherwise planes of the wanted size or the image's, the wanted number of buffers or as many as make three, and the first field top in alternate mode; on every path only that field changes. |
| `Skeleton.Driver.PrepareBuffer` | Documentation/video4linux/v4l2-pci-skeleton.c:197-210 | A valid device accepts every allocated buffer; the payload is the image size and fits the plane. |
| `Skeleton.Driver.QueueBuffer` | Documentation/video4linux/v4l2-pci-skeleton.c:215-227 | The buffer goes to the end of the list, the device stays valid, and the buffers listed or returned gain exactly this one. |
| `Skeleton.Driver.ReturnAllBuffers` | Documentation/video4linux/v4l2-pci-skeleton.c:229-241 | Every listed buffer is returned once, in order, with the given state; afterwards all buffers ever queued have come back. |
| `Skeleton.Driver.StartStreaming` | Documentation/video4linux/v4l2-pci-skeleton.c:249-266 | The sequence restarts; a failed start returns all buffers to the queued state; no buffer is lost. |
| `Skeleton.Driver.StopStreaming` | Documentation/video4linux/v4l2-pci-skeleton.c:272-280 | All listed buffers are returned with an error, and with that every buffer ever queued has come back as often as it was queued. |
| `Skeleton.Driver.CompleteFrame` | Documentation/video4linux/v4l2-pci-skeleton.c:138-153 | The buffer leaves the list for good, list plus returned buffers stay the same multiset, it carries the current number and field, and the format does not change. |
| `Framebuffer.Display.Run` | Documentation/auxdisplay/cfag12864b-example.c:93-180 | Any sequence of operations by coordinates on the packed bytes shows the picture that the same sequence builds on a plain matrix. |
| `Framebuffer.PlaceOf` | Documentation/auxdisplay/cfag12864b-example.c:42-44 | Address and bit of pixel (x, y) are quotient and remainder of y * 128 + x by 8, inside the buffer. |
| `Framebuffer.EightPixels` | Documentation/auxdisplay/cfag12864b-example.c:42-44 | Pixels 8 a to 8 a + 7 of the picture are the bits of byte a with masks 1, 2, 4, up to 128. |
| `Framebuffer.Display.Set` | Documentation/auxdisplay/cfag12864b-example.c:93-98 | Exactly pixel (x, y) becomes on. |
| `Framebuffer.Display.Unset` | Documentation/auxdisplay/cfag12864b-example.c:103-108 | Exactly pixel (x, y) becomes off. |
| `Framebuffer.Display.IsSet` | Documentation/auxdisplay/cfag12864b-example.c:116-124 | Tells whether pixel (x, y) is on. |
| `Framebuffer.Display.Not` | Documentation/auxdisplay/cfag12864b-example.c:129-135 | Exactly pixel (x, y) changes. |
| `Framebuffer.Display.Fill` | Documentation/auxdisplay/cfag12864b-example.c:140-146 | Every pixel is on. |
| `Framebuffer.Display.Clear` | Documentation/auxdisplay/cfag12864b-example.c:151-157 | Every pixel is off. |
| `Framebuffer.Display.Format` | Documentation/auxdisplay/cfag12864b-example.c:165-180 | Pixel (x, y) is on exactly when matrix entry y * 128 + x is not zero. |
| `Framebuffer.Display.Negate` | Documentation/auxdisplay/cfag12864b-example.c:245-250 | The double loop changes every pixel exactly once. |
| `Vrl4.RoundUpLeast` | Documentation/arm/SH-Mobile/vrl4.c:79 | For every 64-bit argument, the masked sum is the least multiple of 512 that is no less than the argument, as long as argument + 512 is at most 2^64; above, it is 0. |
| `Vrl4.Sizes` | Documentation/arm/SH-Mobile/vrl4.c:145-148 | The header takes one sector; the copy size is a multiple of 512 that holds header and boot program with less than a sector to spare, at most 8704, and fits 16 bits. |
| `Vrl4.SizeExact` | Documentation/arm/SH-Mobile/vrl4.c:145-148 | The copy size is 512 plus the boot program if and only if the boot program fills whole sectors; for one byte it is 1024. |
| `Vrl4.DocumentedSizeIff` | Documentation/arm/SH-Mobile/vrl4.c:23-26 | The copy size in the image is the documented one if and only if the kernel reaches the limit or fills whole sectors; a one-byte kernel gives 1024 and not 513. |
| `Vrl4.ImageLayout` | Documentation/arm/SH-Mobile/vrl4.c:39-58 | Byte by byte: the words 0xea000000, 0x56, 0xe59ff008 and 0, the copy size at byte 16, 1 at byte 20, the start address 0xe55b0200 at byte 24, zeros elsewhere up to byte 512, and from there the kernel unchanged. |
| `Vrl4.System.DoRead` | Documentation/arm/SH-Mobile/vrl4.c:81-100 | Whatever the short reads and retries, the buffer holds the next bytes of the input, as many as asked or left; -1 only after a failed read. |
| `Vrl4.System.DoWrite` | Documentation/arm/SH-Mobile/vrl4.c:102-119 | Whatever the short writes and retries, all data is appended once and in order; after a failed write, a first part of it. |
| `Vrl4.System.WriteZero` | Documentation/arm/SH-Mobile/vrl4.c:121-132 | The given number of zero bytes is appended, or a first part of them after a failed write. |
| `Vrl4.System.CopyKernel` | Documentation/arm/SH-Mobile/vrl4.c:155-169 | The boot program and then the rest of the input are appended unchanged, chunk by chunk. |
| `Vrl4.System.WriteImage` | Documentation/arm/SH-Mobile/vrl4.c:134-170 | A run that returns 0 has written exactly the image of its nonempty input; any other run has written a first part of it and met a failed call, or had no input: -1 up to the padded header, 1 from there on. |

## Left out

- `Documentation/assoc_array.txt`: a design in prose, without code to model.
- `mpssd.c` outside the request walk: ioctls, polling, network and console loops around a kernel driver that is not part of this model; a little-endian host is taken for granted, and addresses are unbounded.
- VirtioBlock.WalkChain: takes the request's chain as well formed (a header with a successor, in-range links, an end), as the guest driver builds it; `header_error_check` reports other headers but the walk goes on (mpssd.c:1208-1221), and that case is not modelled.
- `v4l2-pci-skeleton.c`: probing beyond the initial format, controls, queries and enumeration. What the unseen vb2 framework guarantees is written out in `Skeleton.Enabled`; whether timings are listed or match the current ones are inputs. Frame numbers are unbounded.
- `parse_vdso.c`: `vdso_init_from_sysinfo_ehdr` and `vdso_init_from_auxv` cast raw memory; the model starts from the tables they find. `strcmp` is string equality.
- Vdso.Lookup: takes tables whose indices stay inside them and whose hash chains and version list end; the code walks them on the same trust. Where a linker places the symbols is not taken for granted.
- Vdso.MatchVersion: takes a version list that ends, for the same reason.
- `vrl4.c`: a run in which retries never end does not return and has no counterpart; a script that has run out stands for calls that move all they are asked for.
- `cfag12864b-example.c`: coordinates are taken in range, because the range check is compiled out (lines 46-52). Not modelled: opening and mapping the device, and the examples other than the negative, which only call the modelled operations in simpler loops.
- `circular-buffers.txt`: `CIRC_SPACE_TO_END` and `CIRC_CNT_TO_END`, whose definitions are in a header that is not part of this model, and `wake_up`.
- DecAndLock.ExactlyOnce: counters are unbounded integers; wrap-around of `long` is not modelled.
- RefCount.SafeIff: only stores to `obj->active` are delayed; those of `list_add` and `list_del` are visible at once. There is one `obj_timeout` for each addition to the list (`BeginTimeout` needs the object on the list when it takes the lock, and `BeginAdd` a new object), a freed object's address is not reused, and the caller of `obj_list_add` holds the list lock, whose acquisition orders what follows.
- CircBuf.FifoIff: the producer's writes do not overtake its test of the space, on which they depend, and the consumer's loads of slots stay in order among themselves.
- `crc32.txt`: the 16-entry table is covered by `CrcTables.ChunkByTable` with k = 4 and has no word-level form; the remarks on cache and parallelism are not modelled.
- `getdelays.c`, the configfs examples and the other tools: system calls, registration and printing, with only easy members.
