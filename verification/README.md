# Verified model of Ciabatta's core

Ciabatta is a C standard library with its own dynamic loader for Linux on x86-64. This project models
the parts of it where a property spans many functions, many threads or whole runs, and proves those
properties in Dafny. `dafny verify dfyconfig.toml` checks everything.

| part | modules | what is proved |
|---|---|---|
| alignment | `Machine`, `Align` | the bit-mask helpers against least and greatest multiples, with the exact wrap-around condition |
| futex mutex | `Mutex`, `CounterRun` | N threads: mutual exclusion, no lost wake-up, termination of the counter workload and its result |
| pool allocator | `PoolSpec`, `PoolGrow`, `PoolRuns`, `CiaPool` | a free list threaded through the bytes that clients write to; all histories |
| FILE pool | `FilePool`, `FilePoolSteps`, `FilePoolRuns`, `FilePoolHandles`, `FilePoolCalls` | fopen, fclose and stream operations of any number of threads, by their accesses to shared memory |
| text | `Digits`, `Printers`, `Maps`, `MapsReader` | number printers and readers, the buffered reader, and the parser of `/proc/self/maps` |
| relocation | `Reloc`, `RelocRuns`, `RelocApp`, `RelocBases`, `RelocAbi`, `LoaderReloc` | both loaders' passes against section 4.4.1 of the AMD64 psABI |
| symbol hash | `ElfHash` | the 64-bit loop against the 32-bit hash of chapter 5 of the System V gABI |
| threads | `Threads`, `Tcb`, `ThreadCreate` | create, finish, join and detach; where a thread's control block and TLS lie; the list of blocks |

Code that the source writes as loops over fields and arrays is in `CiaPool`, `Printers`, `MapsReader`,
`LoaderReloc`, `ElfHash` and `ThreadCreate` as classes and methods; each method is proved equal to a
function, or to a stated relation, about which the lemmas are. Protocols are state machines over atomic steps.

Machine words are natural numbers below a power of two and wrap-around is written out. Memory maps
addresses to bytes, words are little-endian, and an address that is not in the map is not backed by
a page.

## Where the code does less than it is meant to

These are statements about the code as it stands, each proved with its exact condition.

* `cia_size_alignf` and `cia_ptr_alignf` return 0 when the intermediate sum wraps, and the least
  multiple otherwise (`AlignForwardWraps`, `AlignForwardIsLeast`).
* The inner `continue` at loader/stack.c:210 continues the comparison loop rather than the line loop.
  So the first mapping whose name has seven characters, whatever they are, is reported as the stack;
  `StackFoundIff` gives the exact condition and `WrongMapping` a concrete file. A file of which no line
  qualifies gives -1 and not 1, because the loop tries to read another record after the last newline.
* `print_uint` stays inside its 20-byte buffer exactly for the numbers below 10^19 (`PrintUint`).
* A byte 0xff in a mapping's name reads as the end of the file (`ByteFFEndsParse`), and what a name has
  beyond 256 bytes reads as the start of the next record (`LongName`).
* `_rt_file_std_handles_init` sets the flags of stdout twice and those of stderr never, so stderr's are 0
  (`StreamsSetUp`).
* Upper-case hexadecimal digits are taken for digits and count 32 too little (`UpperCaseDigits`).
* `_rt_thread_join` waits with expected value 0, the value that ends its loop. A joiner can therefore
  fall asleep only once the thread has exited, and if that is after the kernel's wake it stays asleep.
  At the loop's test this lies ahead in some continuation if and only if `state_finish` is not 0
  (`JoinMaySleepIff`, `StuckIffGone`, `JoinCanSleepForever`).
* `_rt_thread_detach` does not wake the thread, which may have gone to sleep before; it then stays asleep
  (`DetachedCanSleep`, `AsleepUntilJoin`).
* `_rt_thread_cancell_all_running` follows `next_tcb` from the newest block, from which it leads nowhere:
  only the newest thread is marked (`CancellAllRunning`).
* The main thread's block is aligned forward from the end of the TLS copy. It lies in its mapping, and
  the mask in `_rt_thread_current` finds it from the whole stack, if and only if the TLS image ends
  behind the first multiple of the stack size in the mapping and at most one stack size behind it. With
  a smaller image there are frames that mask to another block, with a larger one the block is outside
  the mapping (`MainFramesFindTcb`, `MainTcbMissed`).
* `app->dyn` is set to an array whose block ends right after (loader/loader.c:197-209), and the
  relocation reads it from there on. The model takes the array to be still intact.
* `ld_stage2_entry` exits with status 0 at the first REL entry, where `ld_stage1_entry` walks over the
  table (`LoadersAgree`).

## Model

| member | source | states |
|---|---|---|
| Align.AlignBackwardIsGreatest | src/cia-mem/util.c:8-20 | for every power of two, aligning backward gives the greatest multiple not above the input |
| Align.AlignForwardIsLeast | src/cia-mem/util.c:2-16 | aligning forward gives the least multiple not below the input if size + alignment - 1 does not wrap |
| Align.AlignForwardWraps | src/cia-mem/util.c:14-16 | if that sum wraps the result is 0, below the input, so the condition of AlignForwardIsLeast is exact |
| Align.MaskClearsLowBits | src/cia-mem/util.c:15-19 | masking with the complement of 2^k - 1 removes exactly the low k bits |
| Mutex.StepKeepsInv | src/cia-sync/mutex.c:10-48 | every atomic step of every thread, spurious wake-ups included, keeps: the word counts the threads in the critical section, and a sleeper implies somebody awake who will wake or retry |
| Mutex.RunIsSafe | src/cia-sync/mutex.c:6-48 | in every state of every run of N threads the word is FREE or LOCK, at most one thread is in the critical section, and no wake-up is lost |
| CounterRun.StepDecreases | src/cia-sync/mutex.c:10-48 | every step but a spurious wake-up decreases the lexicographic pair of steps ahead and failed attempts possible under the current lock word |
| CounterRun.StepKeepsInv | tests/threaded.c:40-44 | counter plus the increments still to store is constant modulo 2^64, although load and store of the counter are separate steps |
| CounterRun.RunsAreFinite | tests/threaded.c:19-44 | no run of N threads with K lock, increment, unlock rounds takes more than 6NK(2N+1) steps, and three more for every spurious wake-up in it |
| CounterRun.StuckIffFinished | tests/threaded.c:19-44 | in runs with or without spurious wake-ups, a state has no step left but such a wake-up if and only if every thread has finished, and then the counter is N*K modulo 2^64 |
| PoolSpec.DistinctBucketsApart | src/cia-mem/pool.c:2-21 | any two different buckets, of one buffer or of two, have no byte in common |
| PoolSpec.CountIsMaximal | src/cia-mem/pool.c:7-9 | the buckets of a buffer fit, and one more would not |
| PoolSpec.LinkChainLinks | src/cia-mem/pool.c:13-20 | the links that the loop writes, in front of an older chain, form one chain of both |
| PoolSpec.LiveWrite | src/cia-mem/pool.c:46-57 | whatever is written inside one live bucket, the pool's chain and partition stay as they are |
| PoolSpec.Pop | src/cia-mem/pool.c:46-49 | taking the head makes exactly that bucket live and leaves the rest of the chain |
| PoolSpec.Push | src/cia-mem/pool.c:52-57 | a live bucket whose first word holds the head becomes the new head of the chain |
| PoolGrow.FreelistAddEffect | src/cia-mem/pool.c:2-21 | adding a buffer puts exactly as many buckets as fit, disjoint, inside the buffer and in ascending order, before the old chain, and changes no byte but their link words |
| PoolGrow.CreateSizes | src/cia-mem/pool.c:24-33 | header and bucket size are the least multiples of the alignment that hold a header, and a link and the requested size; at least one bucket fits if and only if header plus bucket do |
| PoolGrow.BucketAligned | src/cia-mem/pool.c:5-15 | every bucket of a page-aligned buffer is aligned, for every power of two up to a page |
| PoolGrow.CreateRep | src/cia-mem/pool.c:23-38 | a new pool has all buckets of its buffer on the free list, in address order; the buffer is otherwise zero, and no other memory is mapped, unmapped or changed |
| PoolGrow.Grow | src/cia-mem/pool.c:42-45 | growing adds exactly the buckets of the new buffer and leaves every other byte of old and new pages alone |
| PoolGrow.FreeAllRep | src/cia-mem/pool.c:59-67 | freeing all leaves the first buffer's buckets, all free, in the order of a new pool, and changes no byte but their links |
| PoolRuns.StepKeepsRep | src/cia-mem/pool.c:40-67 | alloc, free of a live bucket, a client's write inside a live bucket and free_all are defined and keep: free list and live buckets partition all buckets |
| PoolRuns.StepFrame | src/cia-mem/pool.c:40-67 | what each call does to memory: alloc writes nothing, or maps a region if the list is empty; free writes the link of its bucket; a reset those of the first buffer; every other byte, inside the pool or not, stays |
| PoolRuns.ChainIsComplement | src/cia-mem/pool.c:40-67 | after any history the chain from freelist_head is acyclic and reaches exactly the buckets that are not live, of the first buffer and every region added since the last reset, all mapped and disjoint |
| PoolRuns.HistoryRep | src/cia-mem/pool.c:40-67 | in every world of a history the pool has exactly the buffers that the history of calls determines |
| PoolRuns.AllocIsFresh | src/cia-mem/pool.c:40-50 | after any history alloc returns a mapped bucket that is a multiple of the power-of-two alignment and disjoint from every live one, and changes no byte of those |
| PoolRuns.FreshSizesAligned | src/cia-mem/pool.c:24-33 | header and bucket size of a new pool are multiples of the alignment, for every requested size |
| PoolRuns.ContentsSurvive | src/cia-mem/pool.c:40-57 | what a client stores in its bucket stays, byte for byte, through any stretch of others' operations |
| PoolRuns.SameCallsSameAddresses | src/cia-mem/pool.c:40-57 | pools with the same free list hand out the same addresses to the same calls until a buffer is exhausted |
| PoolRuns.FreeAllStartsOver | src/cia-mem/pool.c:59-67 | after any history followed by free_all, calls get the addresses a new pool would give, until the first buffer is exhausted |
| CiaPool.Cia_Pool.FreelistAdd | src/cia-mem/pool.c:2-21 | the do-while loop in place computes the chain that FreelistAddEffect is about |
| CiaPool.Cia_Pool.constructor | src/cia-mem/pool.c:23-38 | sets up a valid pool without live buckets, and leaves all other memory as it was |
| CiaPool.Cia_Pool.Alloc | src/cia-mem/pool.c:40-50 | returns a bucket that was not live and is apart from all live ones, whose bytes it keeps; the new state is the specified one |
| CiaPool.Cia_Pool.Dealloc | src/cia-mem/pool.c:52-57 | the bucket is the new head of the free list and other live buckets keep their bytes |
| CiaPool.Cia_Pool.FreeAll | src/cia-mem/pool.c:59-67 | only the first buffer's buckets remain, all free |
| FilePoolSteps.StepKeepsInv | src/stdlib-file/file.c:29-33 | every step of every thread in fopen, fclose and the stream operations keeps the pool's partition and the count of each FILE's mutex word, with the free list and the buffers that this step leaves |
| FilePoolSteps.StepKeepsAccount | src/cia-mem/pool.c:42-45 | no step loses a region: each one the page allocator returned is a buffer of the pool or about to become one |
| FilePoolSteps.EnabledIsSafe | src/stdlib-file/file.c:16-93 | no statement of any thread touches unmapped memory or calls the pool in a state it cannot handle |
| FilePoolRuns.FileSizes | src/stdlib-file/file.c:3-3 | a page of the FILE pool holds a 16-byte header and 127 buckets |
| FilePoolRuns.ZeroWords | src/cia-mem/pool.c:11-18 | in fresh pages every mutex word of a bucket is FREE, since the links cover the first word only |
| FilePoolRuns.StreamsSetUp | os/linux/tinyrt.c:8-16 | the words of stdin, stdout and stderr that the initialisation leaves, by offset |
| FilePoolRuns.InitAllocates | src/stdlib-file/file.c:3-6 | on any fresh page the three allocations of _fileapi_init are defined and give three different FILEs |
| FilePoolRuns.StartExists | src/stdlib-file/file.c:2-14 | so for any number of threads there is a state from which the runs start |
| FilePoolRuns.StartInv | src/stdlib-file/file.c:2-14 | after _fileapi_init the invariant holds, the pool has one buffer, and exactly three different FILEs are open, with descriptors 0, 1 and 2, the flags for reading, for writing and none, and unlocked |
| FilePoolRuns.BucketsArePartitioned | src/stdlib-file/file.c:29-31 | in every state of every run the free chain, the open FILEs and the buckets in flight in calls partition all buckets of all regions the pool has ever got; while a thread holds the lock and is about to publish a new buffer, that buffer's list stands for the empty free chain |
| FilePoolRuns.RegionsAreAll | src/cia-mem/pool.c:42-45 | every address that became mapped in a run lies in one of the recorded regions, and none of those is dropped |
| FilePoolRuns.OpenFilesDisjoint | src/stdlib-file/file.c:16-34 | no two open FILEs share a byte, and no FILE is open twice or open and in flight |
| FilePoolRuns.OpenedFileIsUnlocked | src/stdlib-file/file.c:29-33 | the FILE that fopen returns was not open, carries the new handle, and its mutex word is FREE although fopen never writes it |
| FilePoolRuns.ClosedFileIsUnlocked | src/stdlib-file/file.c:84-93 | a FILE closed while no operation on it is under way is unlocked: every operation has released what it locked |
| FilePoolRuns.RunIsSafe | src/stdlib-file/file.c:16-93 | over all runs: no step faults, no two threads are inside a pool call, no wake-up on the pool mutex is lost, and no two operations hold one FILE's mutex |
| FilePoolHandles.StepKeepsFile | src/stdlib-file/file.c:16-93 | whatever any thread does next but close it, an open FILE stays open and keeps every byte outside its mutex word |
| FilePoolHandles.OpenedHandleStays | src/stdlib-file/file.c:25-33 | from the return of the fopen that opened it until it is closed, over all runs, a FILE holds the descriptor and flags opened for it |
| FilePoolHandles.StreamHandlesStay | src/stdlib-file/file.c:8-10 | from the start until they are closed, the standard streams hold theirs |
| FilePoolCalls.AllocAlone | src/cia-mem/pool.c:40-50 | the statements of one thread's allocation, taken without another thread in between, have the result and the effect of the specified cia_pool_alloc |
| FilePoolCalls.FreeAlone | src/cia-mem/pool.c:52-57 | and those of a free the effect of the specified cia_pool_free |
| FilePoolCalls.OpenAlone | src/stdlib-file/file.c:16-34 | an undisturbed fopen runs to its end: the mutex is free again, and the bucket of cia_pool_alloc is open with the handle in it |
| FilePoolCalls.CloseAlone | src/stdlib-file/file.c:84-93 | an undisturbed fclose runs to its end: the mutex is free again, and the pool is that after cia_pool_free |
| Digits.HexRoundTrip | loader/stack.c:66-84 | read_hex on the hexadecimal digits of n, however padded, returns n and stops behind them |
| Digits.DecRoundTrip | loader/stack.c:86-104 | read_dec on the decimal digits of n stops behind them, and returns n for every 64-bit n |
| Digits.UpperCaseDigits | loader/stack.c:52-64 | upper-case hexadecimal digits are accepted, with values 32 too small |
| Digits.ValueOfPadded | loader/loader.h:48-62 | the digits a printer produces denote the number |
| Digits.DigitCount | loader/loader.h:48-50 | a number has at most k digits, zero-padding included, if and only if it is below base^k |
| Printers.DigitLoop | loader/loader.h:36-39 | the loop writes the decimal digits just below the terminator; it comes to a place in front of the buffer if and only if the number is 10^19 or more |
| Printers.PrintInt | loader/loader.h:28-41 | writes sign and digits of every 64-bit number but the least one |
| Printers.PrintUint | loader/loader.h:42-51 | stays in its buffer if and only if the number is below 10^19, and then writes its digits |
| Printers.PrintHex | loader/loader.h:52-67 | writes 0x and the sixteen digits of every 64-bit number |
| Printers.UintFitsBuffer | loader/loader.h:43-50 | at most nineteen digits if and only if below 10^19, never more than twenty, and twenty at 10^19 |
| Printers.HexHasSixteenDigits | loader/loader.h:58-65 | every 64-bit number has exactly sixteen padded hexadecimal digits |
| Maps.ParseLine | loader/stack.c:128-221 | on one rendered record followed by anything, the parser reports the record or goes on behind it, according to the length of its name |
| Maps.ParseOfRender | loader/stack.c:106-224 | on a rendered list of any length the parser reports the first mapping whose name, leading blanks aside, has seven characters, with its start, end and flags |
| Maps.LongName | loader/stack.c:194-207 | of a name of 256 bytes or more the parser takes 256, and the others for the start of the next line |
| Maps.ByteFFEndsParse | loader/stack.c:197-202 | a byte 0xff in a name ends the parse: the record is reported if seven bytes of the name precede it, and otherwise the result is 1 |
| Maps.StackFoundIff | loader/stack.c:204-220 | the [stack] record is reported if and only if no earlier record has a name of seven characters; some record is reported in any case |
| Maps.WrongMapping | loader/stack.c:208-212 | a file for which another mapping is reported, with addresses and flags |
| Maps.FlagValues | loader/stack.c:157-173 | the flags of a record are 1, 2, 4 and 8 for its four permissions |
| Maps.NoFirstAddress | loader/stack.c:136-139 | a line that does not start with a hexadecimal digit is refused |
| Maps.NoDash | loader/stack.c:140-143 | and so is one without a dash behind the first address |
| Maps.NoSecondAddress | loader/stack.c:148-151 | or without a digit behind the dash |
| Maps.NoInode | loader/stack.c:176-184 | or without an inode twenty characters behind the addresses |
| Maps.LastLineOpen | loader/stack.c:186-188 | without the newline behind the last record, the result is 1 if that record is not reported |
| Maps.BytesOfRender | loader/stack.c:106-224 | a rendered list is a file of bytes, as the reader requires |
| MapsReader.FileBuffer.ReadChar | loader/stack.c:27-50 | however the kernel splits the file, the values left in last_char are the file's bytes as signed chars, in order, and then -1 for ever; a read that fails gives -1 and changes nothing |
| MapsReader.FileBuffer.ReadHexNumber | loader/stack.c:66-84 | through the buffer, computes the function that HexRoundTrip is about |
| MapsReader.FileBuffer.ReadDecNumber | loader/stack.c:86-104 | through the buffer, computes the function that DecRoundTrip is about |
| MapsReader.FileBuffer.ReadName | loader/stack.c:193-203 | stores the rest of the line, up to 256 characters |
| MapsReader.Loader.LinuxReadStackInfo | loader/stack.c:106-224 | for every file of bytes and every split into reads that succeed, terminates with the status and the stack_info of the specified parser |
| MapsReader.Loader.ReadRenderedStack | loader/stack.c:106-224 | on the rendering of any list with a [stack], for every split into reads, the status is 0, and what is stored is exactly the stack's start, end and flags if and only if no earlier name has seven characters |
| Reloc.RunIsApply | loader/loader.c:245-307 | processing entries from memory that is being changed equals writing the values computed beforehand, if no target lies in an entry or symbol; it stops with status 1 exactly at an unhandled type |
| Reloc.ApplyPermutes | loader/loader.c:263-268 | writes to targets that do not overlap give the same memory in any order |
| RelocRuns.RunRelocates | loader/loader.c:239-308 | for tables of any length, the loops end with the relocated image: every target holds its word and every other byte is unchanged |
| RelocRuns.ExitIffUnhandled | loader/loader.c:269-272 | the passes exit if and only if some entry has an unhandled type |
| RelocRuns.RelocatedUnique | loader/loader.c:239-308 | that description determines the memory |
| RelocRuns.OrderDoesNotMatter | loader/loader.c:245-307 | permuting the entries gives the same memory |
| RelocRuns.SecondRunChangesNothing | loader/loader.c:245-307 | running the passes a second time changes nothing |
| RelocApp.RelaFromIsRun | loader/loader.c:239-276 | from every offset on, the second loader's RELA loop does what the first does to the entries of the table, faults and exits included |
| RelocApp.JmprelFromIsRun | loader/loader.c:277-308 | the same for its JMPREL loop |
| RelocApp.AppIsSelf | loader/loader.c:222-308 | all passes of the second loader have the outcome of the first's unless REL entries stop them with status 0 |
| RelocBases.LoadersRelocate | loader/loader-self-reloc.c:126-195 | each loader leaves exactly the relocated image when both tables have addends, the second one if there are also no REL entries |
| RelocAbi.InfoHalves | include/bin/elf.h:365-366 | symbol and type are the high and the low half of r_info |
| RelocAbi.RelocatedIsDone | loader/loader.c:239-308 | the relocated image in the terms of section 4.4.1 of the AMD64 psABI and by the offsets in the tables: GLOB_DAT and JUMP_SLOT targets hold base plus symbol value, RELATIVE targets base plus addend modulo 2^64, and every byte in no target is unchanged |
| RelocAbi.LoadersMeetAbi | loader/loader-self-reloc.c:109-195 | each loader leaves that image, by the numbers of the tags; REL entries make the second exit with status 0 |
| RelocAbi.PltWithoutAddends | loader/loader-self-reloc.c:164-170 | a PLT without addends lets neither loader go on |
| RelocBases.LoadableMoves | loader/loader.c:239-308 | the conditions on tables and targets hold at one base if they hold at another |
| RelocBases.TwoBases | loader/loader.c:245-307 | one image relocated at two bases, by either loader: relocated words differ by the difference of the bases modulo 2^64, all other bytes are equal |
| LoaderReloc.DecodedOnce | loader/loader-self-reloc.c:58-70 | every tag's slot is determined: the last value with that tag, or 0 |
| LoaderReloc.LoadersAgree | loader/loader.c:195-308 | the two loaders, which decode the dynamic vector differently and have loops of their own, do the same to an image unless REL entries stop the second with status 0 |
| LoaderReloc.MaskNext | loader/loader.c:204-204 | the mask of the tags seen so far stays exact when one more entry is added |
| LoaderReloc.Process.DecodeSelf | loader/loader-self-reloc.c:58-70 | the loop decodes the vector |
| LoaderReloc.Process.DecodeApp | loader/loader.c:195-207 | the loop decodes the vector, and slot 0 has exactly the bits of the tags present; it indexes outside its array if and only if some tag is negative |
| LoaderReloc.Process.RelaLoop | loader/loader-self-reloc.c:126-163 | the loop in place has the specified outcome, exit status included |
| LoaderReloc.Process.JmprelLoop | loader/loader-self-reloc.c:174-194 | the loop in place has the specified outcome |
| LoaderReloc.Process.SelfRelocate | loader/loader-self-reloc.c:109-196 | the REL, RELA and JMPREL parts together; REL entries change nothing, a PLT without addends exits with status 1 |
| LoaderReloc.Process.AppRelaLoop | loader/loader.c:239-276 | the second loader's loop in place has the specified outcome, exit status included |
| LoaderReloc.Process.AppJmprelLoop | loader/loader.c:287-307 | the second loader's loop in place has the specified outcome |
| LoaderReloc.Process.AppRelocate | loader/loader.c:222-308 | the second loader's passes together, with exit status 0 at REL entries |
| LoaderReloc.Process.LoadSelf | loader/loader-self-reloc.c:58-196 | from the dynamic vector in memory to the relocated image, also in the terms of the psABI |
| LoaderReloc.Process.LoadApp | loader/loader.c:195-308 | from the dynamic vector in memory to the relocated image, also in the terms of the psABI |
| ElfHash.StepsAgree | loader/loader.c:62-67 | one step on 64-bit words equals one step of the gABI's loop on 32-bit words, carries out of bit 31 included, and is below 2^28 |
| ElfHash.CarryHappens | loader/loader.c:62-62 | a name of eight characters at whose last one the 64-bit sum exceeds 32 bits, with its hash |
| ElfHash.HashOfFprintf | loader/loader.c:63-66 | the hash of a name whose last step folds the top bits in |
| ElfHash.ElfSymHash | loader/loader.c:57-70 | for every string the result is the gABI's 32-bit hash and below 2^28 |
| Threads.StepKeepsInv | os/linux/tinyrt-threads.c:61-128 | every step of creator, thread, kernel and clients keeps: state_finish is 0 exactly before creation and after the kernel cleared it, a stored exit code is the function's value, and who waits or reads does so after the exit |
| Threads.CodeRoundTrip | os/linux/tinyrt-threads.c:103-119 | the value survives the conversion to the unsigned field and back |
| Threads.FinishedMeansStored | os/linux/tinyrt-threads.c:92-119 | state_finish = 0 implies that the thread has exited, its exit code is stored, and state_detach has left NOT_YET |
| Threads.JoinIsSafe | os/linux/tinyrt-threads.c:107-122 | in every run, a join that returns does so after the thread's exit and yields the value its function returned |
| Threads.JoinsAgree | os/linux/tinyrt-threads.c:107-122 | all joins of a thread yield the same value |
| Threads.NobodyDecided | os/linux/tinyrt-threads.c:94-99 | without a decision to join or detach, a thread does not finish and no join returns |
| Threads.StuckIffGone | os/linux/tinyrt-threads.c:113-115 | no step but a spurious wake-up wakes a sleeping joiner if and only if the kernel's wake is over |
| Threads.JoinMaySleepIff | os/linux/tinyrt-threads.c:113-115 | at the loop's test in any reachable state: some continuation ends with the joiner asleep beyond the kernel's wake if and only if state_finish is not 0; if it is 0, no continuation puts the joiner to sleep |
| Threads.JoinCanReturn | os/linux/tinyrt-threads.c:113-121 | from every test of every join, some continuation has the call return the value of the thread's function |
| Threads.TestThenRead | os/linux/tinyrt-threads.c:113-119 | a client whose test finds 0 returns that value in two steps of its own |
| Threads.DetachWord | os/linux/tinyrt-threads.c:110-126 | state_detach is 1 or 2 only if some client detached or joined: without a join it is 0 or 1, and 1 once a detach has returned; without a detach it is 0 or 2 |
| Threads.AsleepUntilJoin | os/linux/tinyrt-threads.c:96-99 | a sleeping thread is woken by a joiner, and otherwise only spuriously |
| Threads.DetachedCanSleep | os/linux/tinyrt-threads.c:124-128 | a run in which a thread sleeps on although it is detached, because detach wakes nobody |
| Threads.JoinCanSleepForever | os/linux/tinyrt-threads.c:113-115 | a run that ends in such a state |
| Tcb.TcbInUpperHalf | os/linux/tinyrt-threads.c:42-48 | the block is a multiple of the stack size in the upper half of the mapping, at least a page below its end |
| Tcb.PartsDisjoint | os/linux/tinyrt-threads.c:42-52 | TLS copy, block and start frame lie in the mapping, in this order and without overlap, for every page-aligned base and every TLS image no larger than a stack |
| Tcb.ImageBoundIsSharp | os/linux/tinyrt-threads.c:48-49 | in an aligned mapping the TLS copy fits if and only if the image is no larger than a stack |
| Tcb.EveryFrameFindsTcb | os/linux/tinyrt-threads.c:34-34 | every address from the block to the top of the stack masks back to the block |
| Tcb.ThreadsFindTheirOwn | os/linux/tinyrt-threads.c:93-93 | no thread finds another one's block |
| Tcb.MainFramesFindTcb | loader/loader.c:354-354 | for a TLS image of any size: the main thread's block lies in the mapping and every address from it to the top masks back to it, if and only if the image ends behind the first multiple of the stack size in the mapping and at most one stack size behind it |
| Tcb.MainTcbMissed | loader/loader.c:354-354 | in an aligned mapping that fails without an image, and with one of a byte more than a stack |
| ThreadCreate.FieldsFrame | include/cia-ld/tcb.h:31-45 | a store changes only the fields of a block that it overlaps |
| ThreadCreate.Runtime.CopyTls | os/linux/tinyrt-threads.c:50-52 | the loop copies the image and changes nothing else |
| ThreadCreate.Runtime.StartFrame | arch/sysv_x86-64/thread-entry.asm:32-37 | function, argument and return address lie on top of the new stack |
| ThreadCreate.Runtime.LinkHead | os/linux/tinyrt-threads.c:54-60 | the list stays linked in both directions, with the new block as the newest |
| ThreadCreate.Runtime.RtThreadCreate | os/linux/tinyrt-threads.c:38-80 | the new thread finds its block with the id that clone stored, TLS and start frame; of the old memory only the previous newest block's next_tcb changes; a failing mmap changes nothing, a failing clone leaves the block linked and the id 0 |
| ThreadCreate.NewThreadWords | os/linux/tinyrt-threads.c:53-62 | the words of a new block by their offsets; those it shares are the ones with which the protocol of `Threads` starts |
| ThreadCreate.CancelResult | os/linux/tinyrt-threads.c:156-168 | marking the newest block keeps the list and every other block |
| ThreadCreate.Runtime.CancellAllRunning | os/linux/tinyrt-threads.c:156-168 | marks the newest block and no other; all blocks are marked afterwards if and only if all older ones were before |

## Left out

* System calls are steps with the kernel's documented behaviour: mmap returns fresh zeroed pages or (for thread creation) fails, read returns any positive number of the bytes left or 0 at the end, FUTEX_WAIT sleeps only on the expected value, clear-tid stores 0 and wakes one.
* mmap failing in the pool's page allocator, and futex errors: the code does not look at them.
* Weak memory: atomic operations are sequentially consistent steps.
* Buffers that `cia_pool_alloc` adds are never linked to the first one, so `cia_pool_free_all` and `cia_pool_destroy` do not return them; `cia_pool_destroy` is not modelled.
- FilePoolSteps.StepKeepsInv: mapping a new buffer and writing its links is one step, as nobody else can reach the buffer yet; the end of a stream operation, with its releasing store, wake and return, is one step as well, and so are the writes of the handle in `fopen`.
- RelocApp.AppIsSelf: REL entries are not read. Both loaders load the fields of an entry, for their debug output, before they skip it or exit, which faults if the table is not mapped.
* Sleeping on the mutex of one FILE: of `fgetc`, `fputc`, `fread` and `fwrite` the compare-and-swap and the releasing store are modelled, and what they read, write and return is not.
* The handle in a FILE is its descriptor and flags; bytes of structure padding are not copied.
- MapsReader.Loader.LinuxReadStackInfo: reads that fail are modelled in `ReadChar` only. Where the parser does not look at its result, it goes on with the character it had before, for ever if every further read fails.
* The reader: the one-byte overrun of the terminator at loader/stack.c:40 after a full read, and of `name_buf` at loader/stack.c:203, is met with one spare slot each.
- Maps.ParseOfRender: names of 256 bytes or more, leading blanks not counted, or with a byte 0xff, are not among the rendered mappings, since the parser takes them apart; `LongName` and `ByteFFEndsParse` say how, and `LinuxReadStackInfo` covers such files.
- Printers.PrintInt: the least 64-bit number is excluded, because negating it is undefined.
- Printers.PrintUint: what C does after the write in front of the buffer is undefined and not modelled.
- LoaderReloc.Process.RelaLoop: asks for an entry size above 0 and a table whose end does not wrap, without which the loop would not end; an access outside mapped memory is undefined and excluded.
- LoaderReloc.Process.DecodeApp: what C does after the access outside the array is undefined and not modelled.
- Threads.JoinIsSafe: safety only; that join returns, or that a detached thread ends, does not hold of this code in general.
- PoolRuns.SameCallsSameAddresses: until a buffer is exhausted; then the page allocator decides.
* Argument, environment and auxiliary vectors, program headers and the search for the load base, the stack trampoline, and `elf_sym_gnu_hash`, which nothing calls.
* Signals, thread cancellation beyond the marks in the blocks, `src/cia-mem/arena.c`, `src/stdlib-program/program.c`, `src/stdlib-string`, `src/stdlib-file/fmt.c`, and the Windows files.
